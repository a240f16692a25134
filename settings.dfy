/** The persisted settings record (entrypoints/shared/types.ts) and its
    default value (entrypoints/shared/storage.ts). */
module Settings {

  datatype ColorTempSettings = ColorTempSettings(enabled: bool, intensity: int)

  datatype BreakReminderSettings = BreakReminderSettings(enabled: bool, intervalMin: int)

  /** Times are "HH:MM" text, parsed by the background script. */
  datatype ScheduleSettings = ScheduleSettings(enabled: bool, startTime: string, endTime: string)

  /** The settings interface. It has no dark-mode field. */
  datatype EyeProtectSettings = EyeProtectSettings(
    masterEnabled: bool,
    colorTemp: ColorTempSettings,
    breakReminder: BreakReminderSettings,
    schedule: ScheduleSettings)

  /** The dark-mode entry that the default object carries beyond the interface. */
  datatype DarkModeSettings = DarkModeSettings(enabled: bool, brightness: int)

  /** The interface fields of the default settings object. */
  function DefaultSettings(): EyeProtectSettings
  {
    EyeProtectSettings(
      true,
      ColorTempSettings(false, 50),
      BreakReminderSettings(false, 20),
      ScheduleSettings(false, "22:00", "07:00"))
  }

  /** The extra `darkMode` entry of the default settings object. */
  function DefaultDarkMode(): DarkModeSettings
  {
    DarkModeSettings(false, 100)
  }
}
