/** The background script of entrypoints/background.ts: the alarm registry
    it keeps in step with the settings, the schedule check that switches the
    colour-temperature filter, and the decision taken when an alarm fires.
    The alarm registry is a map from alarm name to period in minutes; the
    settings store holds an optional record that reads fall back from. */
module Background {
  import opened Wrappers
  import opened Settings
  import opened Schedule

  const BreakAlarm: string := "eye-protect-break-reminder"
  const ScheduleAlarm: string := "eye-protect-schedule-check"

  /** What `settingsItem.getValue()` returns for the stored value. */
  function ReadSettings(stored: Option<EyeProtectSettings>): EyeProtectSettings {
    stored.GetOr(DefaultSettings())
  }

  predicate TimesWellFormed(s: EyeProtectSettings) {
    WellFormedTime(s.schedule.startTime) && WellFormedTime(s.schedule.endTime)
  }

  /** The registry after `setupBreakAlarm(s)`: the break alarm is cleared and
      created again with period `intervalMin` when the reminder is on. */
  function BreakAlarms(alarms: map<string, int>, s: EyeProtectSettings): map<string, int> {
    var cleared := alarms - {BreakAlarm};
    if s.masterEnabled && s.breakReminder.enabled then cleared[BreakAlarm := s.breakReminder.intervalMin]
    else cleared
  }

  /** The registry after `setupScheduleAlarm(s)`: the schedule alarm is
      cleared and created again with period 1 when the schedule is on. */
  function ScheduleAlarms(alarms: map<string, int>, s: EyeProtectSettings): map<string, int> {
    var cleared := alarms - {ScheduleAlarm};
    if s.schedule.enabled then cleared[ScheduleAlarm := 1] else cleared
  }

  /** The settings `checkSchedule(s)` writes at minute `now`, if it writes. */
  function ScheduleUpdate(s: EyeProtectSettings, now: nat): Option<EyeProtectSettings>
    requires s.schedule.enabled ==> TimesWellFormed(s)
  {
    if !s.schedule.enabled then None
    else
      var inRange := IsInScheduleRange(s.schedule.startTime, s.schedule.endTime, now);
      if inRange != s.colorTemp.enabled then Some(s.(colorTemp := s.colorTemp.(enabled := inRange)))
      else None
  }

  /** The stored value after `checkSchedule(s)`. */
  function StoreAfterCheck(stored: Option<EyeProtectSettings>, s: EyeProtectSettings, now: nat)
    : Option<EyeProtectSettings>
    requires s.schedule.enabled ==> TimesWellFormed(s)
  {
    var update := ScheduleUpdate(s, now);
    if update.Some? then update else stored
  }

  /** Whether the alarm listener sends `SHOW_BREAK_REMINDER` to the active tab. */
  predicate ShowsReminder(name: string, s: EyeProtectSettings) {
    name == BreakAlarm && s.masterEnabled && s.breakReminder.enabled
  }

  // ---------------------------------------------------------------------
  // Properties

  /** After `setupBreakAlarm` the break alarm exists exactly when the master
      switch and the reminder are on, with the reminder's interval as period;
      every other alarm is untouched. */
  lemma BreakAlarmExact(alarms: map<string, int>, s: EyeProtectSettings)
    ensures var r := BreakAlarms(alarms, s);
      (BreakAlarm in r <==> s.masterEnabled && s.breakReminder.enabled)
      && (BreakAlarm in r ==> r[BreakAlarm] == s.breakReminder.intervalMin)
      && forall name :: name != BreakAlarm ==> (name in r <==> name in alarms) && (name in r ==> r[name] == alarms[name])
  {
  }

  /** After `setupScheduleAlarm` the schedule alarm exists exactly when the
      schedule is on, whatever the master switch, with period 1; every other
      alarm is untouched. */
  lemma ScheduleAlarmExact(alarms: map<string, int>, s: EyeProtectSettings)
    ensures var r := ScheduleAlarms(alarms, s);
      (ScheduleAlarm in r <==> s.schedule.enabled)
      && (ScheduleAlarm in r ==> r[ScheduleAlarm] == 1)
      && forall name :: name != ScheduleAlarm ==> (name in r <==> name in alarms) && (name in r ==> r[name] == alarms[name])
  {
  }

  /** Setting up twice with the same settings gives the registry of setting
      up once. */
  lemma SetupIdempotent(alarms: map<string, int>, s: EyeProtectSettings)
    ensures BreakAlarms(BreakAlarms(alarms, s), s) == BreakAlarms(alarms, s)
    ensures ScheduleAlarms(ScheduleAlarms(alarms, s), s) == ScheduleAlarms(alarms, s)
  {
    BreakAlarmExact(alarms, s);
    BreakAlarmExact(BreakAlarms(alarms, s), s);
    ScheduleAlarmExact(alarms, s);
    ScheduleAlarmExact(ScheduleAlarms(alarms, s), s);
  }

  /** The listener shows a reminder only for the break alarm, and only for
      settings under which `setupBreakAlarm` keeps that alarm. */
  lemma ReminderOnlyWhenArmed(name: string, alarms: map<string, int>, s: EyeProtectSettings)
    requires ShowsReminder(name, s)
    ensures name == BreakAlarm && BreakAlarm in BreakAlarms(alarms, s)
  {
  }

  /** The schedule alarm never shows a reminder. */
  lemma ScheduleAlarmShowsNothing(s: EyeProtectSettings)
    ensures !ShowsReminder(ScheduleAlarm, s)
  {
  }

  /** `checkSchedule` writes nothing when the schedule is off. */
  lemma CheckDisabled(s: EyeProtectSettings, now: nat)
    requires !s.schedule.enabled
    ensures ScheduleUpdate(s, now).None?
  {
  }

  /** A write changes only `colorTemp.enabled`, and only when it disagrees
      with the window; afterwards it agrees with the window. */
  lemma CheckWritesOnlyColorTemp(s: EyeProtectSettings, now: nat)
    requires s.schedule.enabled && TimesWellFormed(s)
    ensures var inRange := IsInScheduleRange(s.schedule.startTime, s.schedule.endTime, now);
      var update := ScheduleUpdate(s, now);
      (update.Some? <==> inRange != s.colorTemp.enabled)
      && (update.Some? ==>
            update.value.masterEnabled == s.masterEnabled
            && update.value.breakReminder == s.breakReminder
            && update.value.schedule == s.schedule
            && update.value.colorTemp.intensity == s.colorTemp.intensity)
      && update.GetOr(s).colorTemp.enabled == inRange
  {
  }

  /** A second check at the same minute writes nothing, and the settings it
      wrote leave both alarms as they were: the storage watch that reruns the
      setup after the write stops there. */
  lemma CheckSettles(s: EyeProtectSettings, now: nat, alarms: map<string, int>)
    requires s.schedule.enabled ==> TimesWellFormed(s)
    requires ScheduleUpdate(s, now).Some?
    ensures var u := ScheduleUpdate(s, now).value;
      u.schedule == s.schedule
      && ScheduleUpdate(u, now).None?
      && BreakAlarms(alarms, u) == BreakAlarms(alarms, s)
      && ScheduleAlarms(alarms, u) == ScheduleAlarms(alarms, s)
  {
    var u := ScheduleUpdate(s, now).value;
    CheckWritesOnlyColorTemp(s, now);
    assert u.schedule == s.schedule;
  }

  /** With the default settings the schedule is off: no schedule alarm, no
      write; the break reminder is off too. */
  lemma DefaultsArmNothing(alarms: map<string, int>, now: nat)
    ensures BreakAlarm !in BreakAlarms(alarms, DefaultSettings())
    ensures ScheduleAlarm !in ScheduleAlarms(alarms, DefaultSettings())
    ensures ScheduleUpdate(DefaultSettings(), now).None?
  {
    BreakAlarmExact(alarms, DefaultSettings());
    ScheduleAlarmExact(alarms, DefaultSettings());
  }

  // ---------------------------------------------------------------------
  // The background script's state

  class BackgroundScript {
    /** The value under `local:eyeProtectSettings`, if one was ever written. */
    var stored: Option<EyeProtectSettings>
    /** The alarms created by the extension, by name, with their periods. */
    var alarms: map<string, int>

    function Settings(): EyeProtectSettings
      reads this
    {
      ReadSettings(stored)
    }

    constructor(stored: Option<EyeProtectSettings>)
      ensures this.stored == stored && alarms == map[]
    {
      this.stored := stored;
      alarms := map[];
    }

    /** `setupBreakAlarm(settings)`. */
    method SetupBreakAlarm(settings: EyeProtectSettings)
      modifies this
      ensures alarms == BreakAlarms(old(alarms), settings) && stored == old(stored)
    {
      alarms := alarms - {BreakAlarm};
      if settings.masterEnabled && settings.breakReminder.enabled {
        alarms := alarms[BreakAlarm := settings.breakReminder.intervalMin];
      }
    }

    /** `checkSchedule(settings)` at minute `now`. */
    method CheckSchedule(settings: EyeProtectSettings, now: nat)
      requires settings.schedule.enabled ==> TimesWellFormed(settings)
      modifies this
      ensures stored == StoreAfterCheck(old(stored), settings, now) && alarms == old(alarms)
    {
      if !settings.schedule.enabled {
        return;
      }
      var inRange := IsInScheduleRange(settings.schedule.startTime, settings.schedule.endTime, now);
      if inRange != settings.colorTemp.enabled {
        var updated := settings.(colorTemp := settings.colorTemp.(enabled := inRange));
        stored := Some(updated);
      }
    }

    /** `setupScheduleAlarm(settings)` at minute `now`. */
    method SetupScheduleAlarm(settings: EyeProtectSettings, now: nat)
      requires settings.schedule.enabled ==> TimesWellFormed(settings)
      modifies this
      ensures alarms == ScheduleAlarms(old(alarms), settings)
      ensures stored == StoreAfterCheck(old(stored), settings, now)
    {
      alarms := alarms - {ScheduleAlarm};
      if settings.schedule.enabled {
        alarms := alarms[ScheduleAlarm := 1];
        CheckSchedule(settings, now);
      }
    }

    /** The initial setup and the storage watch: both alarms are set up from
        `settings`. */
    method OnSettings(settings: EyeProtectSettings, now: nat)
      requires settings.schedule.enabled ==> TimesWellFormed(settings)
      modifies this
      ensures alarms == ScheduleAlarms(BreakAlarms(old(alarms), settings), settings)
      ensures stored == StoreAfterCheck(old(stored), settings, now)
    {
      SetupBreakAlarm(settings);
      SetupScheduleAlarm(settings, now);
    }

    /** The alarm listener: reads the settings, tells whether the active tab
        is sent `SHOW_BREAK_REMINDER`, and runs the schedule check for the
        schedule alarm. */
    method OnAlarm(name: string, now: nat) returns (showReminder: bool)
      requires name == ScheduleAlarm && Settings().schedule.enabled ==> TimesWellFormed(Settings())
      modifies this
      ensures showReminder == ShowsReminder(name, old(Settings()))
      ensures stored == (if name == ScheduleAlarm then StoreAfterCheck(old(stored), old(Settings()), now)
                         else old(stored))
      ensures alarms == old(alarms)
    {
      var settings := Settings();
      showReminder := false;
      if name == BreakAlarm {
        if settings.masterEnabled && settings.breakReminder.enabled {
          showReminder := true;
        }
      }
      if name == ScheduleAlarm {
        CheckSchedule(settings, now);
      }
    }
  }
}
