# Eye-Protection browser extension: a verified model of its core

This project models the core of the Eye-Protection extension in Dafny and
proves properties of the model. It covers four parts:

- **The dark-mode engine** (`entrypoints/content/dark-mode.ts`).
  - Parsing of computed colours (`parseColor`).
  - Lightness inversion (`invertLightness`).
  - Protection of media elements (`isProtected`).
  - Recolouring of one element (`processElement`).
  - Activation with the brightness style and the mutation observer (`applyDarkMode`).
  - Exact cleanup (`removeDarkMode`).
- **The background script** (`entrypoints/background.ts`).
  - The schedule window test `isInScheduleRange`, which may cross midnight.
  - The alarm registry kept in step with the settings (`setupBreakAlarm`, `setupScheduleAlarm`).
  - The schedule check that switches the colour-temperature filter (`checkSchedule`).
  - The alarm listener's decision.
- **The colour-temperature overlay** (`entrypoints/content/color-temp.ts`).
- **The break-reminder countdown** (`entrypoints/content/break-reminder.ts`).

The settings records come from `entrypoints/shared/types.ts`, and their
defaults from `entrypoints/shared/storage.ts`.

Files:

| file | contents |
|---|---|
| `wrappers.dfy` | `Option` |
| `decimal.dfy` | Decimal digit texts and their values, with a round trip. |
| `settings.dfy` | The settings records and their defaults. |
| `color.dfy` | `parseColor` as a scanner, written to follow the regular expression, with the leftmost-match search. The `Number()` of the alpha text. `invertLightness`. `isProtected`. |
| `color_proofs.dfy` | `parseColor` proved against a grammar of the colour texts. Worked examples. Properties of the grey path. |
| `dark_mode.dfy` | The document as a map from element identity to element record. The per-step functions of the engine. |
| `dark_mode_proofs.dfy` | Properties of the engine's steps. |
| `dark_mode_engine.dfy` | `class Engine`: the engine's state and its methods. Each method is proved equal to its step function. |
| `dom.dfy` | Removal of the first element with a given id. |
| `schedule.dfy` | "HH:MM" parsing and the window test, with its geometry. |
| `background.dfy` | `class BackgroundScript`: the alarm registry and the stored settings. |
| `color_temp.dfy` | `class OverlayPage` and the overlay lifecycle. |
| `break_reminder.dfy` | `class ReminderPage` and the countdown. |

Each stateful part of the source is a class.
- Its fields hold what the TypeScript file keeps or changes: module-level variables (`observer`, `countdownTimer`), the `processed` set that the observer's callback closes over (a local of `applyDarkMode`), the page's style and overlay elements, the alarm registry and the stored settings.
- Each method's postcondition equates its new state with a pure step function of the old state.
- Lemmas about those step functions state what the source promises.

Browser inputs become parameters:
- what `getComputedStyle` reports is part of each element record;
- what `querySelectorAll('*')` returns is a sequence of element identities;
- the current minute of the day is a number.

## Behaviour the model exposes

- **`applyDarkMode` is not idempotent in general.**
  - `removeDarkMode` strips the inline `background-color` and `color` of every marked element.
  - `processElement` marks every unprotected element, even one whose colours it does not overwrite.
  - So an inline background that the page set itself, on an element whose computed background fails the alpha test, survives the first activation and is lost at the second.
  - `DarkModeProofs.ApplyTwiceStripsPageStyle` proves this.
  - On pages that set no inline colours, applying twice equals applying once (`DarkModeProofs.ApplyIdempotent`).
- **Case and alpha in the protection and recolouring tests.**
  - The tag test compares `tagName` with upper-case names exactly. Inline `svg` elements of an HTML page report a lower-case `tagName`, so they are protected only by a background image.
  - Alpha exactly `0.1` is not recoloured: the comparison is strict.
  - NaN alpha, from a text such as `1.2.3`, is never recoloured.
- **`parseColor` is looser than CSS colour syntax.**
  - It takes channels above 255 unchanged.
  - `rgb(` accepts a fourth component.
  - `rgba(` accepts three components, and alpha is then 1.
- **The brightness is not clamped.**
  - The style element records the brightness as given.
  - The division `100 / brightness` in its text is not modelled.
- **The settings shape.**
  - `DEFAULT_SETTINGS` carries a `darkMode` entry that the `EyeProtectSettings` interface does not declare.
  - The model follows the interface and keeps the dark-mode defaults in a separate record.
  - Nothing in the background script reads or writes dark-mode settings.
  - `Settings.DarkModeSettings` and `Settings.DefaultDarkMode` only record that stray default; no other part of the model uses them.
- **The dark-mode engine and the break reminder are not wired up.**
  - The content script (`entrypoints/content.ts`) calls only `applyColorTemp`, at load, on storage changes and on an `APPLY_SETTINGS` message.
  - It ignores the `SHOW_BREAK_REMINDER` message that the background's alarm listener sends, and nothing calls `applyDarkMode` or `showBreakReminder`.
  - The contracts about the engine and the reminder describe those functions as written, for whichever caller invokes them.

## Model

| member | source | states |
|---|---|---|
| Color.ParseColor | entrypoints/content/dark-mode.ts:38-42 | Definition: the match at the leftmost index where the pattern matches. Its meaning is stated by `ColorProofs.MatchRendered`, `ColorProofs.MatchSplit`, `ColorProofs.ParseColorFound` and `ColorProofs.ParseColorNone`. |
| Color.NumberOf | entrypoints/content/dark-mode.ts:41 | Definition: `Number()` of a `[\d.]+` text. Its meaning is stated by `ColorProofs.NumberOfPointed` and `ColorProofs.NumberOfTwoPoints`. |
| Color.InvertLightness | entrypoints/content/dark-mode.ts:6-47 | Definition: the grey path computed exactly, the chromatic path a parameter. Its meaning is stated by `ColorProofs.InvertGrey` and `ColorProofs.InvertGreyTwice`. |
| Color.IsProtected | entrypoints/content/dark-mode.ts:49-54 | Definition: a protected tag name, or a background image other than empty and `none`. Stated by `ColorProofs.ProtectionExamples` and `DarkModeProofs.RecolorKeepsProtection`. |
| ColorProofs.MatchRendered | entrypoints/content/dark-mode.ts:39-41 | A colour text of the pattern's grammar, followed by anything, matches at its start. The match gives the written channels and the alpha's `Number()`, or 1 when there is none. |
| ColorProofs.MatchSplit | entrypoints/content/dark-mode.ts:39-41 | Every match at the start of a string is the text of a well-formed colour followed by a rest, with that colour's meaning. |
| ColorProofs.FirstOfLeftmost | entrypoints/content/dark-mode.ts:39 | The unanchored search finds nothing exactly when no index matches. Otherwise it returns the match at the least matching index. |
| ColorProofs.LeftmostIndex | entrypoints/content/dark-mode.ts:39-40 | A found colour is the match at some index, and no earlier index matches. |
| ColorProofs.ParseColorFound | entrypoints/content/dark-mode.ts:38-41 | When `parseColor` returns a colour, a well-formed colour text starts at the leftmost matching index, and the result is that text's meaning. |
| ColorProofs.ParseColorNone | entrypoints/content/dark-mode.ts:38-40 | `parseColor` returns null exactly when no well-formed colour text starts anywhere in the string. |
| ColorProofs.NoMatchNoText | entrypoints/content/dark-mode.ts:39-40 | When `parseColor` returns null, no well-formed colour text starts at any index. |
| ColorProofs.ParseRendered | entrypoints/content/dark-mode.ts:38-41 | A string that begins with a colour text parses to that colour. |
| ColorProofs.NumberOfPointed | entrypoints/content/dark-mode.ts:41 | `+match[4]` of a decimal with one point is its exact value. Either side of the point may be empty, but not both. |
| ColorProofs.NumberOfTwoPoints | entrypoints/content/dark-mode.ts:41 | `+match[4]` of a text with two points is NaN. |
| ColorProofs.ParseChannels | entrypoints/content/dark-mode.ts:38-41 | A text of the pattern whose channels are canonical decimal numerals, with the same spaces after both commas, parses to those numbers, with the alpha's `Number()` or 1. |
| ColorProofs.BlackWithAlpha | entrypoints/content/dark-mode.ts:38-41 | `rgba(0, 0, 0, a)` parses to black with alpha `Number(a)`. |
| ColorProofs.ParseWhite | entrypoints/content/dark-mode.ts:38-41 | `rgb(255, 255, 255)` gives opaque white. |
| ColorProofs.ParseBlack | entrypoints/content/dark-mode.ts:38-41 | `rgb(0, 0, 0)` gives opaque black. |
| ColorProofs.NumberZero | entrypoints/content/dark-mode.ts:41 | `+"0"` is 0. |
| ColorProofs.NumberHundredths | entrypoints/content/dark-mode.ts:41 | `+"0.05"` is 0.05. |
| ColorProofs.NumberTenth | entrypoints/content/dark-mode.ts:41 | `+"0.1"` is 0.1. |
| ColorProofs.NumberHalf | entrypoints/content/dark-mode.ts:41 | `+"0.5"` is 0.5. |
| ColorProofs.ParseUnclamped | entrypoints/content/dark-mode.ts:38-41 | Channels are not clamped: `rgb(300, 0, 0)` gives 300. |
| ColorProofs.ParseRgbWithAlpha | entrypoints/content/dark-mode.ts:38-41 | `rgb(` also takes a fourth component as alpha. |
| ColorProofs.ParseTransparent | entrypoints/content/dark-mode.ts:38-41 | `rgba(0, 0, 0, 0)` gives alpha 0. |
| ColorProofs.ParseAlphaHundredths | entrypoints/content/dark-mode.ts:38-41 | `rgba(0, 0, 0, 0.05)` gives alpha 0.05. |
| ColorProofs.ParseAlphaTenth | entrypoints/content/dark-mode.ts:38-41 | `rgba(0, 0, 0, 0.1)` gives alpha 0.1. |
| ColorProofs.ParseAlphaHalf | entrypoints/content/dark-mode.ts:38-41 | `rgba(0, 0, 0, 0.5)` gives alpha 0.5. |
| ColorProofs.ParseRgbaWithoutAlpha | entrypoints/content/dark-mode.ts:38-41 | `rgba(` with three components gives alpha 1. |
| ColorProofs.InvertGrey | entrypoints/content/dark-mode.ts:44-47 | A grey `v` has lightness `v/255`. It becomes the grey `255 - v`, whatever the chromatic path. |
| ColorProofs.InvertGreyTwice | entrypoints/content/dark-mode.ts:44-47 | Inverting a grey channel value twice gives it back. |
| ColorProofs.InvertBlackWhite | entrypoints/content/dark-mode.ts:44-47 | White becomes black, and black becomes white. |
| ColorProofs.ProtectionExamples | entrypoints/content/dark-mode.ts:49-54 | Protected tags and background images protect. Lower-case tag names and the `none` background image do not. |
| DarkMode.Overwrite | entrypoints/content/dark-mode.ts:61-75 | Definition: what one channel writes. Its meaning is stated by `DarkModeProofs.OverwriteGrey` and the scenario lemmas. |
| DarkMode.Recolor | entrypoints/content/dark-mode.ts:60-75 | Definition: the marker plus each channel's overwrite. Stated by `DarkModeProofs.RecolorKeepsProtection`. |
| DarkMode.Process | entrypoints/content/dark-mode.ts:56-76 | Definition of `processElement`. Its meaning is stated by `DarkModeProofs.ProcessEffect`. |
| DarkMode.ProcessAll | entrypoints/content/dark-mode.ts:92-93 | Definition of the `forEach`. Its meaning is stated by `DarkModeProofs.ProcessAllEffect`, `DarkModeProofs.ProcessAllTwice` and `DarkModeProofs.ProcessAllAppend`. |
| DarkMode.ClearAll | entrypoints/content/dark-mode.ts:111-115 | Definition: every marked element loses the marker and both inline colours. Implemented by `DarkModeEngine.ClearMarked`. |
| DarkMode.RemoveState | entrypoints/content/dark-mode.ts:108-116 | Definition of `removeDarkMode`. Its meaning is stated by `DarkModeProofs.RemoveEffect`, `DarkModeProofs.RemoveIdempotent` and `DarkModeProofs.RemoveRestores`. |
| DarkMode.ApplyState | entrypoints/content/dark-mode.ts:78-106 | Definition of `applyDarkMode`. Its meaning is stated by `DarkModeProofs.ApplyDisabled`, `DarkModeProofs.ApplyEnabled` and `DarkModeProofs.ApplyIdempotent`. |
| DarkMode.AddedState | entrypoints/content/dark-mode.ts:95-104 | Definition of the observer's callback. Its meaning is stated by `DarkModeProofs.AddedEffect`, `DarkModeProofs.AddedTwice` and `DarkModeProofs.AddedWhenInactive`. |
| Dom.RemoveFirst | entrypoints/content/dark-mode.ts:109 | Definition of `getElementById(id)?.remove()`, also used at color-temp.ts:27 and break-reminder.ts:64. Stated by `ColorTemp.RemoveIdempotent` and `DarkModeProofs.RemoveIdempotent`. |
| DarkModeProofs.RecolorKeepsProtection | entrypoints/content/dark-mode.ts:56-76 | Recolouring sets the marker and never changes what decides protection. |
| DarkModeProofs.ProcessEffect | entrypoints/content/dark-mode.ts:56-76 | One call changes only its own element. The element is recoloured exactly when it is neither processed nor protected. It joins `processed` exactly when it is not protected. |
| DarkModeProofs.ProcessAllEffect | entrypoints/content/dark-mode.ts:92-93 | Processing a list recolours, once, each unprotected listed element that was not yet processed, and leaves every other element unchanged. `processed` grows by exactly the unprotected listed elements. |
| DarkModeProofs.ProcessAllTwice | entrypoints/content/dark-mode.ts:56-58 | Within one activation, processing a list a second time changes nothing. |
| DarkModeProofs.ProcessAllAppend | entrypoints/content/dark-mode.ts:96-101 | Processing a concatenation processes the first part, then the second. |
| DarkModeProofs.RemoveEffect | entrypoints/content/dark-mode.ts:108-116 | After `removeDarkMode` there is no style element, no observer and no marker. Marked elements lose both inline colours and keep everything else. Unmarked elements are untouched. |
| DarkModeProofs.RemoveIdempotent | entrypoints/content/dark-mode.ts:108-116 | Removing twice is removing once. |
| DarkModeProofs.ApplyDisabled | entrypoints/content/dark-mode.ts:78-80 | With the feature or the master switch off, the state is exactly the state after `removeDarkMode`. |
| DarkModeProofs.FreshProcessEffect | entrypoints/content/dark-mode.ts:82-93 | Processing the body with a fresh `processed` set, after clearing, marks exactly the unprotected body elements. Each of them becomes the recolouring of its cleared self, and every other element is only cleared. |
| DarkModeProofs.ApplyEnabled | entrypoints/content/dark-mode.ts:78-106 | With both switches on: exactly one style element with this brightness; the observer installed; `processed` is exactly the unprotected body elements. Each such element is cleared and recoloured, and every other element is only cleared. The result is consistent. |
| DarkModeProofs.ApplyEnabledAt | entrypoints/content/dark-mode.ts:82-93 | Each unprotected body element ends up as the recolouring of its cleared self. |
| DarkModeProofs.ApplyAfterRemove | entrypoints/content/dark-mode.ts:79 | Applying starts from the inactive state. Removing first changes nothing. |
| DarkModeProofs.AddedEffect | entrypoints/content/dark-mode.ts:95-104 | The observer recolours each unprotected added element or descendant that is not yet processed, and leaves every other element unchanged. `processed` grows by exactly the batch's unprotected elements, each of which then carries the marker. |
| DarkModeProofs.AddedTwice | entrypoints/content/dark-mode.ts:95-104 | A batch delivered twice is processed once. |
| DarkModeProofs.AddedWhenInactive | entrypoints/content/dark-mode.ts:110 | A disconnected observer changes nothing. |
| DarkModeProofs.ProcessAllRestores | entrypoints/content/dark-mode.ts:64-75 | Processing keeps every element restorable, by clearing, to its pristine original. |
| DarkModeProofs.ApplyRestores | entrypoints/content/dark-mode.ts:78-106 | Activation keeps every element restorable to the pristine page. |
| DarkModeProofs.AddedRestores | entrypoints/content/dark-mode.ts:95-104 | The observer keeps every element restorable to the pristine page. |
| DarkModeProofs.RemoveRestores | entrypoints/content/dark-mode.ts:108-116 | `removeDarkMode` restores a pristine page exactly, with no style element and no observer. |
| DarkModeProofs.OverwriteGrey | entrypoints/content/dark-mode.ts:68-75 | A computed grey `v` is overwritten by the grey `255 - v` with the original alpha when alpha exceeds 0.1. Otherwise it is left alone. |
| DarkModeProofs.OverwriteOpaqueGrey | entrypoints/content/dark-mode.ts:68-75 | An opaque computed grey `v` is overwritten by the opaque grey `255 - v`. |
| DarkModeProofs.WhiteBackgroundScenario | entrypoints/content/dark-mode.ts:68-71 | An opaque white background becomes opaque black. |
| DarkModeProofs.NearlyTransparentScenario | entrypoints/content/dark-mode.ts:68-71 | Alpha 0.05 is left alone. |
| DarkModeProofs.ThresholdScenario | entrypoints/content/dark-mode.ts:68-71 | Alpha exactly 0.1 is left alone. |
| DarkModeProofs.HalfTransparentScenario | entrypoints/content/dark-mode.ts:68-71 | Alpha 0.5 is inverted, and the alpha is kept. |
| DarkModeProofs.TransparentScenario | entrypoints/content/dark-mode.ts:68-71 | A transparent computed colour is left alone. |
| DarkModeProofs.ApplyIdempotent | entrypoints/content/dark-mode.ts:78-106 | On a page that sets no inline colours itself, applying twice equals applying once. |
| DarkModeProofs.ApplyTwiceStripsPageStyle | entrypoints/content/dark-mode.ts:111-115 | A page-set inline background on an unprotected element whose computed background is not overwritten survives one activation. It is removed by a second. |
| DarkModeProofs.ConsistentPreserved | entrypoints/content/dark-mode.ts:78-116 | Removal, activation and the observer keep the invariants. There is at most one style element. The observer is installed exactly when the style element is present. Every processed element is present and marked. |
| DarkModeEngine.ClearMarked | entrypoints/content/dark-mode.ts:111-115 | The loop over the marked elements removes the marker and both inline colours from each of them, and from no other element. |
| DarkModeEngine.Engine.constructor | entrypoints/content/dark-mode.ts:1-2 | The engine starts with no style element and no observer. |
| DarkModeEngine.Engine.ProcessElement | entrypoints/content/dark-mode.ts:56-76 | One `processElement` call has the effect `ProcessEffect` describes. |
| DarkModeEngine.Engine.ProcessEach | entrypoints/content/dark-mode.ts:92-93 | The loop over the body's elements has the effect `ProcessAllEffect` describes. |
| DarkModeEngine.Engine.RemoveDarkMode | entrypoints/content/dark-mode.ts:108-116 | Removes the style element, disconnects the observer and clears the marked elements: the state `RemoveEffect` describes. Keeps the invariant. |
| DarkModeEngine.Engine.ApplyDarkMode | entrypoints/content/dark-mode.ts:78-106 | Gives the state `ApplyDisabled` and `ApplyEnabled` describe, and keeps the invariant. |
| DarkModeEngine.Engine.ProcessNode | entrypoints/content/dark-mode.ts:98-101 | An added element is processed, then its descendants in order. Other nodes are skipped. |
| DarkModeEngine.Engine.ProcessNodes | entrypoints/content/dark-mode.ts:97-102 | The added nodes of one record are processed in order. |
| DarkModeEngine.Engine.OnMutations | entrypoints/content/dark-mode.ts:95-104 | The callback for a batch gives the state `AddedEffect` describes, and keeps the invariant. |
| Schedule.Minutes | entrypoints/background.ts:9-13 | Definition: `h * 60 + m` of the text "h:m". Its meaning is stated by `Schedule.ClockRoundTrip`. |
| Schedule.InRange | entrypoints/background.ts:15-20 | Definition of the comparison. Its meaning is stated by `Schedule.WindowIsArc` and `Schedule.WindowLength`. |
| Schedule.IsInScheduleRange | entrypoints/background.ts:7-21 | Definition of `isInScheduleRange` with the current minute as a parameter. Stated by `Schedule.DefaultWindow`. |
| Schedule.ColonIndex | entrypoints/background.ts:9-10 | `split(':')` cuts at the first colon: no colon before the index, and one at it unless there is none. |
| Schedule.ClockRoundTrip | entrypoints/background.ts:9-13 | Reading back an "HH:MM" text gives the minute of the day it names. |
| Schedule.EmptyWindow | entrypoints/background.ts:15-20 | Equal start and end give an empty window. |
| Schedule.SwappedWindow | entrypoints/background.ts:15-20 | Swapping distinct start and end gives the complementary window. |
| Schedule.WindowIsArc | entrypoints/background.ts:15-20 | For minutes of the day, the window is the clockwise arc from start to end: `now` is in it exactly when `(now - start) mod 1440 < (end - start) mod 1440`. |
| Schedule.CountForward | entrypoints/background.ts:15-16 | A window that does not cross midnight covers `end - start` minutes. |
| Schedule.CountWrapped | entrypoints/background.ts:17-19 | A window across midnight covers `end` minutes after midnight and `k - start` minutes before it. |
| Schedule.WindowLength | entrypoints/background.ts:15-20 | The window covers `(end - start) mod 1440` minutes of the day. |
| Schedule.DefaultMinutes | entrypoints/shared/storage.ts:9 | The default times "22:00" and "07:00" are well formed and name minutes 1320 and 420. |
| Schedule.DefaultWindow | entrypoints/background.ts:18-19 | The default window 22:00 to 07:00 holds exactly the minutes from 22:00 on and before 07:00. |
| Schedule.DefaultWindowLength | entrypoints/background.ts:18-19 | The default window covers nine hours of the day. |
| Settings.DefaultSettings | entrypoints/shared/storage.ts:4-10 | Definition of the interface fields of `DEFAULT_SETTINGS`. Stated by `Background.DefaultsArmNothing`. |
| Background.ReadSettings | entrypoints/shared/storage.ts:12-15 | Definition: the stored value, or the defaults as fallback. Stated by `Background.DefaultsArmNothing`. |
| Background.BreakAlarms | entrypoints/background.ts:23-30 | Definition of `setupBreakAlarm` on the registry. Its meaning is stated by `Background.BreakAlarmExact`. |
| Background.ScheduleAlarms | entrypoints/background.ts:32-37 | Definition of `setupScheduleAlarm` on the registry. Its meaning is stated by `Background.ScheduleAlarmExact`. |
| Background.ScheduleUpdate | entrypoints/background.ts:42-52 | Definition of the write `checkSchedule` makes, if any. Its meaning is stated by `Background.CheckDisabled` and `Background.CheckWritesOnlyColorTemp`. |
| Background.StoreAfterCheck | entrypoints/background.ts:42-52 | Definition: the store after `checkSchedule`. Stated by `Background.CheckSettles`. |
| Background.ShowsReminder | entrypoints/background.ts:82-86 | Definition of the listener's decision to send `SHOW_BREAK_REMINDER`. Its meaning is stated by `Background.ReminderOnlyWhenArmed` and `Background.ScheduleAlarmShowsNothing`. |
| Background.BackgroundScript.constructor | entrypoints/background.ts:65-67 | The background starts with the given stored value and no alarms. |
| Background.BreakAlarmExact | entrypoints/background.ts:23-30 | The break alarm exists exactly when the master switch and the reminder are on, with the reminder's interval as its period. Other alarms are untouched. |
| Background.ScheduleAlarmExact | entrypoints/background.ts:32-40 | The schedule alarm exists exactly when the schedule is on, whatever the master switch, with period 1. Other alarms are untouched. |
| Background.SetupIdempotent | entrypoints/background.ts:23-40 | Setting up twice with the same settings gives the registry of setting up once. |
| Background.ReminderOnlyWhenArmed | entrypoints/background.ts:79-86 | The listener sends `SHOW_BREAK_REMINDER` only for the break alarm, and only under settings that keep that alarm. |
| Background.ScheduleAlarmShowsNothing | entrypoints/background.ts:82-90 | The schedule alarm never shows a reminder. |
| Background.CheckDisabled | entrypoints/background.ts:43 | `checkSchedule` writes nothing when the schedule is off. |
| Background.CheckWritesOnlyColorTemp | entrypoints/background.ts:42-52 | It writes exactly when the colour-temperature switch disagrees with the window. The write changes only that switch, which then agrees with the window. |
| Background.CheckSettles | entrypoints/background.ts:72-76 | The watch rerun after a schedule write sets up the same alarms, and a check at the same minute writes nothing. |
| Background.DefaultsArmNothing | entrypoints/shared/storage.ts:4-10 | Under the defaults there is no break alarm, no schedule alarm and no write. |
| Background.BackgroundScript.SetupBreakAlarm | entrypoints/background.ts:23-30 | Gives the registry `BreakAlarmExact` describes, and leaves the store alone. |
| Background.BackgroundScript.CheckSchedule | entrypoints/background.ts:42-52 | Writes the store as `CheckWritesOnlyColorTemp` describes, and leaves the alarms alone. |
| Background.BackgroundScript.SetupScheduleAlarm | entrypoints/background.ts:32-40 | Gives the registry `ScheduleAlarmExact` describes, then runs the check. |
| Background.BackgroundScript.OnSettings | entrypoints/background.ts:67-76 | The initial setup and the watch set up both alarms from the settings. |
| Background.BackgroundScript.OnAlarm | entrypoints/background.ts:79-91 | Decides to show a reminder as `ReminderOnlyWhenArmed` allows. Runs the check only for the schedule alarm. Never changes the alarms. |
| ColorTemp.Opacity | entrypoints/content/color-temp.ts:9-10 | Definition: `(intensity / 100) * 0.4`. Its meaning is stated by `ColorTemp.OpacityRange` and `ColorTemp.OpacityInverse`. |
| ColorTemp.ApplyOverlay | entrypoints/content/color-temp.ts:3-24 | Definition of `applyColorTemp` on the page's overlays. Its meaning is stated by `ColorTemp.ApplyExact`, `ColorTemp.ApplyIdempotent` and `ColorTemp.LastApplyWins`. |
| ColorTemp.OverlayPage.constructor | entrypoints/content/color-temp.ts:1 | A page starts with no overlay. |
| ColorTemp.OpacityRange | entrypoints/content/color-temp.ts:9-10 | Intensities 0 to 100 give opacities 0 to 0.4, with the ends exact. |
| ColorTemp.OpacityInverse | entrypoints/content/color-temp.ts:10 | The intensity is 250 times the opacity, so a higher intensity gives a stronger overlay. |
| ColorTemp.OpacityUnclamped | entrypoints/content/color-temp.ts:10 | Intensities outside 0 to 100 are not clamped. |
| ColorTemp.ApplyExact | entrypoints/content/color-temp.ts:3-24 | From at most one overlay, applying leaves exactly one overlay of the requested opacity when both switches are on, and none otherwise. |
| ColorTemp.AtMostOneOverlay | entrypoints/content/color-temp.ts:3-28 | There is never more than one overlay. Removing leaves none. |
| ColorTemp.ApplyIdempotent | entrypoints/content/color-temp.ts:3-24 | Applying twice with the same arguments is applying once. |
| ColorTemp.LastApplyWins | entrypoints/content/color-temp.ts:3-24 | The last application alone decides the overlay. |
| ColorTemp.RemoveIdempotent | entrypoints/content/color-temp.ts:26-28 | Removing twice is removing once, and leaves no overlay. |
| ColorTemp.OverlayPage.RemoveColorTemp | entrypoints/content/color-temp.ts:26-28 | Removes the first overlay, if any. |
| ColorTemp.OverlayPage.ApplyColorTemp | entrypoints/content/color-temp.ts:3-24 | Gives the overlays `ApplyExact` describes, and keeps at most one. |
| BreakReminder.DismissState | entrypoints/content/break-reminder.ts:62-65 | Definition of `dismissBreakReminder`. Its meaning is stated by `BreakReminder.DismissIdempotent`. |
| BreakReminder.ShowState | entrypoints/content/break-reminder.ts:4-60 | Definition of `showBreakReminder`. Its meaning is stated by `BreakReminder.ShowStartsAfresh`. |
| BreakReminder.TickState | entrypoints/content/break-reminder.ts:55-59 | Definition of one firing of the interval. Its meaning is stated by `BreakReminder.TickOnce` and `BreakReminder.Countdown`. |
| BreakReminder.ReminderPage.constructor | entrypoints/content/break-reminder.ts:1-2 | A page starts with no overlay and no interval. |
| BreakReminder.ShowStartsAfresh | entrypoints/content/break-reminder.ts:4-60 | Showing replaces whatever was on screen with one overlay reading "20s" and one running interval at 20 seconds. |
| BreakReminder.TickOnce | entrypoints/content/break-reminder.ts:55-59 | A firing takes one second off and shows the new count. At zero the reminder is dismissed. |
| BreakReminder.Countdown | entrypoints/content/break-reminder.ts:55-59 | From `n` seconds, the first `n - 1` firings keep the reminder showing the seconds left. The `n`-th removes it and stops the interval. |
| BreakReminder.TwentyTicks | entrypoints/content/break-reminder.ts:36-59 | After showing, the reminder stays for exactly 20 firings, counting down from 20. |
| BreakReminder.DismissIdempotent | entrypoints/content/break-reminder.ts:62-65 | Dismissing leaves no overlay and no interval. Dismissing again changes nothing. |
| BreakReminder.ReadyPreserved | entrypoints/content/break-reminder.ts:1-65 | Show, a firing and dismiss keep the invariant: an interval runs exactly while one overlay is shown, and it shows the positive seconds left. |
| BreakReminder.ReminderPage.Dismiss | entrypoints/content/break-reminder.ts:62-65 | `dismissBreakReminder`, also the skip button's handler: the state `DismissIdempotent` describes. |
| BreakReminder.ReminderPage.Show | entrypoints/content/break-reminder.ts:4-60 | The state `ShowStartsAfresh` describes. |
| BreakReminder.ReminderPage.Tick | entrypoints/content/break-reminder.ts:55-59 | One firing of the interval: the state `TickOnce` describes. |

## Left out

- The chromatic path of `invertLightness` (`rgbToHsl`, `hslToRgb` with `hue2rgb`) is a function parameter. Floating-point hue arithmetic has no exact counterpart. Only the grey path, where `max === min`, is computed, with exact reals.
- JavaScript numbers are exact here: reals for alpha and opacity, unbounded integers for channels and minutes. Rounding of doubles is not modelled, and neither are integers above 2^53.
- The text of the injected CSS is not modelled: the `rgba(...)` strings with `!important`, and the two `filter: brightness(...)` rules. A style element is recorded by its brightness. The inline value the engine writes is recorded by its channels and alpha.
- `DarkMode.Recolor`: the computed colours of an element are inputs of its record. They do not follow the inline values that the page or the engine writes. In a browser, `color` is inherited. Once the engine writes an inverted `color` on an element, a descendant processed after it reads that inverted value as its computed colour and inverts it back. So inherited text colour alternates with depth. The model recolours every element from its original computed colours instead. `DarkModeProofs.ApplyEnabled`, `DarkModeProofs.ApplyEnabledAt` and `DarkModeProofs.AddedEffect` describe each element's result only under this simplification. `DarkModeProofs.ApplyTwiceStripsPageStyle` likewise assumes that the computed background stays the same when the page's inline value is stripped.
- The document's structure is fixed. `querySelectorAll('*')` and the added nodes of a mutation record are given as identities of elements already in the document. Element removal by the page is not modelled.
- `WeakSet` garbage collection is not modelled. Neither is the timing of `MutationObserver` delivery: a batch is delivered by an explicit call.
- Intensities and intervals are integers, as the popup's range inputs (step 1) produce. Other writers of the stored settings are not modelled.
- Time and timing are explicit. `new Date()` becomes the parameter `now`, the minute of the day. The one-second `setInterval` and the periodic alarms become explicit calls.
- `browser.alarms` is a map from alarm name to period. Its minimum-period rules are not modelled, and neither is an alarm's phase. Clearing and re-creating an alarm restarts its period. So every settings write postpones the next break reminder by a full interval, including the schedule check's own write. `Background.SetupIdempotent` speaks only of the name-to-period registry.
- `sendToActiveTab` is a returned decision. The tabs query and message delivery are not modelled.
- Background operations run as sequential calls. The async ordering between the initial setup, the storage watch and the alarm listener is not modelled.
- `Schedule.IsInScheduleRange`: requires well-formed "H:M" texts. Malformed times are not modelled, such as the "" that a cleared time input of the popup stores. The source would turn such a time into NaN minutes. Every comparison with NaN is false, so an empty start time gives the window from midnight to the end time, and an empty end time gives the window from the start time to midnight.
- `DarkMode.ProcessAll`: its own contract states only that the document keeps its elements. What it does is stated by `DarkModeProofs.ProcessAllEffect`.
- The popup (`entrypoints/popup/App.tsx` and its components), the content script's message dispatch (`entrypoints/content.ts`) and the build configuration are not part of this model.
- The visual content of the overlays is not modelled: styles, icon, title, subtitle, the skip button's hover colours. An overlay is recorded by its opacity or by its countdown text.
