# Word clock core, modelled in Dafny

This project models the firmware of a German word clock (CircuitPython,
`software/WordClock.py`). It covers these parts:

- The time-to-words renderer. It maps a 12-hour hour and a minute to the set of
  lit indices on the 117-pixel strip. Those indices cover:
  - "ES IST";
  - up to four minute dots;
  - one five-minute phrase;
  - the hour word, with the carry to the next hour from minute 15;
  - "UHR".
- The class that writes that set into its pixel buffer, honouring the list of
  ignored pixels.
- The main loop's redraw gate and light switch.
- The 50-reading ambient-light window and its brightness ladder.
- The last-Sunday and summer-time calendar.
- The network-time state machine, with its warm-up re-sync after boot.
- Saving and trying Wi-Fi networks, and the station-or-access-point choice.
- The mDNS hostname search.
- The scroll of the IP address at start-up.
- The `/control/<action>` route, including the deferred Wi-Fi switch-off.

Modules:

- `Calendar` (`calendar.dfy`): proleptic Gregorian dates and ordinals, with
  Python's `weekday()` (0 is Monday, 6 is Sunday). `GetLastSunday` takes the day
  before the first of the next month and `WalkBackToSunday` steps back from
  there; the walk, started anywhere from the month's last Sunday to its last
  day, is proved to stop at that Sunday. The
  summer-time window runs from the last Sunday of March at 02:00 to the last
  Sunday of October at 03:00, half-open, on local date-times.
- `Render` (`render.dfy`):
  - the word index tables and `LitSet(hours, minutes)`;
  - lemmas that take the lit set apart region by region: base words, minute
    dots, minute phrase, hour word, suffix;
  - a decoder `ReadTime`, proved to invert `LitSet`, so no two times share a
    face.
- `Brightness` (`brightness.dfy`): the sliding window of sensor readings and the
  level ladder. Levels are whole percent (5, 10, 20, 30, 50, 70, 100). The
  float test `sum / 50 < c` is decided exactly as `sum < c * 50`.
- `Wifi` (`wifi.dfy`): the duplicate-free save of a network, and the ordered
  connect attempts. The radio's verdict is a parameter.
- `Mdns` (`mdns.dfy`): candidate hostnames and the search for the first free
  one. The names whose advertisement fails are given as a finite set of
  candidate numbers.
- `TimeSync` (`timesync.dfy`): the sync gate, the offset asked for, and the
  effect of one `adjust_time` call on `is_time_synced` / `last_time_sync`. The
  time queries are answered by a scripted sequence of attempts.
- `Scroll` (`scroll.dfy`): the scroll fields as a value and its step function.
  One pass takes `5 * len + 23` steps. In station mode the scroll ends exactly
  after two passes.
- `Control` (`control.dfy`): parsing of the action, its effect on the light
  switch, the deferred Wi-Fi flag and the time zone, and the reply text.
- `Clock` (`wordclock.dfy`): `class WordClock`. It holds the pixel array and the
  object's fields. Its methods update them in place:
  - `DisplayTime`, `DisableLight`, `AdjustBrightness`, `AdjustTime`,
    `ScrollText`;
  - `SaveCredentials`, `StartWifi`, `DisableWifi`;
  - `HandleControl`, `Begin`, `ScrollAndSync`, `ShowClock`, `Loop`.

  Each method's contract ties the new state to the functions of the modules
  above.

Two behaviours of the program worth noting:

- The mDNS suffixes start at 1. `register_mdns` increments its counter before
  it builds the first suffixed name, so the names run "wordclock",
  "wordclock1", "wordclock2", …. `Mdns.CandidateInjective` shows that
  "wordclock0" is never tried.
- Rendering is not separate from drawing. `display_time` blanks the pixel
  buffer and writes the lit words into it itself. The check for whether a
  redraw is needed is the comparison with the stored hour and minute in
  `loop`. The model keeps this split: `WordClock.DisplayTime` and
  `WordClock.ShowClock`.

## Model

| member | source | states |
|---|---|---|
| `Calendar.Weekday` | software/WordClock.py:256 | Python's `weekday()`: the day number plus six, modulo seven, so 0 is Monday and 6 is Sunday; `WeekdayWithinMonth` and `LastSundayIsLast` state its behaviour |
| `Calendar.PrevDay` | software/WordClock.py:253-257 | `date - timedelta(days=1)` on the fields, rolling back over month and year ends; `PrevDayOrdinal` proves it is the day whose number is one less |
| `Calendar.LastSunday` | software/WordClock.py:245-259 | the last Sunday of a month lies in that month, within its last seven days, and is a valid date |
| `Calendar.LastSundayIsLast` | software/WordClock.py:255-259 | that date is a Sunday (weekday 6) and no later day of the month is a Sunday |
| `Calendar.PrevDayOrdinal` | software/WordClock.py:252-258 | stepping back one day gives a valid date whose ordinal is one less |
| `Calendar.WeekdayWithinMonth` | software/WordClock.py:256 | within a month the weekday moves by the day difference modulo 7 |
| `Calendar.DayBeforeNextMonth` | software/WordClock.py:246-253 | the first of the next month (rolling over to January of the next year) is a valid date, and the day before it is the current month's last day |
| `Calendar.WalkStep` | software/WordClock.py:256-257 | while the walk is not on a Sunday, one more step back stays inside the month, lowers the weekday by one, and does not pass the Sunday |
| `Calendar.SundayDistance` | software/WordClock.py:255-259 | from any day of a month at or after its last Sunday, that Sunday lies (weekday + 1) % 7 days back |
| `Calendar.WalkBackToSunday` | software/WordClock.py:255-259 | walking back one day at a time while the weekday is not 6, started anywhere from the month's last Sunday to its last day, stops at that Sunday |
| `Calendar.GetLastSunday` | software/WordClock.py:245-259 | the backward walk from the month's last day stops at the month's last Sunday, a valid date with weekday 6 |
| `Calendar.IsDaylightSavingTime` | software/WordClock.py:262-276 | the half-open window test `dst_start <= now < dst_end` on date-times; `DstByCalendar` reads it off month by month |
| `Calendar.DaylightSavingTime` | software/WordClock.py:262-276 | the result is true exactly when the local time lies in [last Sunday of March 02:00, last Sunday of October 03:00) |
| `Calendar.OrdinalOrder` | software/WordClock.py:276 | within a year, dates compare as their (month, day) pairs do |
| `Calendar.SecondsOrder` | software/WordClock.py:276 | within a year, date-times compare lexicographically on month, day, hour, minute, second |
| `Calendar.DstByCalendar` | software/WordClock.py:262-276 | summer time holds from April to September; in March from the last Sunday at 02:00; in October until the last Sunday before 03:00 |
| `Calendar.Dst2024Sundays` | software/WordClock.py:245-259 | the last Sundays of March and October 2024 are the 31st and the 27th |
| `Calendar.Dst2024Switches` | software/WordClock.py:262-276 | in 2024 summer time is off at 31 March 01:59, on at 02:00, still on at 27 October 02:59:59 and off at 03:00 |
| `Render.LitSet` | software/WordClock.py:373-667 | the indices `display_time` lights for an hour and minute, as the union of its parts; its meaning is stated by `LitSetParts`, `LitSetInStrip` and the inverse `ReadTimeInverts` |
| `Render.FillerDots` | software/WordClock.py:381-395 | the cascade of minute dots 110, 112, 114, 116 for minutes % 5; stated by `FillerDotsPrefix` and `DotsPart` |
| `Render.MinuteWords` | software/WordClock.py:398-578 | the five-minute phrase of the `minutes < 5 … else` chain; stated by `MinuteWordsByBucket` and `MinuteWordsPart` |
| `Render.DisplayedHour` | software/WordClock.py:583-584 | the hour carried to the next one from minute 15; `CarryUndone` and `ReadDisplayedHourInverts` show it is recoverable |
| `Render.HourWords` | software/WordClock.py:586-661 | the word of the displayed hour, with the "s" of "eins" from minute 5; stated by `HourPart` |
| `Render.Suffix` | software/WordClock.py:664-667 | "UHR" on the full hour; stated by `FixedWordsPart` |
| `Render.FillerDotsRegion` | software/WordClock.py:381-395 | the minute dots are at indices 110 to 116 |
| `Render.MinuteWordsRegion` | software/WordClock.py:398-578 | every minute phrase lies in the minute rows (indices 6 to 49) |
| `Render.HourWordsRegion` | software/WordClock.py:586-661 | every hour word lies in the hour rows (50 to 109, except 97 to 103) |
| `Render.LitSetParts` | software/WordClock.py:368-669 | an index is lit iff its region's part of the face lights it: base words, minute phrase, hour word of the displayed hour, suffix, or dots |
| `Render.MinuteWordsByBucket` | software/WordClock.py:398-578 | the minute phrase is the table entry of the five-minute bucket `minutes / 5` |
| `Render.FillerDotsPrefix` | software/WordClock.py:381-395 | dot k (of 110, 112, 114, 116) is lit iff k < minutes % 5, so exactly minutes % 5 dots show |
| `Render.LitSetInStrip` | software/WordClock.py:368-669 | every index lit is below 117, the strip length |
| `Render.MinuteWordsPart` | software/WordClock.py:398-578 | in the minute rows, exactly the phrase of bucket `minutes / 5` is lit |
| `Render.DotsPart` | software/WordClock.py:381-395 | among the dots, exactly the first minutes % 5 are lit |
| `Render.FixedWordsPart` | software/WordClock.py:368-378 | "ES IST" is always lit; "UHR" (99 to 101) is lit iff minutes < 5 |
| `Render.HourPart` | software/WordClock.py:583-661 | in the hour rows exactly the word of the displayed hour ((h+1)%12 from minute 15, else h) is lit; for hour one the "s" at 60 is lit iff minutes >= 5 |
| `Render.ReadBucketOfPhrase` | software/WordClock.py:398-578 | the twelve minute phrases are told apart by the decoder |
| `Render.ReadDisplayedHourOfWord` | software/WordClock.py:586-661 | the twelve hour words are told apart by the decoder |
| `Render.ReadBucketInverts` | software/WordClock.py:398-578 | the face determines the five-minute bucket |
| `Render.ReadDotsInverts` | software/WordClock.py:381-395 | the face determines minutes % 5 |
| `Render.ReadDisplayedHourInverts` | software/WordClock.py:583-661 | the face determines the displayed hour |
| `Render.CarryUndone` | software/WordClock.py:583-584 | the hour carry (h+1)%12 is undone by (h+11)%12 for h < 12 |
| `Render.ReadTimeInverts` | software/WordClock.py:368-669 | reading the face back gives the (hour, minute) drawn, for hours 0 to 11 and minutes 0 to 59 |
| `Render.LitSetInjective` | software/WordClock.py:368-669 | different times within 12 hours never light the same set |
| `Brightness.Slide` | software/WordClock.py:330-331 | append the reading, then keep the last 50; `SlideFullWindow` states its effect on a full window |
| `Brightness.LevelPercent` | software/WordClock.py:333-351 | the elif ladder on the mean, in whole percent; `LevelFromTable`, `LevelMonotone` and `LevelExamples` state it |
| `Brightness.InitialWindow` | software/WordClock.py:60-61 | the window starts as 50 zero readings |
| `Brightness.CutoffsReached` | software/WordClock.py:338-351 | at most six cut-offs can be reached |
| `Brightness.SumAppend` | software/WordClock.py:334 | appending a reading adds it to the sum |
| `Brightness.SumPrepend` | software/WordClock.py:334 | a leading reading adds to the sum |
| `Brightness.SlideFullWindow` | software/WordClock.py:330-331 | on a full window the oldest reading leaves, the new one is last, the length stays 50, and the sum changes by new minus oldest |
| `Brightness.LevelFromTable` | software/WordClock.py:338-351 | the ladder equals the level table indexed by the number of cut-offs 320, 480, 1600, 6400, 16000, 24000 the mean reaches |
| `Brightness.LevelMonotone` | software/WordClock.py:338-351 | a larger sum never gives a lower level |
| `Brightness.LevelExamples` | software/WordClock.py:338-351 | mean 1000 gives 20 percent, mean 30000 gives 100, the boot window gives 5 |
| `Brightness.ZeroSum` | software/WordClock.py:334 | a window of zeros sums to 0 |
| `Wifi.SaveCredential` | software/WordClock.py:173-180 | the duplicate-guarded append; `SaveCredentialProperties` and `SaveCredentialIdempotent` state it |
| `Wifi.SaveCredentialProperties` | software/WordClock.py:173-180 | saving keeps ssids unique, keeps earlier entries in place, leaves the ssid stored, and grows the list only for a new ssid |
| `Wifi.SaveCredentialIdempotent` | software/WordClock.py:176-178 | saving the same ssid again, with any password, changes nothing |
| `Wifi.ConnectToWifi` | software/WordClock.py:182-203 | networks are tried in stored order; every attempt before the last failed; the result is true iff the last attempt succeeded, iff some stored network is accepted; on failure all were tried, and an empty list gives false |
| `Mdns.Candidate` | software/WordClock.py:156-168 | the base name for 0 and the base name followed by the number otherwise; `CandidateInjective` states it |
| `Mdns.DecimalString` | software/WordClock.py:168 | the suffix is a non-empty string of decimal digits |
| `Mdns.ParseDecimalString` | software/WordClock.py:168 | the decimal suffix reads back as its number |
| `Mdns.DecimalStringNoLeadingZero` | software/WordClock.py:168 | a positive suffix does not start with 0 |
| `Mdns.CandidateInjective` | software/WordClock.py:157-168 | distinct candidate numbers give distinct hostnames, and "wordclock0" is never a candidate |
| `Mdns.RegisterMdns` | software/WordClock.py:154-171 | the hostname returned is the first candidate whose advertisement succeeds, and every earlier candidate failed |
| `TimeSync.SyncDue` | software/WordClock.py:101 | the sync gate: connected, more than four hours since the last sync, no access point |
| `TimeSync.EffectiveOffset` | software/WordClock.py:281-284 | the configured zone, plus one hour under automatic DST in summer time; `OffsetByCalendar` states it |
| `TimeSync.SyncRun` | software/WordClock.py:286-303 | `adjust_time` on the synced flag and the last-sync time; `SyncFailureKeepsState`, `SyncFlag`, `WarmUpResync` and `LastSyncMovesOnlyOnResync` state it |
| `TimeSync.RequestedOffsets` | software/WordClock.py:281-289 | the offset handed to each time query made, one per query; `Clock.WordClock.AdjustTime` is proved to ask for exactly these |
| `TimeSync.SyncFailureKeepsState` | software/WordClock.py:298-303 | a failed query leaves `is_time_synced` and `last_time_sync` unchanged |
| `TimeSync.SyncFlag` | software/WordClock.py:291-296 | after a call the clock counts as synced iff it did before or the first query succeeded |
| `TimeSync.WarmUpResync` | software/WordClock.py:294-297 | the first success after boot repeats the query exactly once; `last_time_sync` is set only if that repeat succeeds |
| `TimeSync.LastSyncMovesOnlyOnResync` | software/WordClock.py:291-297 | `last_time_sync` changes only to the clock after a success made while already synced |
| `TimeSync.OffsetByCalendar` | software/WordClock.py:281-284 | the offset asked for is tz + 1 iff automatic DST is on and the local time is in the summer window, otherwise tz |
| `Scroll.Step` | software/WordClock.py:223-232 | one column left, the wrap and pass count, and the end after two passes outside access-point mode; `StepKeepsOffsetInWindow`, `ApScrollsForever` and `StepsFromBoot` state it |
| `Scroll.ScrollText` | software/WordClock.py:215-232 | a step only when more than 100 ms have passed; `ScrollNotDue` states the other case |
| `Scroll.ScrollNotDue` | software/WordClock.py:217 | if no more than 100 ms have passed since the last step, nothing changes |
| `Scroll.StepKeepsOffsetInWindow` | software/WordClock.py:223-226 | the offset stays between -(5·len + 11) and 11 |
| `Scroll.ApScrollsForever` | software/WordClock.py:231-232 | in access-point mode the scroll never stops |
| `Scroll.StepsFromBoot` | software/WordClock.py:215-232 | from boot, each pass is 5·len + 23 steps and ends with the pass count bumped; in station mode the scroll stops exactly at the end of the second pass |
| `Control.ParseAction` | software/WordClock.py:769-786 | the five action names are recognised and read back by name; any other string is an unknown action carrying that string |
| `Control.Apply` | software/WordClock.py:769-784 | each action's write to the light switch, the deferred flag or the time zone; `ApplyFrame`, `ApplyIdempotent`, `ApplyLastWins` and `ApplyCommutes` state it |
| `Control.EffectOf` | software/WordClock.py:769-784 | the follow-up of each action: redraw, blank, re-sync or none; `Clock.WordClock.HandleControl` is proved to carry it out |
| `Control.Reply` | software/WordClock.py:785-790 | the response text; `ReplyKnown` states it |
| `Control.ParseActionName` | software/WordClock.py:769-786 | each known action's name parses to that action |
| `Control.ApplyFrame` | software/WordClock.py:769-786 | light_on/light_off set the light switch, disable_wifi only sets the deferred flag, tz_summer/tz_winter set tz to 2/1, anything else changes nothing |
| `Control.ApplyIdempotent` | software/WordClock.py:769-786 | repeating an action has no further effect |
| `Control.ApplyLastWins` | software/WordClock.py:769-786 | of two light or two time-zone actions the later wins |
| `Control.ApplyCommutes` | software/WordClock.py:769-786 | actions on different fields commute |
| `Control.ReplyKnown` | software/WordClock.py:785-790 | the reply is exactly "Action (", the name, ") performed" for a known name and exactly "Unknown action (", the name, ")" otherwise |
| `Clock.Blanked` | software/WordClock.py:234-240 | the strip after `disable_light`: black except at ignored indices; `BlankedIsDark` states it with no ignored pixels |
| `Clock.Rendered` | software/WordClock.py:368-669 | the strip after `display_time`: blanked, then the lit set in the colour; `FaceShowsTime` states it |
| `Clock.NeedsRedraw` | software/WordClock.py:108-111 | the buffer comparison on (hour % 12, minute); `BootMidnightNotRedrawn` and `RedrawOncePerMinute` state it |
| `Clock.FaceShowsTime` | software/WordClock.py:368-669 | with no ignored pixels and a non-black colour, the pixels in that colour are exactly the lit set, and they read back as the time drawn |
| `Clock.BlankedIsDark` | software/WordClock.py:234-243 | with no ignored pixels a blanked strip shows nothing but black |
| `Clock.BootMidnightNotRedrawn` | software/WordClock.py:55-56 | the buffers start at (0, 0), so 0:00 and 12:00 right after boot do not pass the redraw gate |
| `Clock.RedrawOncePerMinute` | software/WordClock.py:111-114 | once the buffers hold a time, later passes in the same minute do not redraw |
| `Clock.WordClock.constructor` | software/WordClock.py:26-70 | a dark 117-pixel strip, the default configuration, light allowed, not synced, buffers (0, 0), a window of 50 zeros, and the scroll pending at offset 11 |
| `Clock.WordClock.SetPixelsIgnore` | software/WordClock.py:365-366 | replaces the list of ignored pixels |
| `Clock.WordClock.DisableLight` | software/WordClock.py:234-243 | every pixel becomes black except the ignored ones, which keep their colour |
| `Clock.WordClock.DisplayTime` | software/WordClock.py:368-669 | lit indices take the configured colour, ignored indices that are not lit keep theirs, the rest go black; all lit indices are on the strip |
| `Clock.WordClock.AdjustBrightness` | software/WordClock.py:326-353 | the window keeps 50 readings with the newest last and the oldest dropped, and the brightness is the ladder's level for their sum |
| `Clock.WordClock.AdjustTime` | software/WordClock.py:278-303 | the sync fields move as `TimeSync.SyncRun` says, and the offsets asked for are tz, or tz + 1 in summer time with automatic DST, one per query made |
| `Clock.WordClock.ScrollText` | software/WordClock.py:215-232 | the scroll fields take one step of `Scroll.ScrollText` |
| `Clock.WordClock.SaveCredentials` | software/WordClock.py:173-180 | the stored networks become `Wifi.SaveCredential` of the old ones; the rest of the configuration is kept |
| `Clock.WordClock.StartWifi` | software/WordClock.py:305-318 | the radio is on; if some stored network is accepted the station server runs, otherwise the access point and its server start; the mDNS name is the first free candidate |
| `Clock.WordClock.DisableWifi` | software/WordClock.py:320-324 | the deferred flag is cleared, the server stopped, the radio off |
| `Clock.WordClock.HandleControl` | software/WordClock.py:767-790 | the light switch, deferred flag and tz change as `Control.Apply` says; light_on redraws the buffered time, light_off blanks, the tz actions re-run the sync with the new zone (the offsets asked for are `RequestedOffsets` of the new tz), other actions ask for none; the reply is `Control.Reply` |
| `Clock.WordClock.Begin` | software/WordClock.py:73-90 | the stored configuration is loaded if present; the radio is on; over the loaded networks, the station server runs if one is accepted, otherwise the access point and its server start, the other server flag unchanged; the mDNS name is the first free candidate; the strip ends dark |
| `Clock.WordClock.Advanced` | software/WordClock.py:94-102 | the scroll and sync fields after the first half of a pass: one `Scroll.ScrollText` step while scrolling, `TimeSync.SyncRun` exactly when the gate is open |
| `Clock.WordClock.ClockShown` | software/WordClock.py:105-120 | the strip, buffers, light window and brightness after the clock part of a pass, given their values before it |
| `Clock.WordClock.ScrollAndSync` | software/WordClock.py:94-102 | while the address scrolls the brightness is set to full and the scroll takes a step of `Scroll.ScrollText`; the sync fields move as `TimeSync.SyncRun` says exactly when the gate (connected, four hours since the last sync, no access point) is open |
| `Clock.WordClock.ShowClock` | software/WordClock.py:105-120 | nothing changes while the address scrolls; otherwise, with light allowed, the time is drawn only when (hour % 12, minute) differs from the buffers, which then hold it, and the brightness follows the light when automatic; with light off the strip is blanked |
| `Clock.WordClock.Loop` | software/WordClock.py:92-124 | one pass: scroll while it runs (at full brightness), sync when due, show the clock read before the sync once the scroll has ended, and finally apply and clear a deferred Wi-Fi switch-off; with none pending the radio and server stay as they were |

## Left out

- Hardware is not modelled. This covers the NeoPixel driver (`show()`, the strip's own brightness scaling), the analog light sensor, and the framebuffer's text drawing. The pixels are an array of 117 colours. The sensor reading is an input. The text scroll changes only its fields, and the model leaves the pixels untouched while it runs.
- The radio, NTP, RTC, mDNS and clocks are inputs:
  - `wifi.radio.connect` is a verdict function on each network;
  - the mDNS advertisement failures are a finite set of candidate numbers;
  - the NTP query and RTC write are a scripted sequence of attempts;
  - `time.localtime`, `time.time` and `time.monotonic_ns` are fields of a tick.
- Calendar.GetLastSunday: requires that the month is not December of year 9999. There the source's `datetime(10000, 1, 1)` raises, and the model does not model that error. The summer-time check only asks for March and October, so the call never happens in the clock.
- `Calendar.DaylightSavingTime` reads the local time once. The source reads `time.localtime()` twice, once for the year and once for the comparison; the two readings can only differ across a New Year's midnight.
- `Clock.WordClock.StartWifi` does not model the access point's address, subnet and SSID, or the 5-second sleep. These are radio configuration without effect on the modelled state.
- The HTTP server is not modelled: its setup, request parsing, templates and responses, the home pages, and the `/connect` route (save then reset). `SaveCredentials` models the state part of `/connect`.
- The `controlColor`, `setTimeZone` and `setBrightness` routes are not modelled. They are request plumbing and float conversion around the configuration.
- Polling the server at the end of `loop` is not modelled. It is network I/O.
- Reading and writing `config.json` and the log file are not modelled. They are file I/O. `Begin` takes the stored configuration as an optional input.
- Brightness is modelled as whole percent instead of the floats 0.05 to 1.0. The mean is compared as `sum < cutoff * 50`, which decides the same tests.
- The commented-out word segments and the alternative carry at minute 25 in `display_time` are not modelled. They are dead code.
- The `wlan_off` and `is_client_connected` fields are not modelled. They are written but never read by the core.
- `software/code.py` (the crash-reset wrapper) and `software/www/public/main.js` (browser glue) are not part of this model.
