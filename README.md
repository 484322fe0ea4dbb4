# Boss respawn tracker — a Dafny model

This project models the logic of the boss tracker page of a game helper
(`src/boss-tracker/boss-tracker.tsx`). The page keeps a fixed list of bosses.
Each boss has a name, a respawn period in hours, a location, an optional
last-kill time and a volatile countdown `remaining` in seconds. The model
covers these parts:

- **Timer recomputation.** A fast tick sets each boss's countdown to its
  period minus the seconds since the last kill. The countdown then wraps
  forward by whole periods while it is more than 300 s overdue.
- **Alarm with cooldown.** A slow tick plays the alarm when some boss has a
  defined countdown below 120 s. A single `playingSound` flag suppresses
  further plays until the 60 s timeout clears it.
- **Recording a kill.** One boss's last kill is set, to "now" when no time is
  given. The whole list is persisted with every countdown removed.
- **Countdown text.** `toHHMMSS` prints `HH:MM:SS`, or `MM:SS` when the hours
  are zero.
- **Card display.** A colour band and status lines are derived from the
  countdown.

Times are whole seconds. The clock reading `now`, the presence of an audio
element (`hasAudio`) and the kill time parsed from the input box are
parameters. The periodic timers are methods the environment calls:
`FastTick`, `AlarmTick` and `Timeout`. The number of alarm plays is a ghost
counter (`plays`), kept only for the proofs.

Modules: `BossModel` (boss.dfy) holds the record, the seed list, the storage
fallback, the strip step and the alarm predicate. `Timer` (timer.dfy) holds
the wrap loop and its specification. `Alarm` (alarm.dfy) is the two-state
cooldown machine. `Duration` (duration.dfy) holds the countdown text and a
decoder for it. `Display` (display.dfy) holds the card classification.
`Tracker` (tracker.dfy) holds the `BossTracker` class, whose methods update
the list and the flag in place.

Two consequences of the code are worth stating outright:
- The wrap loop's guard is `remaining < -300`. A countdown of exactly -300,
  or of -240 (an 8-hour boss killed 8 h 4 min ago), is therefore kept as it
  is. The countdown ends at -300 or above, not strictly above -300, and -240
  is not wrapped to 28560 (`Timer.GraceWindowKeepsOverdue`).
- A malformed kill time is not rejected. The date library returns an
  invalid date instead of throwing, so the `catch` branch is not reached.
  Only the empty-input rejection is modelled (`Tracker.BossTracker.UpdateBossTime`).

## Model

| member | source | states |
|---|---|---|
| `BossModel.SeedBosses` | src/boss-tracker/boss-tracker.tsx:221-322 | the seed list has 20 bosses with pairwise distinct names, each with a positive period, no kill and no countdown |
| `BossModel.Load` | src/boss-tracker/boss-tracker.tsx:21-25 | storage without a list falls back to the seed list; a stored list (even an empty one) is used as it is; positive periods are kept |
| `BossModel.Strip` | src/boss-tracker/boss-tracker.tsx:53-54 | the persisted copy has the same length, no entry carries a countdown, and every durable field equals the in-memory entry |
| `BossModel.StripIdempotent` | src/boss-tracker/boss-tracker.tsx:53-54 | stripping a stripped list changes nothing |
| `BossModel.StripDurableOnly` | src/boss-tracker/boss-tracker.tsx:53-55 | lists that agree on the durable fields persist identically, whatever their countdowns |
| `BossModel.Spawning` | src/boss-tracker/boss-tracker.tsx:34 | a boss whose countdown is undefined never qualifies for the alarm (`undefined < 120` is false) |
| `BossModel.FindSpawning` | src/boss-tracker/boss-tracker.tsx:34 | the search finds the first boss with a defined countdown below 120 s, and finds nothing iff no boss qualifies; an undefined countdown never qualifies |
| `Timer.Wrap` | src/boss-tracker/boss-tracker.tsx:42-45 | the wrapped countdown is at least -300 and never below the unwrapped value; a start value of at least -300 is kept; if it moved, it is below -300 plus one period |
| `Timer.WrapAddsWholePeriods` | src/boss-tracker/boss-tracker.tsx:43-45 | the wrapped countdown is the start plus a whole number of periods, so it is congruent to the start modulo the period |
| `Timer.WrapUnique` | src/boss-tracker/boss-tracker.tsx:42-45 | the bound, the congruence and the first-period limit together determine the loop's result uniquely |
| `Timer.ComputeRemaining` | src/boss-tracker/boss-tracker.tsx:41-45 | with a positive period the while loop terminates, and its result is the wrap of `respawn*3600 - diff` |
| `Timer.Recompute` | src/boss-tracker/boss-tracker.tsx:38-46 | a boss with no kill is unchanged; otherwise only the countdown changes, and it becomes the wrap of `respawn*3600 - elapsed`: at least -300 and not below the unwrapped value |
| `Timer.RecomputeIdempotent` | src/boss-tracker/boss-tracker.tsx:38-46 | recomputing twice at the same time gives the same boss as once |
| `Timer.GraceWindowKeepsOverdue` | src/boss-tracker/boss-tracker.tsx:43 | an 8-hour boss killed 8 h 4 min ago keeps the countdown -240 |
| `Timer.TwoMissedPeriodsWrap` | src/boss-tracker/boss-tracker.tsx:43-44 | an 8-hour boss killed 16 h 10 min ago wraps twice, to 28200 |
| `Alarm.PlayStep` | src/boss-tracker/boss-tracker.tsx:58-68 | while the flag is set nothing changes; without audio nothing changes; otherwise the flag is set and exactly one play happens |
| `Alarm.ScanStep` | src/boss-tracker/boss-tracker.tsx:33-36 | a scan leaves the alarm alone when no boss qualifies, and requests a play when some boss does |
| `Alarm.TimeoutStep` | src/boss-tracker/boss-tracker.tsx:64-66 | the timeout clears the flag and plays nothing |
| `Alarm.AtMostOnePlayPerCooldown` | src/boss-tracker/boss-tracker.tsx:58-67 | any run of scans between two timeouts plays at most once; a busy alarm is unchanged; an idle one plays iff some scan finds a qualifying boss with audio present, and then ends busy |
| `Alarm.TwoScansPlayOnce` | src/boss-tracker/boss-tracker.tsx:33-36 | with countdowns of 50 s and 5000 s, the first scan plays once and a second scan before the timeout adds nothing |
| `Duration.Components` | src/boss-tracker/boss-tracker.tsx:210-213 | hours*3600 + minutes*60 + seconds equals the input, with minutes and seconds below 60 |
| `Duration.ToHHMMSS` | src/boss-tracker/boss-tracker.tsx:209-219 | the text is the padded hours, minutes and seconds joined with ':', with the hours part left out exactly when the hours are zero (it then reads "00"): its ':'-separated fields are exactly those padded parts |
| `Duration.PadShape` | src/boss-tracker/boss-tracker.tsx:216 | a padded component has at least two digits, denotes the component, and reads "00" exactly when it is zero |
| `Duration.CountdownFields` | src/boss-tracker/boss-tracker.tsx:209-219 | the text has two fields when the hours are zero and three otherwise; every field has at least two digits and denotes its component |
| `Duration.CountdownRoundTrip` | src/boss-tracker/boss-tracker.tsx:209-219 | decoding the countdown text gives the number of seconds back |
| `Duration.CountdownExamples` | src/boss-tracker/boss-tracker.tsx:209-219 | 3725 s prints as "01:02:05" and 125 s as "02:05" |
| `Display.ColourBand` | src/boss-tracker/boss-tracker.tsx:161 | green iff the countdown is defined and below 120; orange iff it is defined and in [120, 3600) |
| `Display.GreenIffSpawning` | src/boss-tracker/boss-tracker.tsx:161 | a card is green exactly for the bosses that make the alarm scan fire |
| `Display.StatusLines` | src/boss-tracker/boss-tracker.tsx:162-172 | "No recent kills" iff there is no kill; "Might be online" iff the countdown is negative; "Respawns in" iff it is positive; a zero countdown shows neither |
| `Display.ZeroCountdownShowsNothing` | src/boss-tracker/boss-tracker.tsx:165-172 | a killed boss with a countdown of exactly zero shows no status line |
| `Display.RespawnsInShowsCountdown` | src/boss-tracker/boss-tracker.tsx:170-171 | a positive countdown is shown as one line whose text decodes to the countdown |
| `Tracker.StripCopy` | src/boss-tracker/boss-tracker.tsx:53-54 | the loop that deletes each entry's countdown yields exactly the stripped list |
| `Tracker.BossTracker.constructor` | src/boss-tracker/boss-tracker.tsx:19-27 | the list is the stored one or the seed list; the alarm starts idle |
| `Tracker.BossTracker.UpdateBossTimer` | src/boss-tracker/boss-tracker.tsx:38-47 | only entry `index` changes, to its recomputed form; a boss with no kill leaves the whole list unchanged; the length is kept |
| `Tracker.BossTracker.FastTick` | src/boss-tracker/boss-tracker.tsx:29-31 | every boss is recomputed at `now`; the length is kept |
| `Tracker.BossTracker.PlayAlarm` | src/boss-tracker/boss-tracker.tsx:58-68 | the flag and the play count move as the alarm machine's play step says |
| `Tracker.BossTracker.AlarmTick` | src/boss-tracker/boss-tracker.tsx:33-36 | the flag and the play count move as one scan of the current list says |
| `Tracker.BossTracker.Timeout` | src/boss-tracker/boss-tracker.tsx:64-66 | the flag is cleared and the play count kept |
| `Tracker.BossTracker.MarkBossSlain` | src/boss-tracker/boss-tracker.tsx:49-56 | only entry `index` changes, and only its last kill, which becomes the given time or `now` when none is given; the returned copy is the stripped new list |
| `Tracker.BossTracker.UpdateBossTime` | src/boss-tracker/boss-tracker.tsx:115-127 | an empty input is rejected with the message and changes nothing; otherwise the kill is recorded at the parsed time and the stripped list is saved |
| `Tracker.TickKeepsPersisted` | src/boss-tracker/boss-tracker.tsx:29-54 | a fast tick never changes what would be persisted |

## Left out

- Rendering, JSX markup, reactivity (`createStore`, `createSignal`) and the `Clock` component are presentation only.
- `setInterval`, `setTimeout` and `onCleanup` are not modelled as timers. The ticks and the cooldown expiry are method calls. The 60 s cooldown length and the tick intervals are therefore not part of the model. Teardown of the timers is left out as well.
- `localStorage` and `JSON.parse`/`JSON.stringify` are I/O and a foreign serialiser. Only the fallback to the seed list and the strip step are modelled. A malformed stored snapshot makes `JSON.parse` throw, and that path is left out.
- The code persists the whole state object, which keeps any other keys a stored snapshot had. The model persists only the boss list.
- Tracker.BossTracker.constructor: requires the stored list to have positive periods. The code accepts any stored list, but the wrap loop would not terminate for a period of zero or less.
- Date parsing, formatting and time zones come from a foreign library. Times are whole seconds, and `now` and the parsed kill time are parameters. An unparseable input yields an invalid date in the code (countdown NaN); that path is not modelled.
- Tracker.BossTracker.FastTick: one clock reading serves the whole tick. The code reads the clock once per boss, so successive bosses may see times a few milliseconds apart.
- The `calculatedKill` field of the record is declared but never used, so it is left out.
- The input mask, DOM lookups, focus handling and the picker's open/closed state are browser behaviour. The audio element is the boolean `hasAudio`, and `play()` is counted in the ghost `plays`.
- Duration.ToHHMMSS: only non-negative durations. The page calls it only for positive countdowns; JavaScript's truncating `%` on negative values is not modelled.
