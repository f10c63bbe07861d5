# Timer lifecycle model

A Dafny model of the timer logic of a small React Native countdown-timer
app. Users create named, categorised timers; the home screen lists them in
one section per category, shows each timer's remaining time and status,
lets the user play/pause or reset one timer or run/pause/reset all of them,
and appends a timer to a history list when its countdown completes. All
state lives in the device's key-value store under two keys, `timers` and
`history`.

The model follows the code as written. Time is an `int` of milliseconds and
the clock is a parameter (`now`, `clock`). The store is a class with two
sequence fields. Each React component's state is a class whose methods are
the component's callbacks.

| module | file | models |
|---|---|---|
| `Timers` | `timer.dfy` | the timer record (`src/models/timer.ts`) and the six category keys (`src/constants/constants.ts`) |
| `Decimal` | `decimal.dfy` | `Number(text)` on digit strings and the printing of the clock value as a timer id |
| `Storage` | `storage.dfy` | the store and `updateHistory` |
| `Lifecycle` | `lifecycle.dfy` | the pure parts of `src/screens/home.tsx`: remaining time, status, the tick, the play/pause and reset records, the `updateAll` map, `findIndex` and one-entry replacement |
| `Grouping` | `grouping.dfy` | `groupedTimers` and `hideSection` |
| `Home` | `home.dfy` | the home screen and timer card state (`HomeScreen`, `TimerCard`) |
| `AddTimer` | `add_timer.dfy` | the create-timer form and `saveTimer` (`src/screens/addTimer.tsx`) |

Behaviour the model keeps as the code has it:

- A timer's `paused` field is absent when it is created, and an absent field
  reads as false (`IsPaused`). A null `startTime` reads as the epoch (`StartMs`).
  A freshly created timer therefore counts as running since 1970. It shows
  0 ms and "Completed", "Run All" skips it, and "Pause All" freezes it at 0
  (`AddTimer.FreshTimerAsWritten`).
- Reset sets `startTime` to now rather than clearing it. "Pause All" leaves
  `startTime` as it was.
- Completion appends the card's record to history and leaves the active
  list unchanged (`Home.TimerCard.Tick`). Completion is detected on the tick
  after the shown time first reaches zero or below
  (`Lifecycle.TicksToComplete`).
- The duration field is labelled in seconds. Its number is stored as it is
  and counted down as milliseconds (`AddTimer.DurationFieldReadAsMilliseconds`).
- The play/pause control stores the card's tick-counted `time`. "Pause All"
  recomputes the remaining time from the clock.

Further facts about the code that the model keeps:

- The code sets `startTime` to now on pause and on reset; it never clears it.
- The derived remaining time is clamped at 0 only when a card mounts and in
  "Pause All"; a stored `remainingDuration` is otherwise taken as it is.
- A completed timer is not removed from the active list.
- "Run All" restarts every paused timer, whatever time it has left, so a
  completed timer that was paused becomes running again.

## Model

| member | source | states |
|---|---|---|
| `Timers.IsPaused` | src/screens/home.tsx:33 | the truthiness of `paused`: an absent field reads as not paused, a present one as its value |
| `Timers.StartMs` | src/screens/home.tsx:35 | `new Date(startTime).getTime()`: a null start time is 0, otherwise the stored instant |
| `Timers.CategoryOfKey` | src/constants/constants.ts:8-15 | a key maps to a category exactly when that category has that key; any other string maps to none |
| `Timers.KeyRoundTrip` | src/constants/constants.ts:8-15 | each category is found again from its key |
| `Decimal.DecimalValue` | src/screens/addTimer.tsx:31-33 | `Number` of an n-digit string is a natural number below 10^n |
| `Decimal.DecimalString` | src/screens/addTimer.tsx:29 | the printed clock value is a non-empty digit string with no leading zero |
| `Decimal.DecimalRoundTrip` | src/screens/addTimer.tsx:29-31 | `Number` of the printed value gives the value back |
| `Decimal.DecimalStringInjective` | src/screens/addTimer.tsx:29 | different clock values print as different ids |
| `Lifecycle.ActualRemaining` | src/screens/home.tsx:33-37 | a paused timer's stored remaining time; a running timer's stored remaining time minus the time elapsed since `startTime` |
| `Lifecycle.ShownTime` | src/screens/home.tsx:39-41 | the time shown at mount is the derived time clamped below at 0, never negative |
| `Lifecycle.StatusOf` | src/screens/home.tsx:61-66 | exactly one status holds: Completed iff time <= 0, Paused iff paused and time > 0, Running iff not paused and time > 0 |
| `Lifecycle.DisplaySeconds` | src/screens/home.tsx:127 | the printed seconds are the ceiling of time / 1000 |
| `Lifecycle.DisplayNeverNegative` | src/screens/home.tsx:127 | a time above -1000 never prints as negative seconds |
| `Lifecycle.TickStep` | src/screens/home.tsx:47-55 | a tick with time > 0 subtracts 1000; a tick with time <= 0 completes and sets time to 0; time stays above -1000 |
| `Lifecycle.TicksToComplete` | src/screens/home.tsx:45-55 | from shown time t, completion is detected on tick ceil(t / 1000) + 1 (tick 1 when t <= 0) |
| `Lifecycle.Resumed` | src/screens/home.tsx:75-80 | play/pause keeps id, name, category and duration, flips paused, sets `startTime` to now and stores the shown time, so the record derives exactly that time at now |
| `Lifecycle.Reset` | src/screens/home.tsx:97-102 | reset keeps the identity fields and gives a paused record holding the full duration, with `startTime` set to now; it derives the full duration at every instant |
| `Lifecycle.ResetIdempotent` | src/screens/home.tsx:97-102 | resetting a reset record at the same instant changes nothing |
| `Lifecycle.BulkUpdated` | src/screens/home.tsx:187-214 | run: running timers unchanged, paused ones run from now with their stored time; pause: paused unchanged, running ones paused at the clamped time shown at now, `startTime` kept; reset: the reset record; identity fields always kept |
| `Lifecycle.UpdateAllList` | src/screens/home.tsx:187-214 | the bulk operation is a map: same length, entry i is entry i updated |
| `Lifecycle.UpdateAllKeepsIdentity` | src/screens/home.tsx:187-214 | every bulk operation keeps length, order and each position's id, name, category and duration |
| `Lifecycle.BulkKeepsShownTime` | src/screens/home.tsx:188-206 | running or pausing all does not change the time any card would show at that instant; resetting derives the full duration |
| `Lifecycle.UpdateAllIdempotent` | src/screens/home.tsx:187-214 | applying one bulk operation twice at one instant equals applying it once |
| `Lifecycle.PauseResumeAdditive` | src/screens/home.tsx:188-206 | run, pause, run, pause leaves the clamped result of one pause over both running stretches |
| `Lifecycle.TeaScenario` | src/screens/home.tsx:33-37 | worked example: 300000 ms started at 0 has 180000 ms left at 120000; paused at 50000 keeps 250000; rerun at 80000 has 230000 left at 100000; a 1000 ms timer is Completed from 1000 on |
| `Lifecycle.IndexOf` | src/screens/home.tsx:73 | `findIndex`: the first position holding the id, or -1 exactly when no entry has it |
| `Lifecycle.ReplaceById` | src/screens/home.tsx:75 | only the entry at the id's first position changes; length and all other entries are kept |
| `Lifecycle.IndexOfAfterReplace` | src/screens/home.tsx:95-97 | after the replacement the id is still present, at the same position |
| `Lifecycle.ResetTwice` | src/screens/home.tsx:95-102 | pressing reset twice at one instant gives the list one press gives, with either the old or the reset record as the card's item |
| `Grouping.Categories` | src/screens/home.tsx:166-173 | the categories of the list, each exactly once, and no others |
| `Grouping.Members` | src/screens/home.tsx:171 | a section's records all have its category; the section is empty exactly when the category does not occur |
| `Grouping.MembersComplete` | src/screens/home.tsx:171 | every record of the category is pushed onto its section |
| `Grouping.FirstPos` | src/screens/home.tsx:167-169 | the first position of a category, or -1 exactly when it does not occur |
| `Grouping.MembersFromList` | src/screens/home.tsx:171 | every record of a section comes from the list |
| `Grouping.MembersAppend` | src/screens/home.tsx:166-172 | within a section, records of an earlier part of the list come before records of a later part |
| `Grouping.CategoriesFirstSeenOrder` | src/screens/home.tsx:167-169 | of any two sections, the earlier one's category first occurs earlier in the list |
| `Grouping.GroupedIsPartition` | src/screens/home.tsx:165-179 | no section is empty, titles are distinct, members carry their section's title, and each timer lies in the one section titled with its category |
| `Grouping.GroupedIsPermutation` | src/screens/home.tsx:165-179 | concatenating the sections gives a permutation of the list |
| `Grouping.ReduceByCategory` | src/screens/home.tsx:166-173 | for timers of the six categories, the reduce leaves one array per category, holding that category's records in input order, with keys in first-seen order |
| `Grouping.GroupTimers` | src/screens/home.tsx:165-179 | for timers of the six categories, the sections listed from the accumulator in key order are the grouped sections |
| `Grouping.CategoryKeysAreNotIntegerKeys` | src/constants/constants.ts:8-15 | none of the six keys is an array-index key |
| `Grouping.KnownCategoriesHaveNoIntegerKeys` | src/screens/home.tsx:175 | timers of the six categories have no array-index key, so `Object.entries` lists their sections in insertion order |
| `Grouping.ToggleHidden` | src/screens/home.tsx:181-183 | the toggled section's hidden flag flips (absent counts as shown) and every other section's flag is kept |
| `Grouping.ToggleTwice` | src/screens/home.tsx:181-183 | toggling a section twice restores what is hidden |
| `Storage.Store.constructor` | src/screens/home.tsx:157-158 | the store holds the two given lists (an absent key is passed as the empty list) |
| `Storage.Store.SetTimers` | src/screens/home.tsx:84 | writing the list replaces the stored active list and keeps the history |
| `Storage.Store.UpdateHistory` | src/screens/home.tsx:19-23 | the item is appended at the end of history, earlier entries kept, active list untouched |
| `Home.FindIndex` | src/screens/home.tsx:73 | the loop returns the first position with the id, or -1 |
| `Home.HomeScreen.constructor` | src/screens/home.tsx:148-163 | the screen starts with the loaded list, list key 0 and no hidden sections |
| `Home.HomeScreen.SetTimers` | src/screens/home.tsx:82 | `setTimers` replaces the screen's list and keeps its list key and hidden flags |
| `Home.HomeScreen.UpdateAll` | src/screens/home.tsx:185-221 | the screen's list becomes the mapped list, the list key is bumped, and the store receives the same list |
| `Home.HomeScreen.HideSection` | src/screens/home.tsx:181-183 | only the hidden flags change |
| `Home.TimerCard.Mount` | src/screens/home.tsx:33-45 | the card starts at the shown time with the record's paused flag, and schedules its interval only when running with time left |
| `Home.TimerCard.CurrentStatus` | src/screens/home.tsx:61-66 | the card's label: Completed iff time <= 0, Paused iff paused with time left, Running iff not paused with time left; a card whose interval runs is never Paused |
| `Home.TimerCard.Tick` | src/screens/home.tsx:46-55 | one tick follows `TickStep`; the completing tick stops the interval and appends the record to history, once; the active list is unchanged |
| `Home.TimerCard.Resume` | src/screens/home.tsx:68-88 | only the matching entry of the stored list is replaced, by the toggled record; the screen and store get the same list; the interval runs iff now running with time left |
| `Home.TimerCard.ResetTimer` | src/screens/home.tsx:90-111 | only the matching entry becomes the reset record; the card shows the full duration, paused, with no interval |
| `AddTimer.BuildTimer` | src/screens/addTimer.tsx:23-35 | no record when any field is empty; otherwise name and category verbatim, duration and remaining duration both the typed number, no start time, no paused flag, id printed from the clock |
| `AddTimer.NewTimerIdRecoversClock` | src/screens/addTimer.tsx:29 | the new id reads back as the clock value it was made from |
| `AddTimer.FreshTimerAsWritten` | src/screens/addTimer.tsx:28-35 | a new timer, once the clock is past its duration, shows 0 and Completed, schedules no interval, is skipped by run-all and frozen at 0 by pause-all |
| `AddTimer.DurationFieldReadAsMilliseconds` | src/screens/addTimer.tsx:61-62 | a timer entered as "300" seconds lasts 300 ms: it shows "1s" after reset and completes on the second tick |
| `AddTimer.TimerForm.constructor` | src/screens/addTimer.tsx:10-14 | the form starts with three empty fields |
| `AddTimer.TimerForm.HandleChange` | src/screens/addTimer.tsx:16-18 | only the named field is set; the other two are kept |
| `AddTimer.TimerForm.SaveTimer` | src/screens/addTimer.tsx:20-50 | with an empty field nothing changes; otherwise the new record is appended after the stored timers and the form is cleared to three empty strings |

## Left out

- The store's asynchronous API, JSON encoding of the lists and of `Date` values, and failing reads or writes (the `try`/`catch` blocks): the store is two sequences that are read and written whole.
- React plumbing: `useState`, `useEffect` and `useMemo` become fields and methods, and a bulk operation's remount of every card (the list key `action`) is left to the caller, who builds new `TimerCard`s with `Mount`. Likewise a hidden section renders `null` in place of its cards (src/screens/home.tsx:253), which unmounts them and clears their intervals: a timer that runs out while its section is hidden is never appended to history. The model has no card lifetime tied to `hidden`, so it does not capture this. A card's `item` follows its record after its own play/pause or reset, as the screen's re-render gives it.
- `setInterval` scheduling and real time: one call of `Tick` is one firing, and `now` is a parameter. A card therefore reads the same `now` in the callback and in the re-render after it.
- Races between concurrent read-modify-write sequences on the store: the model is sequential.
- Alerts, console output, navigation, the progress bar width and all presentational code.
- `Number` on text that is not all digits (`NaN`, fractions, exponents, signs, hexadecimal) and its whitespace trimming.
- `AddTimer.BuildTimer`, `AddTimer.TimerForm.SaveTimer`: require the duration text to be digits only, as the number-pad keyboard enters it.
- `Grouping.GroupTimers`, `Grouping.ReduceByCategory`: require every category to be one of the six keys, the only values the form's chip group offers. Other strings are not modelled. A name inherited from `Object.prototype` ("toString", "constructor", "__proto__", ...) reads as an existing entry in the reduce, so the push throws. An array-index string such as "7" would be listed first by `Object.entries`, in numeric order. None of the six keys is an array-index string (`Grouping.KnownCategoriesHaveNoIntegerKeys`), so the sections come in insertion order.
- `Home.TimerCard.Resume`, `Home.TimerCard.ResetTimer`: require the card's id to be in the stored list, because `findIndex` returning -1 would write a non-index property of the array.
- `Decimal.DecimalString`: prints every natural number in full, while JavaScript switches to exponent notation from 10^21. Clock values are far below that.
- Timer ids are not shown to be unique across the list; they are distinct only when timers are saved at distinct milliseconds (`Decimal.DecimalStringInjective`).
