# Study timer: a verified model of the session store and its screens

This project models a study timer for React Native in Dafny. The app has three parts:

- a timer that runs for a preset length;
- a log of finished and stopped sessions, each tagged with a subject;
- a daily target of 4 to 9 hours, with today's progress against it.

At its heart is the session store. It is one state object with these fields:

- `duration` and `timeRemaining`;
- the `isRunning` and `isPaused` flags;
- the `sessions` log and the `dailyProgress` per date;
- `dailyTarget`;
- `currentTag` and the list of `recentTags`.

Each of its actions overwrites a few of these fields. Around the store sit small components that validate what goes in and format what comes out:

- the daily-target stepper;
- the tag picker;
- the control buttons;
- the duration presets;
- five formatters that turn seconds into text.

How the model is laid out:

- **Store.** `TimerStore.Store` is a class with the store's fields. `State()` reads them into a `TimerState` value. Each action's `ensures` gives the whole new state as `old(State())` with the changed fields replaced, so "nothing else changes" is part of every contract.
- **Invariant.** Every action preserves `Consistent`:
  - `timeRemaining <= duration <= 7200`;
  - the two flags are never both set;
  - the target stays in [14400, 32400];
  - the dates in `dailyProgress` are distinct;
  - the per-date progress adds up to the log;
  - there are at most 5 recent tags, with no duplicates and none empty;
  - no logged tag is empty.
- **`completeSession`.** Its new state is the function `AfterCompletion`, and lemmas describe that function.
- **`getTagStats`.** It is a loop over the log that fills an insertion-ordered map. It is proved equal to `TagStatsOf`, a grouping pass followed by a stable insertion sort. A separate lemma proves what the app promises about the result.
- **Components.** Components with local state (the hours field, the new-tag field) are classes whose methods call the store. The formatters are functions. Each formatter is paired with a lemma saying what its text shows: a round trip for the `MM:SS` clock, and for the others, that two inputs give the same text exactly when they have the same whole minutes.
- **Shared text handling.** Decimal text is shared in module `Text`. It covers `toString` of a natural number, `padStart(2, '0')`, and `parseInt` restricted to digit text, with the round trip `parseInt(n.toString()) == n`.

Some behaviours of the code are easy to misread; the model keeps them as written:

- **Tag-statistics ties.** Ties between equal totals keep the order in which each tag first appears in the log. The grouping `Map` keeps insertion order, and `Array.prototype.sort` is stable (section 22.1.3.27 of ECMA-262, 10th edition). So Math 600 s, Math 300 s, Physics 900 s gives Math before Physics (`TagStatistics.TieKeepsFirstSeenOrder`).
- **Today's date.** "Today" is the UTC date, `toISOString().split('T')[0]`, not the local date.
- **`setDuration`.** It caps at 7200 seconds but has no lower bound. The store does not restrict it to the idle state; only the timer screen does.
- **`setDailyTarget`.** It does not treat a non-number as 4 hours; only the target editor does, before calling it.
- **Reset.** Reset and the flag actions write only the fields named in the code. `currentTag` in particular survives a reset.

Clock readings are parameters: the id, the session timestamp and the ISO timestamp `nowIso` that today's date is taken from.

## Model

| member | source | states |
|---|---|---|
| TimerTypes.TagLabel | store/timerStore.ts:69 | the label is never empty; it is the tag itself when that is non-empty and "Untagged" otherwise |
| TimerStore.InitialStateConsistent | store/timerStore.ts:20-28 | the initial state (25 minutes, 4 hours target, empty log) satisfies the store invariant |
| TimerStore.ClampDuration | store/timerStore.ts:31 | the stored value is at most 7200, equals the request exactly when the request is at most 7200, and otherwise is 7200 (no lower clamp) |
| TimerStore.ClampDailyTarget | store/timerStore.ts:119-122 | the stored target is always in [14400, 32400]; it equals hours*3600 exactly when 4 <= hours <= 9, and is the nearer bound otherwise |
| TimerStore.FirstDateIndex | store/timerStore.ts:82 | `findIndex`: -1 or an index whose date matches, with no match before it (none at all for -1) |
| TimerStore.Without | store/timerStore.ts:102 | the filtered list contains exactly the tags other than the removed one and is no longer than the input |
| TimerStore.RecentTagsAfter | store/timerStore.ts:101-104 | the list starts with the recorded tag, holds 1 to 5 tags, is as long as the filtered old list plus one (capped at 5), and holds nothing but the recorded tag and old tags |
| TimerStore.AfterCompletion | store/timerStore.ts:67-115 | duration and target unchanged; the timer idle with timeRemaining = duration; the current tag cleared |
| TimerStore.Store.constructor | store/timerStore.ts:20-28 | a new store is consistent and holds the initial state |
| TimerStore.Store.SetDuration | store/timerStore.ts:30-36 | duration and timeRemaining both become min(d, 7200); every other field is unchanged; the invariant is kept |
| TimerStore.Store.StartTimer | store/timerStore.ts:38-43 | running and not paused; every other field unchanged |
| TimerStore.Store.PauseTimer | store/timerStore.ts:45-50 | paused and not running; every other field unchanged |
| TimerStore.Store.ResumeTimer | store/timerStore.ts:52-57 | running and not paused; every other field unchanged |
| TimerStore.Store.ResetTimer | store/timerStore.ts:59-65 | timeRemaining := duration and both flags cleared; nothing else changes (the current tag survives) |
| TimerStore.Store.SetCurrentTag | store/timerStore.ts:127-129 | only currentTag changes, to exactly the given text |
| TimerStore.Store.SetDailyTarget | store/timerStore.ts:117-125 | only dailyTarget changes, to the clamped number of seconds |
| TimerStore.Store.FindDateIndex | store/timerStore.ts:82 | the index the scanning loop returns is the first entry for the date, or -1 when there is none |
| TimerStore.Store.UpdatedProgress | store/timerStore.ts:80-98 | the copied and updated progress list is exactly `AddProgress` of the current one |
| TimerStore.Store.CompleteSession | store/timerStore.ts:67-115 | the new state is `AfterCompletion` of the old one and the invariant is kept |
| TimerStore.Store.GetTagStats | store/timerStore.ts:131-153 | the loop over the log and the sort return exactly `TagStatsOf(sessions)`; the store is not modified |
| TimerStore.AddProgress | store/timerStore.ts:80-98 | with an entry for today, only the first such entry grows by the session's seconds and the length is unchanged; without one, exactly `{today, seconds}` is appended |
| TimerStore.AddProgressConsistent | store/timerStore.ts:80-98 | distinct dates stay distinct, and the total over all dates grows by exactly the session's seconds |
| TimerStore.AddProgressSecondsOn | store/timerStore.ts:80-98 | what a screen reads for today grows by the session's seconds, and every other date reads as before |
| TimerStore.WithoutSubsequence | store/timerStore.ts:102 | filtering keeps the remaining tags in their relative order |
| TimerStore.WithoutNoDuplicates | store/timerStore.ts:102 | filtering a duplicate-free list keeps it duplicate-free, removes one element if the tag was present, and changes nothing otherwise |
| TimerStore.RecentTagsAfterConsistent | store/timerStore.ts:101-104 | move-to-front: the head is the recorded tag and the rest is exactly the filtered old list cut to fit 5; so a new tag on a full list evicts the oldest, giving `[tag] + tags[..4]`; the others keep their relative order; no duplicates if there were none; the length does not change on reselecting a recent tag and grows by one (up to 5) for a new tag; no empty tag gets in |
| TimerStore.ReselectTagDoesNotGrow | store/timerStore.ts:101-104 | reselecting "Physics" in [Math, Physics, Art] gives [Physics, Math, Art] |
| TimerStore.CompletionConsistent | store/timerStore.ts:67-115 | completing a session keeps the whole store invariant (progress total equals the log total, dates distinct, recent tags bounded and distinct, no empty tags) |
| TimerStore.CompletionEffects | store/timerStore.ts:67-115 | exactly one session is appended at the end and the earlier log is unchanged; it records duration - timeRemaining, the completed flag and the tag or "Untagged"; duration and target are unchanged; the timer is idle with timeRemaining = duration and the tag cleared; today's seconds grow by the session; the recorded tag heads the recent tags |
| TagStatistics.FirstSeen | store/timerStore.ts:135-143 | the position of the first session logged under a tag, or the log length when there is none |
| TagStatistics.IndexOfTag | store/timerStore.ts:137 | the map lookup finds the entry with that tag, or reports that no entry has it |
| TagStatistics.AddSession | store/timerStore.ts:135-143 | one `forEach` step: the entry of the session's label gains its seconds and one session, every other entry is unchanged; a new label gets `{label, seconds, 1}` at the end |
| TagStatistics.GroupByTag | store/timerStore.ts:133-149 | at most one entry per session, and no entries exactly when the log is empty |
| TagStatistics.AddSessionCorrect | store/timerStore.ts:135-143 | one `forEach` step keeps every entry equal to its label's seconds and count, in first-seen order, covering every label |
| TagStatistics.GroupByTagCorrect | store/timerStore.ts:133-149 | after the whole log: one correct entry per label, in first-seen order; totals sum to the log's seconds and counts to its length |
| TagStatistics.InsertDescending | store/timerStore.ts:152 | inserting keeps the same multiset of entries |
| TagStatistics.SortByTotalDesc | store/timerStore.ts:152 | the sort is a permutation of its input |
| TagStatistics.InsertRanked | store/timerStore.ts:152 | inserting into a ranked list (more seconds first, ties by first appearance) keeps it ranked |
| TagStatistics.SortRanked | store/timerStore.ts:152 | sorting entries in first-seen order yields non-increasing totals with ties in first-seen order (stability) |
| TagStatistics.TagStatsOf | store/timerStore.ts:131-152 | the result is a permutation of the grouped entries, at most one per session, empty exactly when the log is |
| TagStatistics.TagStatsCorrect | store/timerStore.ts:131-152 | `getTagStats`: each entry holds its label's seconds and count; every label has one entry and no label two; the order is non-increasing in seconds with ties in first-appearance order; totals sum to the log's seconds and counts to the number of sessions |
| TagStatistics.TieKeepsFirstSeenOrder | store/timerStore.ts:135-152 | Math 600, Math 300, Physics 900 give [Math 900 s / 2, Physics 900 s / 1] |
| DateUtils.DatePart | utils/dateUtils.ts:2-5 | `split('T')[0]`: the longest prefix without a 'T', followed by a 'T' unless it is everything; for a `YYYY-MM-DDTHH:mm:ss.sssZ` timestamp it is the first ten characters |
| DateUtils.IsToday | utils/dateUtils.ts:22-25 | for a `YYYY-MM-DDTHH:mm:ss.sssZ` clock reading, a date is today's exactly when it equals the reading's first ten characters |
| DateUtils.FormatDisplayDate | utils/dateUtils.ts:8-11 | "Today" whenever the date is today's, the locale text otherwise |
| DateUtils.FormatTimeFromSeconds | utils/dateUtils.ts:28-41 | "<m> min(s)" below an hour, "<h> hr(s)" on the hour, and "<h> hr(s) <m> min(s)" otherwise, each pluralised unless exactly 1 |
| DateUtils.FormatTimeFromSecondsShowsMinutes | utils/dateUtils.ts:28-41 | two durations read the same if and only if they have the same whole minutes |
| DateUtils.FormatTimeFromSecondsDropsSeconds | utils/dateUtils.ts:28-30 | f(s) = f(s - s mod 60) |
| Text.NatToString | components/TimerDisplay.tsx:16 | `toString()` of a natural number: a non-empty digit string without a leading zero, one digit exactly for n < 10 |
| Text.NatToStringValue | components/TimerDisplay.tsx:16 | the digits denote the number they were made from |
| Text.NatToStringAtMostTwo | components/TimerDisplay.tsx:16 | the text has at most two digits exactly when n < 100 |
| Text.PadStart2 | components/TimerDisplay.tsx:16 | `padStart(2, '0')`: at least two characters, ending with the original text, zeros in front |
| Text.PadStart2Value | components/TimerDisplay.tsx:16 | padding keeps a digit string's value |
| Text.ParseIntPadded | components/TimerDisplay.tsx:13-17 | a zero-padded `toString()` of a number reads back as that number |
| Text.ParseInt | components/DailyTargetSetter.tsx:30 | `parseInt`: NaN (None) exactly when the text does not start with a digit; the value of the digits for digit text |
| Text.ParseIntNatToString | components/DailyTargetSetter.tsx:30-32 | `parseInt(n.toString()) == n` |
| Text.NumberPrefixUnique | utils/dateUtils.ts:33-40 | a number followed by text not starting with a digit determines both the number and the text |
| Text.PluralSuffix | utils/dateUtils.ts:33 | "s" unless the count is exactly 1, and "" exactly then |
| DailyTargetSetter.InitialHours | components/DailyTargetSetter.tsx:16-17 | the field starts with floor(dailyTarget / 3600) as text; for a stored target it is one digit between 4 and 9 |
| DailyTargetSetter.Decreased | components/DailyTargetSetter.tsx:28-34 | the text changes exactly when it reads as more than 4, then to one less; unreadable text stays |
| DailyTargetSetter.Increased | components/DailyTargetSetter.tsx:36-42 | the text changes exactly when it reads as less than 9, then to one more; unreadable text stays |
| DailyTargetSetter.SavedHours | components/DailyTargetSetter.tsx:56-63 | always in [4, 9]: 4 for unreadable or empty text, the value itself inside the range, and the nearer bound outside it |
| DailyTargetSetter.MinusDisabled | components/DailyTargetSetter.tsx:80 | on readable text, minus is disabled exactly when saving would store the minimum of 4 hours |
| DailyTargetSetter.PlusDisabled | components/DailyTargetSetter.tsx:102 | on readable text, plus is disabled exactly when saving would store the maximum of 9 hours |
| DailyTargetSetter.DisabledMeansNoEffect | components/DailyTargetSetter.tsx:80-102 | on digit text, minus (plus) is disabled exactly when pressing it would change nothing, except the empty text, where both are enabled and neither changes anything |
| DailyTargetSetter.SavedTargetIsExact | components/DailyTargetSetter.tsx:56-65 | the store's clamp leaves the saved hours alone: the target becomes exactly hours*3600, within [14400, 32400] |
| DailyTargetSetter.Setter.constructor | components/DailyTargetSetter.tsx:16-17 | the field holds the initial hours text |
| DailyTargetSetter.Setter.DecreaseHours | components/DailyTargetSetter.tsx:28-34 | the field becomes `Decreased` of its old text and stays digits only |
| DailyTargetSetter.Setter.IncreaseHours | components/DailyTargetSetter.tsx:36-42 | the field becomes `Increased` of its old text and stays digits only |
| DailyTargetSetter.Setter.HandleInputChange | components/DailyTargetSetter.tsx:44-49 | the typed text is taken exactly when it is all digits (empty included); otherwise the field is unchanged |
| DailyTargetSetter.Setter.HandleSave | components/DailyTargetSetter.tsx:51-67 | only the store's target changes, to exactly `SavedHours(text)` * 3600, in range |
| TagSelector.Trim | components/TagSelector.tsx:31-33 | `trim()`: empty exactly when the text is all white space; otherwise starts and ends with a non-white-space character; it is the slice between the leading and the trailing white space |
| TagSelector.TrimIdempotent | components/TagSelector.tsx:31-33 | trimming a trimmed text changes nothing |
| TagSelector.AddDisabled | components/TagSelector.tsx:61 | the add button is disabled exactly when the field holds nothing but white space |
| TagSelector.RecentListShownAfterSession | components/TagSelector.tsx:67 | after any completed or stopped session the recent-tags row is shown, led by the tag just recorded |
| TagSelector.RecentTagsAreKeys | components/TagSelector.tsx:67-75 | the recent tags used as list keys are distinct and non-empty in every store state |
| TagSelector.Selector.constructor | components/TagSelector.tsx:16 | the new-tag field starts empty |
| TagSelector.Selector.SetNewTag | components/TagSelector.tsx:51 | the field holds exactly what was typed |
| TagSelector.Selector.HandleSelectTag | components/TagSelector.tsx:24-28 | the recent tag becomes the current tag verbatim, nothing else in the store changes, and the selection callback fires |
| TagSelector.Selector.HandleAddNewTag | components/TagSelector.tsx:30-36 | the callback fires exactly when the add button is enabled (trimmed text non-empty); then only currentTag changes, to the trimmed text, which is non-empty with no white space at either end; otherwise the store is unchanged |
| TimerControls.Label | components/TimerControls.tsx:36-93 | every button has a non-empty label |
| TimerControls.OfferedControls | components/TimerControls.tsx:36-95 | Start alone exactly when idle; Pause exactly when running; Resume exactly when paused and not running; Reset and Stop exactly when not idle; Start and Resume never together; no button twice |
| TimerControls.LabelsDistinct | components/TimerControls.tsx:36-93 | different buttons have different labels |
| TimerControls.ThreeRows | components/TimerControls.tsx:36-95 | in every store state the buttons are [Start], [Pause, Reset, Stop] or [Resume, Reset, Stop] |
| DurationPicker.PresetTable | components/DurationPicker.tsx:12-18 | five presets 1500 < 2700 < 3600 < 5400 < 7200; each label is value/60 followed by "m"; each is at most MAX_DURATION, so the clamp keeps it |
| DurationPicker.IsSelected | components/DurationPicker.tsx:36 | a highlighted preset's caption names the selected duration in whole minutes |
| DurationPicker.AtMostOneSelected | components/DurationPicker.tsx:36-46 | no two buttons are highlighted for the same selected duration |
| DurationPicker.Press | components/DurationPicker.tsx:38-41 | pressing a preset stores exactly its value as duration and time left, changes nothing else, and highlights that preset |
| TimerDisplay.FormatTime | components/TimerDisplay.tsx:13-17 | padded minutes, a colon, and exactly two padded second digits |
| TimerDisplay.FormatTimeRoundTrip | components/TimerDisplay.tsx:13-17 | reading the digits before and after the colon gives mins*60 + secs = the seconds shown |
| TimerDisplay.FormatTimeInjective | components/TimerDisplay.tsx:13-17 | different times never show the same text |
| TimerDisplay.FormatTimeLength | components/TimerDisplay.tsx:16 | the text is exactly 5 characters if and only if seconds < 6000 |
| TimerDisplay.LongestPresetText | components/TimerDisplay.tsx:16 | 7200 seconds shows as "120:00" |
| TimerDisplay.TimeLabel | components/TimerDisplay.tsx:54 | "Time's up!" exactly when no time is left, "remaining" otherwise |
| DailyProgressBar.Remaining | components/DailyProgressBar.tsx:16 | never negative; at least target - current, and either 0 or exactly that |
| DailyProgressBar.FormatTimeRemaining | components/DailyProgressBar.tsx:15-25 | "Target reached!" exactly when less than a minute is left; otherwise "<h>h <m>m remaining" |
| DailyProgressBar.FormatTimeRemainingShowsMinutes | components/DailyProgressBar.tsx:15-25 | for all inputs, two remainders read the same if and only if they have the same whole minutes (every remainder under a minute reads "Target reached!") |
| DailyProgressBar.FormatProgress | components/DailyProgressBar.tsx:28-32 | "<h>h " followed by "<m>m" only when there are leftover minutes |
| DailyProgressBar.FormatProgressShowsMinutes | components/DailyProgressBar.tsx:28-32 | two amounts read the same if and only if they have the same whole minutes |
| SessionHistoryItem.FormatDuration | components/SessionHistoryItem.tsx:30-39 | "<mins> min" below an hour; otherwise "<h>h " followed by "<r>m" when r > 0 (a trailing space when r = 0) |
| SessionHistoryItem.FormatDurationAsProgress | components/SessionHistoryItem.tsx:30-39 | from an hour on, the row reads exactly like the progress bar's text |
| SessionHistoryItem.FormatDurationShowsMinutes | components/SessionHistoryItem.tsx:30-39 | two sessions read the same if and only if they have the same whole minutes; seconds never show |
| SessionHistoryItem.StatusText | components/SessionHistoryItem.tsx:73 | "Completed" exactly for completed sessions, "Stopped" otherwise |
| SessionHistoryItem.ShowsTagRow | components/SessionHistoryItem.tsx:61 | the tag row is drawn exactly when the tag is its own label, that is, when it is not replaced by "Untagged" |
| SessionHistoryItem.LoggedSessionsShowTagRow | components/SessionHistoryItem.tsx:61-66 | every session the store logs has a non-empty tag, so its tag row is drawn |
| SessionHistoryItem.DateLabel | components/SessionHistoryItem.tsx:52 | "Today" for today's session, the locale date otherwise |
| SessionCompleteModal.FormatDuration | components/SessionCompleteModal.tsx:14-25 | "<mins> minute(s)" below an hour; otherwise "<h> hour(s) " followed by "<r> minute(s)" only when r > 0; pluralised unless exactly 1 |
| SessionCompleteModal.FormatDurationShowsMinutes | components/SessionCompleteModal.tsx:14-25 | two lengths read the same if and only if they have the same whole minutes |
| SessionCompleteModal.FormatDurationDropsSeconds | components/SessionCompleteModal.tsx:15-16 | the computed seconds are never used: f(s) = f(s - s mod 60) |
| TagStatsChart.FormatTime | components/TagStatsChart.tsx:23-34 | "<m>m" below an hour, "<h>h" on the hour, "<h>h <m>m" otherwise |
| TagStatsChart.FormatTimeShowsMinutes | components/TagStatsChart.tsx:23-34 | two totals read the same if and only if they have the same whole minutes |
| TagStatsChart.SessionLabel | components/TagStatsChart.tsx:42 | "<n> session" or "<n> sessions", ending in "s" exactly when the count is not 1 |
| TagStatsChart.MaxSeconds | components/TagStatsChart.tsx:20 | an upper bound on every entry's total that some entry attains |
| TagStatsChart.Chart | components/TagStatsChart.tsx:11-56 | only the placeholder exactly for an empty list; otherwise one row per entry in order, only the first highlighted |
| TagStatsChart.FirstHoldsMax | components/TagStatsChart.tsx:50 | in a list sorted by descending totals, the first entry holds the maximum |
| TagStatsChart.TopBarHoldsMax | components/TagStatsChart.tsx:50 | on the store's statistics the highlighted top bar has the most seconds |
| TagStatsChart.PlaceholderIffNoSessions | components/TagStatsChart.tsx:11-17 | the placeholder shows exactly when the log is empty |

## Left out

- The live tick and background reconciliation are left out. The one-second countdown lives in the timer screen (`app/(tabs)/index.tsx`), not in the store. `setBackgroundMode`, `syncTimerWithRealTime`, `isBackgroundMode` and `lastUpdatedTime` are declared in `types/timer.ts` but have no implementation in the store, so there is nothing to model.
- Persistence is left out. The zustand `persist` wrapper and AsyncStorage are library I/O, and the model keeps the state in memory only.
- Clock readings are left out: `Date.now()` for the session id and `new Date().toISOString()` for the timestamp and for today's date. They are parameters of `TimerStore.Store.CompleteSession`.
- `DateUtils.DatePart` describes `toISOString` output only in the `YYYY-MM-DDTHH:mm:ss.sssZ` shape, which covers the years 0000 to 9999.
- Locale formatting is left out. `toLocaleDateString` and `toLocaleTimeString` are host calls; their text is a parameter (`localeText`, `localeDate`).
- Floating-point display maths is left out: the progress ring, the progress percentage and the bar widths.
- Haptics, styles, colours, navigation and the modal wrappers are left out; they are presentation only.
- The `onClose` callbacks are left out. `TagSelector.Selector.HandleSelectTag` and `TagSelector.Selector.HandleAddNewTag` return `selected` to stand for the `onTagSelected` call. For `TimerControls`, each `Control` value stands for the one callback its button invokes.
- `TimerStore.Store.SetDailyTarget` takes an integer number of hours. A non-number (NaN) or fractional hours, which JavaScript would store as such, are not modelled.
- `TimerStore.Store.SetDuration` takes an integer number of seconds. Negative requests are kept, as in the code, but fractional seconds are not modelled.
- `Text.ParseInt` models `parseInt` on text that starts with its digits. Leading white space, signs and radix prefixes are not modelled. The hours field only ever holds digits, which `DailyTargetSetter.Setter.Valid` states.
- DailyTargetSetter.Setter.HandleInputChange does not model the field's `maxLength={1}`. The native text input enforces that limit before the handler runs.
- TimerDisplay.FormatTime takes a natural number of seconds. The clock is never shown a negative time left, but JavaScript's `Math.floor` and `%` on a negative value are not modelled.
- DateUtils.FormatTimeFromSeconds, DailyProgressBar.FormatProgress, SessionHistoryItem.FormatDuration, SessionCompleteModal.FormatDuration and TagStatsChart.FormatTime take natural numbers of seconds. Negative or fractional inputs, where JavaScript's flooring and remainder differ from Dafny's, are not modelled.
