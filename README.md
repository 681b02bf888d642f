# Task tracker core, modelled in Dafny

This project models the core of a small task-tracking web application.
Service requests (tasks) are listed, sorted, paged, filtered by category and reordered by dragging.
A task's time is tracked in work sessions that a timer starts and stops.
A task also carries comments, and the company's users are shown with their permissions.

The model covers:

- **The task store** (`Tasks`, from `src/lib/tasks.ts`). It is a class holding the `tasks`, `work_sessions`, `comments` and `subtasks` tables as sequences.
  - Starting a timer, stopping it, completing a task, deleting a task, reordering tasks and adding a comment are methods that change those sequences.
  - Looking up the active session, totalling the tracked time and fetching comments are read-only functions.
  - A failed remote call is a boolean `rejected` parameter, except in `DeleteTask`, which takes the set of its four deletes that fail (`rejected: set<Table>`). The database's clock is a parameter too.
- **The time formatting helpers** (`TimeUtils`, from `src/utils/timeUtils.ts`): the elapsed-time split, the time colour bands, two-digit padding and the "Xh Ym" duration text.
- **The statistics helpers** (`StatsUtils`, from `src/utils/statsUtils.ts`): completion time in hours and the time-range filter, with `now` as a parameter.
- **The task detail view** (`TaskDetails`, from `src/components/TaskDetails.tsx`). It is a class whose methods update the view's timer, total and comment state around calls into the store.
- **Drag and drop** (`DragAndDrop`, from `src/hooks/useDragAndDrop.ts`): the splice-based move.
  - It is specified on sequences.
  - It is also implemented in place on an array.
  - It is held by a class whose `items` the drop replaces.
- **The request list** (`RequestList`, from `src/components/RequestList.tsx`): the comparator for each sort field, pages of ten rows, and the view state of sort field, direction, page and selection, updated by the view's handlers.
- **The App view's lists** (`AppFilters`, from `src/App.tsx`): the category filter, the active/completed split, the name-sorted chips and the chip toggle.
- **The permission merge** (`Permissions`, from `src/lib/permissions.ts`): company users joined with their first permission row, with defaults.
- **The assignee toggle** (`TaskUserSelect`, from `src/components/TaskUserSelect.tsx`).
- **The timezone list** (`Timezones`, from `src/components/AccountSettingsDialog.tsx`): the `±HH:MM` offset text, the region/location split, the fallback entry, the three-key sort and the option label.

Supporting modules:

- `Text`: decimal digits, `padStart`, `split`/`join`, `replace` and a code-point string order standing in for `localeCompare`.
- `Seqs`: filter, subsequence, toggle and dedup.
- `Sorting`: a stable insertion sort standing in for `Array.prototype.sort`.
- `Types`: the `ServiceRequest` and `Category` records.
- `Wrappers`: `Option`, `Result` and `Outcome`.

Times are integer milliseconds. Durations in hours are `real`, and `Math.round(x)` is `(x + 0.5).Floor`.
JavaScript's `%` truncates toward zero; it is written out as `TimeUtils.JsRem`.

The model follows the code, apart from what "## Left out" lists, including three behaviours a reader might not expect:

- stopping a timer closes every open session of the task, not only the latest one;
- starting a timer does not check for an already open session, so a second start leaves two open;
- `formatDuration` does not carry a rounded 60 minutes into the hour, so 1.999 hours reads `1h 60m` rather than `2h 0m` (see Findings).

## Model

| member | source | states |
|---|---|---|
| Tasks.OpenSessions | src/lib/tasks.ts:202-207 | the active-session query's rows: exactly the task's sessions with no end time |
| Tasks.ClosedSessions | src/lib/tasks.ts:250-254 | the sessions summed for the total: exactly the task's sessions with an end time, all of them closed |
| Tasks.CloseOpenSessions | src/lib/tasks.ts:239-247 | the stop update: every open session of the task gets end time `now`, every other session is unchanged, none of the task's sessions stays open |
| Tasks.StopTwiceIsStopOnce | src/lib/tasks.ts:240-246 | stopping a second time, at any later time, changes nothing |
| Tasks.StopWithNoneOpen | src/lib/tasks.ts:240-246 | stopping with no open session leaves the sessions as they were |
| Tasks.StartAddsOpenSession | src/lib/tasks.ts:229-234 | an inserted open session adds exactly one open session of its task, so two starts leave two open |
| Tasks.Store.StartTaskTimer | src/lib/tasks.ts:222-237 | without a user or on a failed insert nothing changes; otherwise exactly one open session for the task and user, started at the database's clock, is appended; no other table changes |
| Tasks.Store.StopTaskTimer | src/lib/tasks.ts:239-247 | succeeds unless the update fails and then closes the task's open sessions at `now`; on failure nothing changes; other tables are untouched |
| Tasks.Store.FetchActiveWorkSession | src/lib/tasks.ts:201-220 | fails exactly when the query fails or more than one session is open; none exactly when no session of the task is open; otherwise the one open session |
| Tasks.TrackedMs | src/lib/tasks.ts:250-262 | the sum of `end - start` over the task's closed sessions; `OpenSessionAddsNothing` and `StopAddsElapsed` state how it changes |
| Tasks.TotalUnits | src/lib/tasks.ts:264-266 | whole hours, minutes and seconds of the total; `TotalUnitsIsElapsed` ties them to the elapsed-time split |
| Tasks.FormatTotal | src/lib/tasks.ts:268 | the padded `H:MM:SS` text; `FormatTotalReadsBack` states its meaning |
| Tasks.TotalTimeText | src/lib/tasks.ts:249-269 | the total's text for a task's sessions; `NothingTrackedReadsZero` gives the empty case |
| Tasks.Store.CalculateTotalTime | src/lib/tasks.ts:249-269 | succeeds exactly when the query does, with the `H:MM:SS` text of the summed closed sessions |
| Tasks.SetCompletedAt | src/lib/tasks.ts:75-80 | the row with the id gets the new `completedAt`, all other rows are unchanged |
| Tasks.Store.UpdateTaskStatus | src/lib/tasks.ts:67-83 | succeeds exactly when the lookup succeeds, at most one session is open, the stop (if needed) and the update succeed; on success the task has no open session and `completedAt` is `now` or cleared; a failed lookup writes nothing; the task's open sessions are closed exactly when the lookup succeeds with one open session and the stop succeeds, even if the completion update then fails, and are unchanged otherwise |
| Tasks.Store.DeleteTask | src/lib/tasks.ts:125-140 | each of the four deletes removes exactly the task's rows from its table unless that delete fails; the result fails exactly when the task delete does; with no failure no row refers to the task |
| Tasks.ApplyOrder | src/lib/tasks.ts:152-155 | the upsert keeps every row's id, title and completion, and leaves rows not in the list unchanged |
| Tasks.ReorderAssignsIndex | src/lib/tasks.ts:152-155 | each task in a list without repeats gets `order` equal to its index in the list |
| Tasks.Store.ReorderTasks | src/lib/tasks.ts:142-160 | succeeds exactly with a user, no failure and no repeated id, and then applies the new order; otherwise no table changes |
| Tasks.Store.AddComment | src/lib/tasks.ts:162-181 | without a user or on a failed insert nothing changes; otherwise the new comment row is appended and returned |
| Tasks.CommentsOf | src/lib/tasks.ts:183-188 | exactly the comments whose task id matches |
| Tasks.Store.FetchComments | src/lib/tasks.ts:183-199 | succeeds exactly when the query does, with the task's comments |
| Tasks.NewCommentComesLast | src/lib/tasks.ts:171-188 | after adding a comment, the task's comment list is the previous one with the new comment at the end |
| Tasks.ClockTextReadsBack | src/lib/tasks.ts:268 | `H:MM:SS` with minutes and seconds under 60 reads back as the same three fields |
| Tasks.FormatTotalReadsBack | src/lib/tasks.ts:264-268 | for any non-negative total the text reads back as hours (not wrapped), minutes and seconds under 60, which make up the total to within one second |
| Tasks.TotalUnitsIsElapsed | src/lib/tasks.ts:264-266 | the total's fields are the elapsed-time split of a span of that length |
| Tasks.NothingTrackedReadsZero | src/lib/tasks.ts:249-268 | with no closed session the total reads `00:00:00` |
| Tasks.FormatTotalExample | src/lib/tasks.ts:264-268 | 6300000 ms reads `01:45:00` |
| Tasks.OpenSessionAddsNothing | src/lib/tasks.ts:250-262 | an open session adds nothing to the tracked total |
| Tasks.StopAddsElapsed | src/lib/tasks.ts:239-262 | stopping adds to the total exactly the time each open session ran until the stop |
| Tasks.DoubleStartBlocksCompletion | src/lib/tasks.ts:67-72 | two successful starts on one task make the completion fail, leaving the task uncompleted |
| TimeUtils.JsRem | src/utils/timeUtils.ts:10-11 | JavaScript's remainder: the mathematical one for non-negative operands, between `-b` and 0 for negative ones |
| TimeUtils.DecomposeMs | src/utils/timeUtils.ts:8-12 | for a non-negative span the minute and second fields are under 60 and the fields add up to the whole seconds |
| TimeUtils.CalculateTimeElapsed | src/utils/timeUtils.ts:7-15 | for end after start: hours not wrapped, minutes and seconds under 60, `h*3600 + m*60 + s` equals the whole seconds; for end before start: negative hours, minutes and seconds in [-60, 0] |
| TimeUtils.GetTimeColor | src/utils/timeUtils.ts:17-23 | each of the five colours is returned exactly on its band: under 5, [5,10), [10,15), [15,24), from 24 |
| TimeUtils.Band | src/utils/timeUtils.ts:17-23 | the band index is one of the five bands |
| TimeUtils.TimeColorOfBand | src/utils/timeUtils.ts:17-23 | the colour is the band's entry in the colour list |
| TimeUtils.BandMonotone | src/utils/timeUtils.ts:17-23 | more hours never give an earlier band |
| TimeUtils.FormatTimeUnit | src/utils/timeUtils.ts:25-27 | `value.toString().padStart(2, '0')`; `FormatTimeUnitOfNat` and `FormatTimeUnitReadsBack` state its meaning |
| TimeUtils.FormatTimeUnitOfNat | src/utils/timeUtils.ts:25-27 | a non-negative value pads to digits worth the value, exactly two below 100, unpadded from 10, never truncated |
| TimeUtils.FormatTimeUnitReadsBack | src/utils/timeUtils.ts:25-27 | the padded text has at least two digits and reads back as the value |
| TimeUtils.DurationParts | src/utils/timeUtils.ts:29-31 | whole hours are the floor of the hours, minutes lie in [0, 60], and `h*60 + m` is the rounded number of minutes |
| TimeUtils.DurationText | src/utils/timeUtils.ts:33-37 | the text ends in `m` and has an `h` exactly when there are whole hours |
| TimeUtils.FormatDuration | src/utils/timeUtils.ts:29-38 | the text ends in `m` and has an `h` exactly when the floor of the hours is not 0 |
| TimeUtils.DurationTextReadsBack | src/utils/timeUtils.ts:33-37 | `"{m}m"` and `"{h}h {m}m"` read back as the hours and minutes written |
| TimeUtils.FormatDurationReadsBack | src/utils/timeUtils.ts:29-38 | for a non-negative span the text reads back as its whole hours and rounded minutes |
| TimeUtils.FormatDurationDoesNotCarry | src/utils/timeUtils.ts:30-37 | 1.999 hours gives 60 minutes and the text `1h 60m` |
| TimeUtils.CarriedDurationParts | src/utils/timeUtils.ts:29-38 | with the carry, minutes lie in [0, 60) and `h*60 + m` is still the rounded number of minutes |
| TimeUtils.FormatDurationCarried | src/utils/timeUtils.ts:29-38 | with the carry, the text still ends in `m` |
| TimeUtils.FormatDurationCarriedReadsBack | src/utils/timeUtils.ts:29-38 | with the carry, the text reads back as minutes under 60 that, with the hours, make up the rounded minutes |
| TimeUtils.FormatDurationCarriedExamples | src/utils/timeUtils.ts:29-38 | 1.999 gives `2h 0m`, 0 gives `0m`, 1 gives `1h 0m`, and wherever no carry happens the two texts agree |
| StatsUtils.CalculateCompletionTime | src/utils/statsUtils.ts:3-6 | 0 without a completion time, otherwise the elapsed milliseconds over 3600000 |
| StatsUtils.FilterByTimeRange | src/utils/statsUtils.ts:8-19 | `24h`, `7d` and `30d` accept exactly the dates at most 1, 7 or 30 days old, boundary included; any other range accepts everything |
| StatsUtils.RangesNest | src/utils/statsUtils.ts:14-17 | a date accepted by a range is accepted by every wider one |
| StatsUtils.FutureDateAccepted | src/utils/statsUtils.ts:10-17 | a date after `now` is accepted by every range |
| DragAndDrop.Remove | src/hooks/useDragAndDrop.ts:32 | `splice(i, 1)`: one shorter, the elements before `i` in place and those after it one place left |
| DragAndDrop.InsertAt | src/hooks/useDragAndDrop.ts:33 | `splice(i, 0, x)`: one longer, `x` at `i`, the elements before `i` in place and those from it one place right |
| DragAndDrop.Move | src/hooks/useDragAndDrop.ts:31-33 | the two splices, removal and then insertion; the four lemmas below state its meaning |
| DragAndDrop.MoveIsPermutation | src/hooks/useDragAndDrop.ts:31-33 | the move keeps the length and the multiset of items |
| DragAndDrop.MovePlacesDragged | src/hooks/useDragAndDrop.ts:32-33 | the dragged item ends at the drop position |
| DragAndDrop.MoveKeepsOthersInOrder | src/hooks/useDragAndDrop.ts:32-33 | without the dragged item, the others are in their old order |
| DragAndDrop.MoveBack | src/hooks/useDragAndDrop.ts:32-33 | dragging back from the drop position to the drag position restores the list |
| DragAndDrop.ShiftLeft | src/hooks/useDragAndDrop.ts:32 | the in-place removal: the prefix is the list without the removed element |
| DragAndDrop.ShiftRight | src/hooks/useDragAndDrop.ts:33 | the in-place opening of a gap: elements before it stay, elements from it move one place right |
| DragAndDrop.MoveInPlace | src/hooks/useDragAndDrop.ts:31-33 | the two splices on the copy leave the array equal to the move of its old contents |
| DragAndDrop.DragList.constructor | src/hooks/useDragAndDrop.ts:9 | the hook holds the given items |
| DragAndDrop.DragList.HandleDrop | src/hooks/useDragAndDrop.ts:25-37 | equal positions change nothing and return nothing; otherwise the items become the moved list, which is also returned |
| RequestList.CompareRequests | src/components/RequestList.tsx:45-63 | the comparator for each field and direction; `RequestOrderIsTotalPreorder`, `SortedByKey` and `UncompletedPlacement` state its meaning |
| RequestList.RequestOrderIsTotalPreorder | src/components/RequestList.tsx:45-63 | for every field and direction the comparator is total and transitive |
| RequestList.SortRequests | src/components/RequestList.tsx:45-63 | the sorted list is a permutation of the requests, ordered by the comparator, and rows that compare equal keep their input order (stable sort) |
| RequestList.SortedByKey | src/components/RequestList.tsx:49-54 | by creation time or title, rows are in the chosen direction of that key |
| RequestList.UncompletedPlacement | src/components/RequestList.tsx:55-59 | by completion time, uncompleted rows never precede completed ones ascending and never follow them descending |
| RequestList.SortByAssigneeKeepsOrder | src/components/RequestList.tsx:45-63 | sorting by assignee leaves the list as it was |
| RequestList.TotalPages | src/components/RequestList.tsx:65 | the page count is the ceiling of the row count over ten |
| RequestList.PageOf | src/components/RequestList.tsx:66-67 | a page holds at most ten rows, exactly the rows from its start, and none past the end |
| RequestList.EveryRowOnItsPage | src/components/RequestList.tsx:65-67 | every row appears on page `i / 10` at place `i % 10`, and that page exists |
| RequestList.PagesRunOut | src/components/RequestList.tsx:65-67 | a page is empty exactly when its number is at least the page count |
| RequestList.RequestListView.constructor | src/components/RequestList.tsx:24-27 | the list starts sorted by creation time descending, on page 0, with nothing selected |
| RequestList.RequestListView.HandleSort | src/components/RequestList.tsx:29-36 | the same field flips the direction, another field is selected ascending |
| RequestList.RequestListView.PreviousPage | src/components/RequestList.tsx:173 | the page goes down by one, never below 0 |
| RequestList.RequestListView.NextPage | src/components/RequestList.tsx:170-183 | the page goes up by one, never past the last page |
| RequestList.RequestListView.ToggleTaskSelection | src/components/RequestList.tsx:85-93 | the given id's membership flips and every other id's stays |
| RequestList.RequestListView.ToggleAllTasks | src/components/RequestList.tsx:95-101 | a selection as large as the page is cleared; otherwise it becomes exactly the page's ids, in page order |
| RequestList.RequestListView.HandleBulkDelete | src/components/RequestList.tsx:69-83 | with a handler and targets, the selected or page ids are passed on and the selection is cleared; otherwise nothing is passed and the selection stays |
| Types.Ids | src/components/RequestList.tsx:73 | the ids of the rows, in order |
| AppFilters.FilteredTasks | src/App.tsx:101-103 | without a filter all tasks, otherwise exactly the tasks of the category, each with as many copies as in the input |
| AppFilters.ActiveTasks | src/App.tsx:105 | exactly the shown tasks without a completion time |
| AppFilters.CompletedTasks | src/App.tsx:106 | exactly the shown tasks with a completion time |
| AppFilters.ActiveCompletedPartition | src/App.tsx:101-106 | the filtered list keeps the tasks' order; active and completed split it as a multiset, each in order |
| AppFilters.CategoryChips | src/App.tsx:138 | the chips are a permutation of the categories, sorted by name, and categories of the same name keep their input order |
| AppFilters.AppView.constructor | src/App.tsx:23-25 | the view starts with no category filter |
| AppFilters.AppView.StatisticsTasks | src/App.tsx:164 | the statistics panel gets all tasks, whatever the filter; `ClickCategoryChip` keeps it unchanged |
| AppFilters.AppView.ClickCategoryChip | src/App.tsx:141-143 | the current category's chip clears the filter, another chip sets it; tasks, categories and the statistics list are unchanged |
| Permissions.FindPermission | src/lib/permissions.ts:58 | none exactly when no row has the user, otherwise the first row that has it |
| Permissions.MergeUser | src/lib/permissions.ts:57-67 | one company user with the role and visibility of their first permission row or the defaults; `MergedEntry` states it |
| Permissions.MergeUsers | src/lib/permissions.ts:57-68 | one merged entry per company user, in the same order |
| Permissions.MergedEntry | src/lib/permissions.ts:57-67 | each entry copies the user's fields and takes role and visibility from the first matching row, or is a `user` who sees all tasks |
| Permissions.NoEntryWithoutCompanyUser | src/lib/permissions.ts:57-68 | every entry belongs to a company user |
| Permissions.GetCompanyUsers | src/lib/permissions.ts:44-69 | the users query's error comes first, then the permissions query's; otherwise the merged list, one entry per company user with the same ids (its entries are described by `MergedEntry`) |
| TaskUserSelect.HandleUserToggle | src/components/TaskUserSelect.tsx:29-34 | an absent id is appended; a present id is removed everywhere, and every other id keeps its count and its order |
| TaskUserSelect.ToggleUserTwice | src/components/TaskUserSelect.tsx:30-32 | toggling an absent id twice restores the list |
| TaskUserSelect.OnCheckboxChange | src/components/TaskUserSelect.tsx:49 | a disabled checkbox reports no change, an enabled one the toggled list |
| Timezones.OffsetString | src/components/AccountSettingsDialog.tsx:34-38 | the sign, then the padded whole hours and minutes of the absolute offset; `OffsetStringShape` and `OffsetStringRoundTrip` state its meaning |
| Timezones.OffsetStringShape | src/components/AccountSettingsDialog.tsx:34-38 | the text starts with `+` exactly for a non-negative offset and has the `:` three from the end |
| Timezones.OffsetStringRoundTrip | src/components/AccountSettingsDialog.tsx:34-38 | the `±HH:MM` text reads back as the offset in minutes |
| Timezones.FallbackOffsetIsZero | src/components/AccountSettingsDialog.tsx:58-67 | offset 0 is written `+00:00` |
| Timezones.RegionOf | src/components/AccountSettingsDialog.tsx:41 | the first `/` segment of the identifier; `RegionAndLocation` states it |
| Timezones.LocationOf | src/components/AccountSettingsDialog.tsx:41-42 | the other segments re-joined with `/`, `_` replaced by a space; `RegionAndLocation` states it |
| Timezones.RegionAndLocation | src/components/AccountSettingsDialog.tsx:41-42 | the region is the text before the first `/` (or all of it), the location the rest with `_` as spaces (or empty) |
| Timezones.GetTimezoneInfo | src/components/AccountSettingsDialog.tsx:25-68 | without a reading the fallback entry; otherwise the reading's offset and abbreviation, an offset text that reads back as the offset, and the split region and location |
| Timezones.CompareZones | src/components/AccountSettingsDialog.tsx:71-82 | the three-key comparator; `CompareZonesMeaning` and `ZoneOrderIsTotalPreorder` state its meaning |
| Timezones.CompareZonesMeaning | src/components/AccountSettingsDialog.tsx:71-82 | an entry sorts first exactly by a smaller offset, then region, then location |
| Timezones.ZoneOrderIsTotalPreorder | src/components/AccountSettingsDialog.tsx:71-82 | the three-key comparator is total and transitive |
| Timezones.ZoneInfos | src/components/AccountSettingsDialog.tsx:71 | one entry per zone, from its reading or the fallback |
| Timezones.AvailableTimezones | src/components/AccountSettingsDialog.tsx:71-82 | the list is a permutation of the entries, ordered by the three keys, and entries level on all three keep their input order |
| Timezones.OneEntryPerZone | src/components/AccountSettingsDialog.tsx:71-82 | every zone has its entry in the list, and every entry comes from a zone |
| Timezones.ShownLocation | src/components/AccountSettingsDialog.tsx:278 | the last `/` segment of the location, or the identifier when that is empty; `ShownLocationCases` states its cases |
| Timezones.OptionLabel | src/components/AccountSettingsDialog.tsx:277-281 | the label is exactly `(UTC±HH:MM) region - `, then the shown location, then ` (abbr)` when there is an abbreviation: prefix, location and suffix in place and nothing else |
| Timezones.ShownLocationCases | src/components/AccountSettingsDialog.tsx:278 | a location without `/` is shown whole and an empty one shows the identifier; the shown text has no `/` unless it is the identifier |
| TaskDetails.TaskDetailsView.constructor | src/components/TaskDetails.tsx:39-44 | the view starts not running, with no start time, total `00:00:00`, no comments and not loading |
| TaskDetails.TaskDetailsView.ShowsTimerControl | src/components/TaskDetails.tsx:292 | the start/stop control is rendered exactly for a view that is not archived and a task that is not completed; `MountEffect` uses it |
| TaskDetails.TaskDetailsView.ShowsLiveSession | src/components/TaskDetails.tsx:314 | the current-session display is rendered exactly for an uncompleted task whose timer runs; `MountEffect` uses it |
| TaskDetails.TaskDetailsView.FetchAndApply | src/components/TaskDetails.tsx:47-67 | state is applied exactly when every fetch succeeds and at most one session is open; then the total and comments are the store's, and a single open session sets the start time and the running flag, while none leaves both |
| TaskDetails.TaskDetailsView.LoadData | src/components/TaskDetails.tsx:47-67 | without a user nothing changes; a successful load sets the total and comments to the store's, and an open session sets running and its start; a failed load or more than one open session changes nothing; running is never cleared |
| TaskDetails.TaskDetailsView.MountEffect | src/components/TaskDetails.tsx:46-78 | a completed task ends not running and without a start time unless the load applies exactly one open session; with no open session neither the control nor the live session is shown; an uncompleted task is never stopped; a successful load (user present, no rejection, at most one open session) sets the total and the comments, and with exactly one open session the timer is running from that session's start; otherwise the total and comments are unchanged, and for an uncompleted task the timer state too |
| TaskDetails.TaskDetailsView.ReloadTaskData | src/components/TaskDetails.tsx:80-102 | like loading, without the user check, and ends not loading: a successful reload sets the total and comments to the store's, an open session sets running and its start, none leaves the timer; any failure leaves the state as it was |
| TaskDetails.TaskDetailsView.ToggleTimer | src/components/TaskDetails.tsx:130-145 | running: the stop closes the task's sessions and clears the start; a refreshed total clears the flag, a failed refresh keeps it; not running: a session is started, the next id advances by one and the start is the client's clock; a failed call changes nothing; tasks, comments and subtasks are never touched |
| TaskDetails.TaskDetailsView.HandleAddComment | src/components/TaskDetails.tsx:147-158 | a blank comment does nothing; sessions, tasks and subtasks are never touched; without a user or on a failed add the comments and the next id are unchanged; a successful add appends the comment row to the store even if the re-fetch fails; on full success the shown list is the old one plus the new comment and the input is cleared |
| TaskDetails.StopRetryAfterFailedRefresh | src/components/TaskDetails.tsx:130-145 | a stop whose refresh fails, pressed again, ends not running with no open session and the store's total |
| Seqs.Filter | src/App.tsx:101-106 | the filtered list is no longer than the list and holds exactly its elements that pass |
| Seqs.FilterIsSubsequence | src/App.tsx:101-106 | filtering keeps the order |
| Seqs.FilterPartition | src/App.tsx:105-106 | a filter and its complement split the list as a multiset |
| Seqs.FilterOutCount | src/components/TaskUserSelect.tsx:30-31 | `filter(y => y !== x)` leaves every other element's count as it was and removes every `x` |
| Seqs.FilterCount | src/App.tsx:101-103 | `filter` keeps every copy of an accepted element and no copy of a rejected one |
| Seqs.Toggle | src/components/RequestList.tsx:85-93 | the element's membership flips, other elements' stays, and an absent element goes at the end |
| Seqs.ToggleKeepsOrder | src/components/TaskUserSelect.tsx:30-31 | removal keeps the order and drops exactly the element's occurrences from the multiset, and a toggle keeps a list without repeats |
| Seqs.ToggleTwice | src/components/TaskUserSelect.tsx:30-32 | toggling an absent element twice restores the list |
| Seqs.Dedup | src/components/RequestList.tsx:99 | the set's ids have no repeats, the same members, and come in the order of their first occurrence; a list without repeats is kept as it is |
| Sorting.InsertionSort | src/components/RequestList.tsx:45 | the sort is a permutation, adjacent-sorted for a total comparator |
| Sorting.SortIsSorted | src/components/RequestList.tsx:45-63 | for a total, transitive comparator every pair is in order |
| Sorting.SortAllTiesIsIdentity | src/components/RequestList.tsx:45-63 | when every pair ties, the list is unchanged |
| Sorting.InsertTied | src/components/RequestList.tsx:45 | an inserted element goes before every element level with it |
| Sorting.SortIsStable | src/components/RequestList.tsx:45-63 | the sort is stable: for any `y`, the elements level with `y` come out in their input order |
| Text.DecimalDigitsRoundTrip | src/utils/timeUtils.ts:26 | a number's decimal digits read back as the number |
| Text.IntToString | src/utils/timeUtils.ts:26 | the text is the digits, with a `-` in front of a negative number |
| Text.PadStart | src/utils/timeUtils.ts:26 | the padded length is the width, or the text's length when longer |
| Text.PadStartShape | src/utils/timeUtils.ts:26 | the padded text ends with the text and is fill before it |
| Text.IsBlank | src/components/TaskDetails.tsx:148 | `!s.trim()`: every character is whitespace; `HandleAddComment` uses it as its guard |
| Text.Split | src/components/AccountSettingsDialog.tsx:41 | at least one part, and no part holds the separator |
| Text.JoinSplit | src/components/AccountSettingsDialog.tsx:41-42 | joining the parts with the separator gives the text back |
| Text.ReplaceAll | src/components/AccountSettingsDialog.tsx:42 | same length, each `from` becomes `to`, everything else stays |
| Text.Compare | src/components/AccountSettingsDialog.tsx:77-81 | 0 exactly on equal strings, otherwise -1 or 1 |
| Text.CompareAntisymmetric | src/components/AccountSettingsDialog.tsx:77-81 | swapping the strings negates the result |
| Text.CompareTransitive | src/components/AccountSettingsDialog.tsx:77-81 | the order is transitive |

## Left out

- The remote database is in-memory sequences. Row-level security, user scoping and error codes are not modelled. Each remote failure is a boolean parameter, except in `Tasks.Store.DeleteTask`, where it is the set of failing deletes.
- The database default for a session's start time is a parameter (`dbNow`). The client's clock is another parameter (`clientNow`).
- Tasks.Store.UpdateTaskStatus: the stop and the completion read the clock separately; the model uses one `now` for both.
- Tasks.Store.ReorderTasks: the upsert would insert rows for ids not in the table. The model keeps the table's rows only. A list that repeats an id is taken to fail, as the database's upsert does.
- Tasks.Store.FetchComments: the query orders by `created_at`. The model takes insertion order as that order.
- The concurrency of `Promise.all` (src/lib/tasks.ts:127-131, src/components/TaskDetails.tsx:49-55) is not modelled. Every operation runs sequentially and all fetches are read from one state.
- TaskDetails.TaskDetailsView.LoadData: the settings and categories fetches are a single `otherRejected` flag. Their results are not modelled.
- DragAndDrop.DragList.HandleDrop requires in-range positions. The DOM events, `dataTransfer`, CSS classes and `parseInt` yielding `NaN` (src/hooks/useDragAndDrop.ts:11-27) are not modelled.
- RequestList.RequestListView.NextPage requires more than one page. The button exists only then (src/components/RequestList.tsx:170).
- `localeCompare` is a code-point lexicographic order. Locale collation is not modelled; the proofs use only that it is a total order.
- `Array.prototype.sort` is a stable insertion sort on values. The in-place sort of the timezone list is modelled on sequences.
- Timezones.GetTimezoneInfo takes the `Intl` offset and abbreviation as an input reading, and any exception as a missing reading (src/components/AccountSettingsDialog.tsx:27-31,45-48). Offsets are whole minutes.
- `formatInTimezone` (src/utils/timeUtils.ts:40-44) depends on `Intl` and is not part of this model.
- Floating point is `real`: hours, `Math.floor` and `Math.round` are exact. Rounding error is not modelled.
- The averaging in src/components/CompletionStats.tsx is not part of this model.
- The interval timers of src/components/TaskTimer.tsx and src/components/TimeTracker.tsx are not part of this model. Their arithmetic is `CalculateTimeElapsed`.
- The toggle in src/components/TaskCollaborators.tsx is the one of `TaskUserSelect`, followed by a remote write; it is modelled once.
- Authentication, users, roles, categories, subtasks and company modules, and `updateUserPermissions`/`updateTaskUsers`, are not part of this model.
- Rendering, badges, dialogs and forms are not modelled beyond the view guards and the option label.

## Findings

| source | as written | input that shows it | evidently intended | confidence | as-written member | corrected member |
|---|---|---|---|---|---|---|
| src/utils/timeUtils.ts:29-38 | minutes are rounded after the whole hours are taken off, and a rounded 60 is not carried into the hour | `formatDuration(1.999)` gives `1h 60m` | `2h 0m`: minutes in [0, 59] with hours and minutes making up the rounded minutes | not executed | TimeUtils.FormatDurationDoesNotCarry | TimeUtils.FormatDurationCarriedExamples |
