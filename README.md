# Police shift scheduling: the scheduling and roster core, in Dafny

This project models the scheduling and roster logic of a police shift-scheduling app, and
proves properties of that model. The app plans patrol shifts, assigns officers to them with a
beat and a patrol car each, and handles officers' time off against their paid-time-off (PTO)
balances.

The model covers:

- **The schedule store** (`ScheduleStore`, `schedule_store.dfy`). It holds the cached shifts,
  a loading flag and an error text. It writes to two tables, `shifts` and `shift_assignments`.
  - Fetching joins the assignment rows onto the shift rows and decodes the recurrence columns.
  - The writes are: add a shift, patch a shift field by field, replace all of a shift's
    assignments, delete a shift, assign one officer, and remove one officer.
  - The date rule of `getShiftsByDate` and the officer filter of `getShiftsByOfficer`.
- **The time-off store and PTO ledger** (`TimeOffStore`). It holds the request cache,
  request/approve/deny writes, the clamped balance update, and the conversion of a shift into
  approved time off.
- **Roster display and editing**:
  - `RosterTable`: the read-only roster.
  - `EditableRosterTable`: the editable roster and its picker state.
  - `RosterEdit`: the screen that edits every roster of a date and saves them.
- **Shift creation**:
  - `CreateShift`: the form and the record it submits.
  - `OfficerSelector`: the searchable officer list.
- **Calendar helpers** (`DateUtils`) and the officer's own schedule (`MySchedule`).
- **Avatar initials** (`OfficerAvatar`).

Supporting modules:

- `ScheduleTypes` holds the app's entities: shifts with an optional recurrence block, officer
  assignments, officers, beats, patrol cars, time-off requests and table rows.
- `Backend` holds the tables as an in-memory `Database` object.
- `Seqs` holds `Array.prototype.filter` and a sort by key, with their lemmas.
- `Wrappers` holds `Option`.

Every call to the Data Store takes its success or failure as an explicit `Reply` input. A
failed call changes no table. Clock readings and generated ids are parameters.

**Time.** An instant is an integer number of milliseconds since the epoch. A calendar day is a
day number.

- Local time is taken to be UTC, with no daylight saving.
- Under that one calendar, the `YYYY-MM-DD` key that `toISOString()` gives equals the local
  calendar day. That key is the full-date of RFC 3339 section 5.6.
- The source mixes the two: in `getShiftsByDate` (store/scheduleStore.ts:386-402) the date key
  is the UTC day, but the weekday is the local `getDay()`. Near midnight, in a zone other than
  UTC, the two can name different days. The model does not capture that.
- Months follow the Gregorian leap rule of RFC 3339 Appendix C.

**The recurrence fields do not mean what their documentation says; the model follows the code.**
The field comments (types/schedule.ts:58-66) document `interval` as "every X days/weeks/months",
`endsOn` as the end of the recurrence (null for never) and `exceptions` as dates to skip. The
date rule of `getShiftsByDate` (store/scheduleStore.ts:384-407) does not do that:

- It lists a `daily` shift on every date, including dates before it starts.
- It never consults `endsOn`, `exceptions` or `interval`.
- It lists `biweekly`, `monthly` and `custom` shifts only on their start day.

## Model

| member | source | states |
|---|---|---|
| Backend.ErrorText | store/scheduleStore.ts:97-101 | An `Error` gives its message; any other thrown value gives the operation's fallback text |
| Backend.Database.constructor | types/database.ts:62-205 | The tables start as given |
| Seqs.Filter | store/scheduleStore.ts:411-415 | The result keeps exactly the elements satisfying the test: membership iff, multiplicities kept, nothing longer than the input |
| Seqs.FilterIsSubseq | store/scheduleStore.ts:411-415 | A filter keeps the input's order (the result is a subsequence) |
| Seqs.FilterPartition | components/RosterTable.tsx:35-37 | A test and its negation split a list: the multisets add up to the input and the lengths add up |
| Seqs.Insert | store/scheduleStore.ts:43-46 | Inserting into a sorted list keeps it sorted and adds exactly that element |
| Seqs.SortBy | store/scheduleStore.ts:43-46 | Ascending order by key, and a permutation of the input |
| Seqs.InsertTies | store/scheduleStore.ts:43-46 | Among the elements with any one key, an inserted element comes first and the others keep their order |
| Seqs.SortByStable | app/my-schedule.tsx:78-80 | The sort is stable: for every key, the elements with that key come out in their input order |
| Seqs.SortByMembers | store/timeOffStore.ts:33-36 | Sorting neither adds nor drops an element |
| ScheduleTypes.FindAssignment | components/EditableRosterTable.tsx:39 | `find` by officer: none iff no entry has the officer; otherwise the entry at the officer's first index |
| ScheduleTypes.FindBeat | components/RosterTable.tsx:45 | `find` by id: none iff no beat has the id; otherwise the beat at the first index with that id |
| ScheduleTypes.FindCar | components/RosterTable.tsx:51 | `find` by id: none iff no car has the id; otherwise the car at the first index with that id |
| ScheduleTypes.FindOfficer | components/RosterTable.tsx:108-110 | A time-off row shows the first officer in the directory with that id, and nothing iff the directory has no such officer |
| DateUtils.Weekday | store/scheduleStore.ts:402 | `getDay()` is in 0..6 |
| DateUtils.StartOfDay | utils/dateUtils.ts:42-46 | Same calendar day at 00:00:00.000, at most the input and within a day of it |
| DateUtils.EndOfDay | utils/dateUtils.ts:48-52 | Same calendar day at 23:59:59.999, at least the input, the last millisecond after the start of the day |
| DateUtils.AddDays | utils/dateUtils.ts:54-58 | Moves the calendar day by `days` and keeps the time of day |
| DateUtils.AddHours | utils/dateUtils.ts:60-64 | Advances by exactly `hours` hours |
| DateUtils.AddDaysInverse | utils/dateUtils.ts:54-58 | `addDays(addDays(d, n), -n) == d` and `addDays(d, 0) == d` |
| DateUtils.HoursMakeDays | utils/dateUtils.ts:54-64 | `addHours(d, 24n) == addDays(d, n)` |
| DateUtils.DayBounds | utils/dateUtils.ts:42-52 | `startOfDay(d) <= d <= endOfDay(d)`, all on the same day |
| DateUtils.WeekDates | utils/dateUtils.ts:66-81 | Seven consecutive days starting on a Sunday, each at the input's time of day, with the input at its weekday's index |
| DateUtils.WeekdayPeriodic | utils/dateUtils.ts:66-81 | Whole weeks keep the weekday |
| DateUtils.NextWeekday | utils/dateUtils.ts:66-81 | Every seven consecutive days hold each weekday |
| DateUtils.DaysInMonth | utils/dateUtils.ts:86 | 28 to 31 days, with February at 29 exactly in leap years |
| DateUtils.YearLength | utils/dateUtils.ts:86 | A year has 366 days exactly when it is a leap year, otherwise 365 |
| DateUtils.MonthLength | utils/dateUtils.ts:83-88 | The month that `new Date(year, month, 1)` normalises to has 28 to 31 days |
| DateUtils.DayZeroIsLastDay | utils/dateUtils.ts:86 | Day 0 of the next month is the month's last day |
| DateUtils.MonthDates | utils/dateUtils.ts:83-93 | Days 1..N of the month at midnight, in order, each one day after the previous, N being the month's length |
| ScheduleStore.RowsOfShift | store/scheduleStore.ts:58 | Exactly the shift's assignment rows |
| ScheduleStore.DecodeRecurrence | store/scheduleStore.ts:80-91 | A block iff `is_recurring`; a null or 0 interval becomes 1, null exceptions become `[]`, the other columns are copied |
| ScheduleStore.DecodeShift | store/scheduleStore.ts:57-94 | The row's fields, `officers[i] == assignments[i].officerId`, and one entry per join row of the shift, in table order |
| ScheduleStore.OfficerIds | store/scheduleStore.ts:59 | One officer id per row, in order |
| ScheduleStore.JoinShifts | store/scheduleStore.ts:43-94 | Every shift row decoded, in ascending start order; as a multiset, exactly one decoded shift per row, so a repeated row gives repeated shifts and nothing else |
| ScheduleStore.EncodeShift | store/scheduleStore.ts:111-131 | Recurrence columns are written iff the shift has a block, otherwise null; `created_by` is the fixed placeholder |
| ScheduleStore.AssignedRows | store/scheduleStore.ts:137-142 | One `assigned` row per entry, in order, carrying the entry |
| ScheduleStore.WithoutShift | store/scheduleStore.ts:193-196 | The join table minus exactly the shift's rows |
| ScheduleStore.WithoutOfficer | store/scheduleStore.ts:276-286 | The join table minus exactly the rows matching both ids, order kept |
| ScheduleStore.WithoutShiftRow | store/scheduleStore.ts:238-241 | The shifts table minus exactly the row with that id |
| ScheduleStore.WriteRecurrence | store/scheduleStore.ts:174-181 | A block sets `is_recurring` (an absent one never clears it) and writes its interval and each field it carries; other columns keep their values |
| ScheduleStore.PatchRow | store/scheduleStore.ts:164-181 | Title and color only when non-empty, type/start/end when given, location/notes whenever given, id and creator untouched |
| ScheduleStore.PatchRows | store/scheduleStore.ts:183-186 | Only the row with the id is patched; the table keeps its length |
| ScheduleStore.ShiftsByDate | store/scheduleStore.ts:385-409 | The cached shifts occurring on the date, in cache order |
| ScheduleStore.ShiftsByOfficer | store/scheduleStore.ts:411-415 | Exactly the cached shifts listing the officer, in cache order |
| ScheduleStore.OccursOnCases | store/scheduleStore.ts:385-409 | Start day always matches; `daily` always; `weekly` iff the weekday is listed; every other case never |
| ScheduleStore.RuleIgnoresBounds | store/scheduleStore.ts:394-405 | `endsOn`, `exceptions` and `interval` never change the result |
| ScheduleStore.DailyHasNoBounds | store/scheduleStore.ts:397-399 | A `daily` shift occurs on every date, before its start too |
| ScheduleStore.WeeklyRepeats | store/scheduleStore.ts:401-404 | A `weekly` shift on a listed weekday recurs every whole number of weeks |
| ScheduleStore.OtherPatternsOnlyStartDay | store/scheduleStore.ts:394-407 | `biweekly`, `monthly`, `custom` (or no pattern) occur only on the start day |
| ScheduleStore.TrafficControlDays | mocks/shifts.ts:39-55 | The weekly Mon/Wed/Fri fixture is listed on every Monday, Wednesday and Friday, and on no other day except its first |
| ScheduleStore.TrafficControlOutlivesEndsOn | mocks/shifts.ts:39-55 | The fixture is still listed on a date after its `endsOn` |
| ScheduleStore.RowsOfFreshShift | store/scheduleStore.ts:136-149 | A shift's inserted rows are exactly its rows when it had none before |
| ScheduleStore.DecodeAssigned | store/scheduleStore.ts:57-65 | Join rows built from a list decode back to the list and its officers |
| ScheduleStore.AddThenDecode | store/scheduleStore.ts:105-149 | Add-then-fetch round trip: the same shift, one bare entry per officer, the recurrence block back with normalised interval and exceptions |
| ScheduleStore.ReplaceRoundTrip | store/scheduleStore.ts:294-319 | After a replace-all the shift has exactly one `assigned` row per entry and decodes to the list; an empty list leaves no rows |
| ScheduleStore.ReplaceKeepsOthers | store/scheduleStore.ts:294-319 | A replace-all leaves every other shift's rows and decoding unchanged |
| ScheduleStore.WithoutShiftSplit | store/scheduleStore.ts:193-196 | Deleting a shift's rows removes exactly what was appended for it |
| ScheduleStore.ReplaceIdempotent | store/scheduleStore.ts:294-319 | Repeating a replace-all gives the rows of the last call alone (they differ only in their timestamp) |
| ScheduleStore.AfterReplaceSucceeds | store/scheduleStore.ts:191-216 | When the delete and (for a non-empty list) the insert succeed, the rows are the replace-all |
| ScheduleStore.DeleteLeavesNothing | store/scheduleStore.ts:227-252 | After the delete no join row and no shift row has the id |
| ScheduleStore.RemoveKeepsOthers | store/scheduleStore.ts:276-292 | Removing an officer from one shift leaves every other shift's rows as they were |
| ScheduleStore.RowsOfShiftAppend | store/scheduleStore.ts:256-264 | An appended row of a shift becomes the shift's last row |
| ScheduleStore.AssignAppends | store/scheduleStore.ts:254-274 | `assignOfficer` appends the officer to the decoded list, even when already listed |
| ScheduleStore.PatchNothing | app/roster/edit.tsx:41-44 | An assignments-only patch changes no shift column |
| ScheduleStore.PatchIdempotent | store/scheduleStore.ts:164-188 | Patching twice with the same patch is patching once |
| ScheduleStore.Store.constructor | store/scheduleStore.ts:33-37 | Empty cache, not loading, no error |
| ScheduleStore.Store.FetchShifts | store/scheduleStore.ts:39-103 | On success the cache is replaced wholesale by the join and the error cleared; on failure the cache stays and the error is set; loading ends either way |
| ScheduleStore.Store.AddShift | store/scheduleStore.ts:105-158 | The shift row, then the join rows only if the row insert succeeded; a failed join insert keeps the row; on success the refetched cache holds the decoded shift |
| ScheduleStore.Store.InsertShiftRows | store/scheduleStore.ts:111-149 | The two inserts and the error of the first that failed |
| ScheduleStore.Store.UpdateShift | store/scheduleStore.ts:160-225 | The row patch; the assignments are untouched when the row update fails or none are given; otherwise delete-then-insert; errors and refetch |
| ScheduleStore.Store.WriteShiftUpdate | store/scheduleStore.ts:183-216 | The row update, then the replace-all, and the error that stops them |
| ScheduleStore.Store.DeleteShift | store/scheduleStore.ts:227-252 | Join rows deleted first (their failure unchecked), then the shift row; a failed row delete keeps the row but not the join rows |
| ScheduleStore.Store.AssignOfficer | store/scheduleStore.ts:254-274 | Appends one `assigned` row with its assigner, with no duplicate check; only the error changes on failure |
| ScheduleStore.Store.RemoveOfficerFromShift | store/scheduleStore.ts:276-292 | Deletes only the rows matching both ids |
| ScheduleStore.Store.UpdateAssignments | store/scheduleStore.ts:294-327 | Replace-all of the shift's rows, other tables untouched; the error only when a non-empty insert fails |
| ScheduleStore.Store.ReplaceJoinRows | store/scheduleStore.ts:191-216 | Unchecked delete, then a checked insert of a non-empty list; fails iff that insert fails |
| ScheduleStore.Store.PatchShiftRows | store/scheduleStore.ts:183-186 | Only the shifts table changes, by the patch |
| ScheduleStore.Store.DeleteJoinRows | store/scheduleStore.ts:231-235 | Removes the shift's join rows when the delete succeeds, nothing otherwise |
| ScheduleStore.Store.ClearError | store/scheduleStore.ts:417 | Clears the error and nothing else |
| TimeOffStore.FetchedRequests | store/timeOffStore.ts:33-43 | Ascending by date; exactly the requests on the given day, or all of them |
| TimeOffStore.TimeOffByDate | store/timeOffStore.ts:212-217 | Only approved requests on that day, in cache order |
| TimeOffStore.TimeOffByOfficer | store/timeOffStore.ts:219-223 | All of the officer's requests, of every status, in cache order |
| TimeOffStore.SetDecision | store/timeOffStore.ts:99-106 | Writes status, approver and time to the row with that id, whatever its status; other rows and columns are unchanged |
| TimeOffStore.LastDecisionWins | store/timeOffStore.ts:95-141 | A second decision overrides the first |
| TimeOffStore.WithBalance | store/timeOffStore.ts:199-202 | Writes `<type>_balance` and no other balance |
| TimeOffStore.ClampedBalance | store/timeOffStore.ts:195-196 | Never negative; a missing balance counts as 0; exactly `current + delta` when that is not negative, else 0 |
| TimeOffStore.DeductionsCompose | store/timeOffStore.ts:195-196 | Two deductions leave what one deduction of their sum leaves |
| TimeOffStore.AdjustedBalances | store/timeOffStore.ts:182-204 | Only that officer's `<type>_balance` changes, to the clamped sum |
| TimeOffStore.AdjustKeepsNonNegative | store/timeOffStore.ts:195-196 | Non-negative balances stay non-negative |
| TimeOffStore.Store.constructor | store/timeOffStore.ts:25-27 | Empty cache, not loading, no error |
| TimeOffStore.Store.FetchTimeOffRequests | store/timeOffStore.ts:29-67 | On success the cache is the ordered (date-restricted) table; on failure it stays and the error is set |
| TimeOffStore.Store.RequestTimeOff | store/timeOffStore.ts:69-93 | Inserts one `pending` request, then refetches; a failed insert only sets the error |
| TimeOffStore.Store.ApproveTimeOff | store/timeOffStore.ts:95-117 | The decision write `approved`, no balance touched |
| TimeOffStore.Store.DenyTimeOff | store/timeOffStore.ts:119-141 | The decision write `denied`, no balance touched |
| TimeOffStore.Store.UpdateOfficerPtoBalance | store/timeOffStore.ts:182-210 | Writes `max(0, current + delta)` to one column of one officer; a failed read or write sets the error and changes no balance |
| TimeOffStore.Store.ConvertShiftToTimeOff | store/timeOffStore.ts:143-180 | Approved request, then delete of the officer's rows, then the 8-hour deduction, then refetch; an early failure stops the rest; nothing is rolled back |
| TimeOffStore.Store.ClearError | store/timeOffStore.ts:225 | Clears the error and nothing else |
| RosterTable.AssignedOfficers | components/RosterTable.tsx:22-24 | Directory officers listed on the shift, in directory order |
| RosterTable.SupervisorPartition | components/RosterTable.tsx:22-37 | Supervisors and regulars partition the assigned officers, order kept; the empty state iff both are empty (the same split is at components/EditableRosterTable.tsx:30-36) |
| RosterTable.AssignmentOf | components/RosterTable.tsx:39-41 | The officer's first entry, nothing without an assignment list |
| RosterTable.BeatLabel | components/RosterTable.tsx:43-47 | The beat's name, or the placeholder when the id is missing, empty or unknown |
| RosterTable.CarLabel | components/RosterTable.tsx:49-53 | The car's number, or the placeholder when the id is missing, empty or unknown |
| RosterTable.RosterRowCells | components/RosterTable.tsx:87-103 | `'-'`/`'-'`/`''` without an entry; otherwise the beat and car cells are `BeatLabel` and `CarLabel` of the entry's ids with `'-'`, and the notes are the entry's notes or `''` |
| RosterTable.GroupTimeOff | components/RosterTable.tsx:26-33 | Vacation, holiday and sick partition the date's approved time off by type |
| RosterTable.TimeOffSectionShown | components/RosterTable.tsx:197 | The section shows iff some request on that day is approved |
| EditableRosterTable.Merge | components/EditableRosterTable.tsx:50 | The update overrides its one field; the rest stays |
| EditableRosterTable.AssignmentForOfficer | components/EditableRosterTable.tsx:38-45 | The first entry for the officer, or the default: no beat, no car, notes `''` |
| EditableRosterTable.UpdateAssignment | components/EditableRosterTable.tsx:47-66 | An officer with entries has them merged, with length, order and the other entries unchanged; an absent officer gets one appended default-plus-update entry |
| EditableRosterTable.UpdateKeepsUnique | components/EditableRosterTable.tsx:47-63 | Unique officer ids stay unique |
| EditableRosterTable.LookupUpdated | components/EditableRosterTable.tsx:38-63 | After an update the officer's row shows the old entry (or default) merged with the update |
| EditableRosterTable.LookupOthers | components/EditableRosterTable.tsx:38-63 | After an update every other officer's row is unchanged |
| EditableRosterTable.FindsFirst | components/EditableRosterTable.tsx:39 | The lookup returns the entry at the officer's first index |
| EditableRosterTable.NoBeatShowsPlaceholder | components/EditableRosterTable.tsx:237 | "No Beat" stores `''`, shown as 'Select Beat' |
| EditableRosterTable.NoCarShowsPlaceholder | components/EditableRosterTable.tsx:278 | "No Car" stores `''`, shown as 'Select Car' |
| EditableRosterTable.RosterEditor.constructor | components/EditableRosterTable.tsx:26-28 | No selection, both pickers closed |
| EditableRosterTable.RosterEditor.OpenBeatModal | components/EditableRosterTable.tsx:96-99 | Selects the officer and opens the beat picker |
| EditableRosterTable.RosterEditor.OpenCarModal | components/EditableRosterTable.tsx:101-104 | Selects the officer and opens the car picker |
| EditableRosterTable.RosterEditor.HandleBeatSelect | components/EditableRosterTable.tsx:80-86 | Updates only the selected officer; nothing without a selection; the picker closes and the selection clears |
| EditableRosterTable.RosterEditor.HandleCarSelect | components/EditableRosterTable.tsx:88-94 | Same, for the car |
| EditableRosterTable.RosterEditor.DismissBeatModal | components/EditableRosterTable.tsx:223-229 | Closing the beat picker keeps the selection |
| EditableRosterTable.RosterEditor.DismissCarModal | components/EditableRosterTable.tsx:264-270 | Closing the car picker keeps the selection |
| RosterEdit.InitialEntry | app/roster/edit.tsx:28-33 | `shift.assignments` when defined, even empty; otherwise one default entry per officer, in order |
| RosterEdit.InitialAssignments | app/roster/edit.tsx:22-34 | One key per shift of the date, each holding the entry of the last shift with that id |
| RosterEdit.InitialPerShift | app/roster/edit.tsx:22-34 | With distinct ids, every shift gets exactly its own entry |
| RosterEdit.DistinctCount | app/roster/edit.tsx:41 | A list without repeats has as many ids as its set |
| RosterEdit.RosterEditScreen.constructor | app/roster/edit.tsx:18-19 | The date's shifts, no lists yet |
| RosterEdit.RosterEditScreen.Load | app/roster/edit.tsx:21-36 | Reloads the date's shifts and initialises every list |
| RosterEdit.RosterEditScreen.ListFor | app/roster/edit.tsx:96 | A shift without a list is edited from `[]` |
| RosterEdit.RosterEditScreen.UpdateAssignments | app/roster/edit.tsx:53-58 | Replaces one shift's list; every other list stays |
| RosterEdit.RosterEditScreen.SaveOrder | app/roster/edit.tsx:41 | Every shift id with a list, each exactly once |
| RosterEdit.RosterEditScreen.HandleSave | app/roster/edit.tsx:38-51 | Exactly one assignments-only update per list, then the success message whatever happens |
| RosterEdit.RosterEditScreen.EditAsWritten | app/roster/edit.tsx:17-58 | An edit, the effect running again after the render it causes, then the save: every list sent is the shift's initial list |
| RosterEdit.RerenderDropsEdit | app/roster/edit.tsx:21-36 | After the effect runs again, an edited list that differs from a shift's initial list is not the one saved for that shift |
| RosterEdit.RosterEditScreen.EditThenSave | app/roster/edit.tsx:38-58 | An edit then the save, as intended: the edited list is saved for its shift, every other list as it stood |
| CreateShift.ShiftColor | app/shifts/create.tsx:67-80 | One fixed colour per shift type |
| CreateShift.ColorsDistinct | app/shifts/create.tsx:67-80 | The map is one-to-one |
| CreateShift.WithoutOfficerId | app/shifts/create.tsx:86-88 | Every occurrence of the id removed, the rest kept in order |
| CreateShift.SelectThenRemove | app/shifts/create.tsx:82-88 | Selecting a new officer and removing them restores the selection |
| CreateShift.CreatedWeeklyListsItsWeekday | app/shifts/create.tsx:49-58 | A created weekly shift is listed exactly on its start's weekday |
| CreateShift.ShiftForm.constructor | app/shifts/create.tsx:19-29 | Opens at now, ending 8 hours later |
| CreateShift.ShiftForm.SelectOfficer | app/shifts/create.tsx:82-84 | Appends the id; every other field of the form is unchanged |
| CreateShift.ShiftForm.RemoveOfficer | app/shifts/create.tsx:86-88 | Drops every occurrence of the id; every other field of the form is unchanged |
| CreateShift.ShiftForm.OnChangeStartDate | app/shifts/create.tsx:90-102 | Takes the start; a start after the end moves the end to start + 8 h; end >= start kept; every other field of the form is unchanged |
| CreateShift.ShiftForm.OnChangeEndDate | app/shifts/create.tsx:104-113 | Takes the end only when strictly after the start, otherwise alerts and keeps it; the start and every other field of the form are unchanged |
| CreateShift.ShiftForm.HandleSave | app/shifts/create.tsx:31-65 | Nothing without a title; otherwise the form's record with the type's colour; a recurring one has interval 1, the start's weekday, an end 90 days on, no exceptions |
| OfficerSelector.LowerChar | components/OfficerSelector.tsx:23-28 | ASCII lower-casing of one character |
| OfficerSelector.Lower | components/OfficerSelector.tsx:23-28 | Lower-cases every character |
| OfficerSelector.LowerIdempotent | components/OfficerSelector.tsx:23-28 | Lower-casing twice is lower-casing once |
| OfficerSelector.Includes | components/OfficerSelector.tsx:25-27 | True iff the pattern occurs at some position |
| OfficerSelector.FilteredOfficers | components/OfficerSelector.tsx:23-28 | Listed iff name, badge or rank contains the query, ignoring case; directory order |
| OfficerSelector.EmptyQueryListsAll | components/OfficerSelector.tsx:23-28 | The empty query lists everyone |
| OfficerSelector.QueryCaseIgnored | components/OfficerSelector.tsx:23-28 | The query's case makes no difference |
| OfficerSelector.Press | components/OfficerSelector.tsx:39-45 | Exactly one callback: remove iff selected |
| OfficerSelector.PressToggles | components/OfficerSelector.tsx:39-45 | A press deselects a selected officer and selects another one once |
| OfficerSelector.TapTwiceRestores | components/OfficerSelector.tsx:39-45 | Two taps on an unselected officer restore the selection |
| OfficerSelector.SelectedCount | components/OfficerSelector.tsx:107-113 | Shown iff something is selected; singular iff exactly one |
| MySchedule.MyShifts | app/my-schedule.tsx:23-25 | The shifts listing the user, none without a user |
| MySchedule.MyShiftsOnDate | app/my-schedule.tsx:27-53 | The store's date rule restricted to my shifts |
| MySchedule.MyShiftsOnDateCommute | app/my-schedule.tsx:27-53 | Filtering by user then date equals filtering by date then user |
| MySchedule.TomorrowMidnight | app/my-schedule.tsx:56-59 | The next day at 00:00 |
| MySchedule.TodayShifts | app/my-schedule.tsx:61-66 | Shifts starting on today's day, recurrence ignored |
| MySchedule.TomorrowShifts | app/my-schedule.tsx:68-73 | Shifts starting on the next day |
| MySchedule.UpcomingShifts | app/my-schedule.tsx:75-80 | Shifts starting strictly after tomorrow's midnight, sorted by start, a permutation of those, with shifts of equal start in `myShifts` order |
| MySchedule.Sections | app/my-schedule.tsx:82-96 | Today, Tomorrow, Upcoming in that order, only the non-empty ones |
| MySchedule.TomorrowAlsoUpcoming | app/my-schedule.tsx:68-80 | A shift later on tomorrow is in both Tomorrow and Upcoming |
| MySchedule.TodayIsNotLater | app/my-schedule.tsx:61-80 | A shift of today is in neither Tomorrow nor Upcoming |
| OfficerAvatar.Split | components/OfficerAvatar.tsx:22 | `split(' ')` yields at least one piece |
| OfficerAvatar.JoinSplit | components/OfficerAvatar.tsx:22 | Joining the pieces with spaces gives back the name |
| OfficerAvatar.SplitAtSpace | components/OfficerAvatar.tsx:22 | A split at one space splits each side on its own |
| OfficerAvatar.FirstChars | components/OfficerAvatar.tsx:23-24 | At most one character per piece |
| OfficerAvatar.FirstCharsConcat | components/OfficerAvatar.tsx:23-24 | First characters distribute over concatenation |
| OfficerAvatar.FirstCharsOfWords | components/OfficerAvatar.tsx:23-24 | They are exactly the first characters of the non-empty pieces |
| OfficerAvatar.UpperChar | components/OfficerAvatar.tsx:25 | ASCII upper-casing of one character |
| OfficerAvatar.Upper | components/OfficerAvatar.tsx:25 | Upper-cases every character |
| OfficerAvatar.TakeTwo | components/OfficerAvatar.tsx:26 | The first two characters, or all when fewer |
| OfficerAvatar.Initials | components/OfficerAvatar.tsx:21-26 | At most two characters, none a lower-case ASCII letter |
| OfficerAvatar.InitialsOfFirstTwoWords | components/OfficerAvatar.tsx:21-26 | The upper-cased first characters of the first two non-empty words |
| OfficerAvatar.SplitNoSpace | components/OfficerAvatar.tsx:22 | A name without spaces is one piece |
| OfficerAvatar.OneWord | components/OfficerAvatar.tsx:21-26 | One word gives one initial |
| OfficerAvatar.EmptyName | components/OfficerAvatar.tsx:21-26 | The empty name gives `''` |
| OfficerAvatar.LeadingSpace | components/OfficerAvatar.tsx:22-24 | Leading spaces contribute nothing |
| OfficerAvatar.RepeatedSpace | components/OfficerAvatar.tsx:22-24 | Repeated spaces count as one |

## Left out

- `TimeOffStore.ClampedBalance`, `TimeOffStore.AdjustedBalances` and
  `TimeOffStore.Store.UpdateOfficerPtoBalance`: the balance columns (types/database.ts:23-25)
  and the `hours` delta (store/timeOffStore.ts:182, 196) are JavaScript numbers. The model takes
  them to be whole numbers (`int`), so fractional hours and balances, and floating-point
  rounding, are not modelled.
- `DateUtils.AddDays` and `DateUtils.AddHours`: `days` and `hours` are whole numbers. The
  truncation that `setDate`/`setHours` (utils/dateUtils.ts:54-64) apply to a fractional
  argument is not modelled.
- Time zones and daylight saving: local time is UTC. The UTC date key and local weekday of
  `getShiftsByDate` (store/scheduleStore.ts:386-402) therefore always agree in the model.
- Locale formatting: `formatDate`, `formatTime`, `formatDateTimeRange`, `getDayName`,
  `getMonthName` (utils/dateUtils.ts:3-40, 95-101) and the screens' `toLocale*` calls.
- Swap requests (store/scheduleStore.ts:329-383): unconditional single-column status writes.
- Authentication, the fetch hooks for officers, beats and cars, and the Data Store client
  itself. Its outcomes are the `Reply` inputs. Database constraints (a foreign key a join row
  violates, say) show up only as a failed `Reply`.
- Async interleaving: every store call runs to completion before the next starts. The
  un-awaited calls of app/shifts/create.tsx:59-64 and app/roster/edit.tsx:41-47 are
  sequential here.
- Navigation (`router.back`), alerts as dialogs, modals, loading and error views, picker
  visibility per platform, rendering and styles, and the avatar's size arithmetic.
- `ScheduleStore.PatchRow`: a patch field is either absent or carries a value. JavaScript's
  `null` versus `undefined` and the falsy checks on type and start/end strings are collapsed
  into "given". An absent recurrence field sends no key, so its column keeps its value.
- `ScheduleStore.Store.AddShift`: the recurring test `'recurrence' in shift` is taken as
  "the shift has a recurrence block".
- `TimeOffStore.Store.UpdateOfficerPtoBalance`: requires that a successful read names an
  officer with a row, because `.single()` fails when there is none. A missing officer is a
  failed read here.
- `TimeOffStore.Store.ConvertShiftToTimeOff`: the request id and the request time of the
  inserted row are parameters. The database generates them.
- `RosterEdit.RosterEditScreen.HandleSave`: returns the `updateShift` calls it issues rather
  than running them, and does not fix their order. `Object.entries` order is not modelled.
  What each call does is `ScheduleStore.Store.UpdateShift`.
- `CreateShift.ShiftForm.HandleSave`: returns the record rather than calling `addShift`,
  whose effect is `ScheduleStore.Store.AddShift`.
- `CreateShift.ShiftForm.constructor`: the two `new Date()` readings of the initial state are
  taken to be the same instant.
- `OfficerSelector.Lower` and `OfficerAvatar.Upper`: ASCII letters only. There is no Unicode
  case mapping.
- The search text of OfficerSelector, the current instant of the my-schedule screen, and the
  ids and timestamps the stores stamp on rows are parameters.
- `Backend.Database`: a select without `.order(...)` is taken to return rows in insertion
  order; PostgreSQL promises no order there. The order of the join rows of
  store/scheduleStore.ts:50-52 therefore rests on this assumption: the order of a fetched
  shift's `officers` and `assignments` in `ScheduleStore.DecodeShift`, and the exact list
  equalities of `ScheduleStore.AddThenDecode` and `ScheduleStore.ReplaceRoundTrip`. Up to
  order (as multisets) they hold whatever order the database returns.
- `RosterEdit.RosterEditScreen.Load`: the screen's state is modelled with the effect run once,
  so `UpdateAssignments` and `HandleSave` describe the screen as intended. In the code,
  `selectedDate` is a new `Date` on every render (app/roster/edit.tsx:17) and is the effect's
  only dependency (:36). The effect therefore runs again after every render and puts back the
  initial lists. `RosterEdit.RosterEditScreen.EditAsWritten` models that; see Findings.
- The schedule store's `assignments` and `swapRequests` caches: no modelled action fills or
  reads them.
- An officer's optional `isSupervisor` is a `bool`, with an absent flag taken as `false`
  (which is how `!officer.isSupervisor` reads it).

## Findings

| source | as written | input that shows it | evidently intended | confidence | as-written member | corrected member |
|---|---|---|---|---|---|---|
| app/roster/edit.tsx:17-36 | `selectedDate` is built anew on every render and is the effect's only dependency, so the effect runs after every render and resets every list to its initial value | a date with one shift that has no `assignments` and officer `o1`; pick a beat for `o1`; the re-render resets the list to the entry without a beat, and Save sends that | edits survive until Save, which sends the edited list for each shift | medium, not executed (rests on React comparing dependencies by identity) | RosterEdit.RosterEditScreen.EditAsWritten, RosterEdit.RerenderDropsEdit | RosterEdit.RosterEditScreen.EditThenSave |
