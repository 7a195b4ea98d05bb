# Task and event dashboard: a Dafny model

This project models the logic of a small field-work dashboard. The dashboard
keeps its data in a hosted document store. Its core is:

- the **task workflow**: tasks belong to an account (tenant), are assigned to
  a user and are completed by submitting a file. This covers the tenant check,
  idempotent submission, partial updates, creation, deletion, the pending-task
  listing and the pending/completed counters;
- the **month-scoped event calendar**: the month window of the store queries,
  the admin and employee listings, create/update/delete of events, the
  employee list, the admin calendar's local list maintenance and month
  navigation, and the month grid with per-day buckets;
- the **monthly counter table**: cell edits clamped so that a completed
  counter never exceeds its programmed counter, delete by id, and pagination
  four rows at a time;
- the **form validators** of the create-event and edit-event modals, the
  create-task dialog and the sign-in / sign-up form.

Timestamps are integer civil date-times `(year, month, day, hour, minute,
second)`. Months are 0-indexed, as JavaScript's `getMonth()` counts them. They
are ordered lexicographically and have Gregorian month lengths and weekdays.
The hosted store becomes classes holding maps plus a sequence of ids in
listing order (`TaskActions.TaskStore`, `EventActions.EventStore`). The
signed-in user, fresh document ids, the clock and the outcome of each server
call are parameters.

Modules, one per file: `Wrappers` (Option/Result), `JsString` (trimming,
`parseInt`, decimal rendering, UTF-16 length, split/join, string order),
`CivilTime`, `Sorting` (stable insertion sort, filter, take), `DocumentStore`
(map plus id order), `TaskActions`, `EventActions`, `CalendarEvent`,
`MonthlyTable`, `MonthCalendar`, `AdminCalendar`, `EventForms`, `TaskDialog`,
`AuthForm`.

Two behaviours of the code are worth noting:

- `createEvent` and `updateEvent` do no end-after-start check
  (`EventActions.CreateAcceptsAnyOrder`).
- A completed task can be set back to pending through `updateTask`
  (`TaskActions.ReopenCompleted`).

## Model

| member | source | states |
|---|---|---|
| TaskActions.StatusNameRoundTrip | lib/actions/task.actions.ts:13 | Each of the two declared statuses is written by its name and read back from it. The name of any other status does not pass the guard. |
| TaskActions.StatusOf | lib/actions/task.actions.ts:13 | Any string a task document holds as its status is read as the status with that name. It is a declared status exactly when it passes the guard. |
| TaskActions.StatusOfName | lib/actions/task.actions.ts:13 | Status values and status strings correspond one to one, so a stored "pendiente" or "completada" is always the declared status. |
| TaskActions.StatusFromName | lib/actions/task.actions.ts:13 | A name is read as a status only if it is that status's name. |
| TaskActions.AssertTaskAccess | lib/actions/task.actions.ts:49-53 | A missing task gives TASK_NOT_FOUND. A task of another account gives FORBIDDEN. Access is granted exactly when the task exists and its account is the caller's. |
| TaskActions.TaskStore.AccessError | lib/actions/task.actions.ts:127-138 | Submit, update and delete go on exactly when a user is signed in, the task exists and it belongs to that user's account. No user gives "User not found". An unknown id gives the store's own not-found error from `getDocument`, never TASK_NOT_FOUND. |
| TaskActions.TaskStore.SubmitTask | lib/actions/task.actions.ts:115-198 | A failed check writes nothing. A completed task is returned unchanged with nothing written. Otherwise the caller's existing submission is reused, or a new one is recorded with taskid, "file", fileId, the user's id and account. Then only the task's status becomes "completada". At most one submission per (task, user) is kept. A task counts as completed exactly when its status string is "completada". |
| TaskActions.TaskStore.SubmitTwice | lib/actions/task.actions.ts:142-163 | A second submit right after a successful one, with the same file or another, finds the task completed and changes nothing. After both calls the store holds only the first call's effect: the completed task, plus at most one new submission under the first fresh id. |
| TaskActions.AddSubmission | lib/actions/task.actions.ts:149-177 | Recording a submission for a (task, user) pair that has none keeps one submission per pair. |
| TaskActions.DeadlineIso | lib/actions/task.actions.ts:286 | A deadline of the form YYYY-MM-DD converts exactly when it is a valid date. |
| TaskActions.DeadlineIsoIsMidnight | lib/actions/task.actions.ts:286 | A converted deadline is the ISO timestamp of midnight UTC of that day. |
| TaskActions.DeadlineIsoOfDate | lib/actions/task.actions.ts:286 | A date written as YYYY-MM-DD converts to that day's midnight. |
| TaskActions.NewTask | lib/actions/task.actions.ts:265-317 | The errors come in order: no user, an unreadable deadline, then an assignee id that names no user. A created task has the fresh id, the caller's account as `accountid`, the caller as `createdBy` and the assignee's document id. The other fields are as given, and an empty deadline is left out. |
| TaskActions.TaskStore.CreateTask | lib/actions/task.actions.ts:265-317 | The store gains exactly the new task at the end of the listing, or nothing on an error. |
| TaskActions.PatchOf | lib/actions/task.actions.ts:352-361 | The payload carries only the truthy arguments: a status is carried exactly when it is given and not the empty string. It is empty exactly when none is supplied. It fails only on an unreadable deadline. |
| TaskActions.TaskStore.BuildPayload | lib/actions/task.actions.ts:352-357 | Filling the payload field by field from the truthy arguments yields exactly the payload `TaskActions.PatchOf` describes, or its deadline error. |
| TaskActions.PatchFrame | lib/actions/task.actions.ts:352-357 | Applying the payload changes only the supplied fields, so an empty status keeps the old one. Id, account and creator never change. |
| TaskActions.ApplyPatch | lib/actions/task.actions.ts:364-369 | The stored task keeps its id, account and creator. A supplied status or deadline replaces the old one. |
| TaskActions.ApplyEmptyPatch | lib/actions/task.actions.ts:359-361 | The empty payload leaves the task as it is. |
| TaskActions.ApplyPatchIdempotent | lib/actions/task.actions.ts:364-369 | Sending the same update twice is the same as sending it once. |
| TaskActions.ReopenCompleted | lib/actions/task.actions.ts:355 | A completed task can be set back to "pendiente". |
| TaskActions.TaskStore.UpdateTask | lib/actions/task.actions.ts:321-376 | The access check runs before any write. With no truthy argument, an empty status included, the task is returned and nothing is written. Otherwise exactly that task becomes the patched task. |
| TaskActions.TaskStore.DeleteTask | lib/actions/task.actions.ts:380-414 | After the access check, exactly that task leaves the store and the listing order, with the rest in order. Submissions stay. |
| TaskActions.RemoveTask | lib/actions/task.actions.ts:403-407 | After a delete, the task listing is the old listing without that task, in order. |
| TaskActions.SortOrder | lib/actions/task.actions.ts:76-79 | An empty sort spec asks for no order. Otherwise the attribute is the part of the spec before the first "-". |
| TaskActions.SortOrderOfSpec | lib/actions/task.actions.ts:76-79 | A spec written as attribute-asc or attribute-desc reads back as that attribute and direction. |
| TaskActions.DefaultSortOrder | lib/actions/task.actions.ts:58-59 | The default spec orders by deadline, ascending. |
| TaskActions.TaskLePreorder | lib/actions/task.actions.ts:78 | Ordering by any attribute, in either direction, is a total preorder. |
| TaskActions.DisplayName | lib/actions/task.actions.ts:93-100 | A name is the referenced user's non-empty full name, or the fallback. |
| TaskActions.PendingTasks | lib/actions/task.actions.ts:57-111 | The listing fails exactly when nobody is signed in, or when the sort names an attribute the store does not know. |
| TaskActions.PendingTasksShape | lib/actions/task.actions.ts:70-105 | `total` counts every pending task of the account, that is, every task whose status string is "pendiente". The documents are the first `limit` of them in sort order, with names resolved. |
| TaskActions.PendingTasksSound | lib/actions/task.actions.ts:70-74 | Only the caller's account's pending tasks are listed, and at most `limit` of them. |
| TaskActions.PendingTasksNames | lib/actions/task.actions.ts:88-102 | A missing assignee name shows as "Sin asignar" and a missing creator name as "Admin". |
| TaskActions.PendingTasksOrdered | lib/actions/task.actions.ts:76-79 | With a sort spec, the listing is ordered by that attribute in that direction. |
| TaskActions.PendingTasksComplete | lib/actions/task.actions.ts:70-74 | When all matches fit under the limit, each pending task of the account is listed exactly once. |
| TaskActions.TaskCounters | lib/actions/task.actions.ts:202-231 | The counters fail exactly when nobody is signed in. `pending` is the number of the account's "pendiente" tasks and `completed` the number of its "completada" tasks. Together they are the account's tasks minus those with an undeclared status. |
| TaskActions.CountersPartition | lib/actions/task.actions.ts:209-227 | Pending plus completed plus the tasks with an undeclared status is the number of the account's tasks. Pending plus completed equals that number exactly when every status of the account is declared. |
| TaskActions.PendingNameCounted | lib/actions/task.actions.ts:209-221 | A task of the account whose status string is "pendiente" adds one to the pending counter and nothing to the completed one. |
| TaskActions.UndeclaredStatusUncounted | lib/actions/task.actions.ts:215-221 | A task stored with an undeclared status, any string other than "pendiente" and "completada" such as "completeda", is one more task of the account but is counted by neither counter. |
| TaskActions.TaskStore.PendingTasksForCurrentUser | lib/actions/task.actions.ts:57-111 | The store's listing fails with "User not found" exactly when nobody is signed in. Otherwise `total` is the number of the account's pending tasks in the store. |
| TaskActions.TaskStore.Counters | lib/actions/task.actions.ts:202-231 | The store's counters fail exactly when nobody is signed in. `pending` and `completed` are the numbers of the account's "pendiente" and "completada" tasks in the store. |
| CivilTime.LeTotalOrder | lib/actions/events.actions.ts:152-153 | The order of date-times is total, transitive and antisymmetric. |
| CivilTime.InMonthWindowIff | lib/actions/events.actions.ts:138-146 | A valid date-time lies between day 1 00:00:00 and the last day 23:59:59 of a month, with month 11 rolling into the next year, exactly when it belongs to that month. |
| CivilTime.MonthWindowsDisjoint | lib/actions/events.actions.ts:138-146 | Different months have disjoint windows. |
| CivilTime.NextDayWeekday | components/month-calendar.tsx:26 | The next day's weekday is one more, modulo seven. |
| CivilTime.DateRoundTrip | components/edit-event-modal.tsx:61 | A date written as YYYY-MM-DD reads back as that date. |
| CivilTime.TimeRoundTrip | components/edit-event-modal.tsx:65-71 | A time written as HH:MM reads back as that time. |
| CivilTime.ParseDateTimeRoundTrip | components/edit-event-modal.tsx:61-71 | A date and time written as the form fields read back as the same date-time. |
| EventActions.NewEvent | lib/actions/events.actions.ts:37-70 | Creation fails exactly without a user or without valid instants. The event stores the six given fields and gets the creator's account. |
| EventActions.CreateAcceptsAnyOrder | lib/actions/events.actions.ts:51-60 | An event whose end precedes its start is still created: the server does no order check. |
| EventActions.UpdateFrame | lib/actions/events.actions.ts:82-94 | An update overwrites exactly title, category, start, end, userId and userName. The id and accountId stay. Repeating it changes nothing more. |
| EventActions.EventStore.CreateEvent | lib/actions/events.actions.ts:37-70 | The store gains exactly the new event at the end of the listing, or nothing on an error. |
| EventActions.EventStore.UpdateEvent | lib/actions/events.actions.ts:76-102 | A missing id or an invalid time writes nothing. Otherwise only that event is updated. |
| EventActions.EventStore.DeleteEvent | lib/actions/events.actions.ts:108-124 | Only the given id is removed, and "Evento eliminado" is returned. A missing id is an error. |
| EventActions.StartLePreorder | lib/actions/events.actions.ts:153 | Ordering events by start is a total preorder. |
| EventActions.Listing | lib/actions/events.actions.ts:148-156 | A listing holds as many events as are eligible, cut at 100. |
| EventActions.ListingKeepsEarliest | lib/actions/events.actions.ts:148-156 | When more than 100 events are eligible, every listed event starts no later than every eligible event left out. |
| EventActions.EventsByMonth | lib/actions/events.actions.ts:132-164 | The admin month listing has at most 100 events, each from the store and starting in the month window. |
| EventActions.ListingSound | lib/actions/events.actions.ts:148-156 | A listing has at most 100 events, all eligible and from the store, in ascending start order. |
| EventActions.ListingComplete | lib/actions/events.actions.ts:148-156 | When at most 100 events are eligible, the listing holds each of them exactly once. |
| EventActions.EventsByMonthSound | lib/actions/events.actions.ts:132-164 | The admin listing holds only events starting in the month window, in start order, at most 100 of them. There is no account or user filter. |
| EventActions.CurrentUserEventsByMonth | lib/actions/events.actions.ts:170-208 | The employee listing fails exactly when nobody is signed in. |
| EventActions.CurrentUserEventsSound | lib/actions/events.actions.ts:193-202 | The employee listing holds only the caller's events in the month window, in start order, at most 100 of them. |
| EventActions.ListingWithin | lib/actions/events.actions.ts:148-156 | With a stricter filter and no truncation, a listing is contained in the other. |
| EventActions.CurrentUserEventsWithinAdmin | lib/actions/events.actions.ts:197-198 | The employee listing of a month is contained in the admin listing of that month. |
| EventActions.FullNameLePreorder | lib/actions/events.actions.ts:222 | Ordering users by full name is a total preorder. |
| EventActions.ToEmployees | lib/actions/events.actions.ts:229-232 | Each user maps, in place, to `{id: $id, name: fullName}`. |
| EventActions.EmployeeList | lib/actions/events.actions.ts:214-238 | The employee list holds one entry per user, cut at 100. |
| EventActions.EmployeeListSound | lib/actions/events.actions.ts:214-238 | The employee list has at most 100 entries, sorted by name, each one a user's id and full name. With at most 100 users, every user is listed. |
| EventActions.EventStore.MonthEvents | lib/actions/events.actions.ts:132-164 | The store's month listing has at most 100 events, all starting in the month window. |
| EventActions.EventStore.Employees | lib/actions/events.actions.ts:214-238 | The store's employee list holds one entry per user, cut at 100. |
| CalendarEvent.EventLePreorder | components/admin-calendar.tsx:97-99 | Ordering calendar events by start is a total preorder. |
| AdminCalendar.ProcessApiEvents | components/admin-calendar.tsx:45-52 | Length and order are kept, id is `$id`, and every other field is carried over. |
| AdminCalendar.ToEventRoundTrip | components/admin-calendar.tsx:45-52 | Renaming `$id` to `id` loses nothing, in both directions. |
| AdminCalendar.ProcessApiEventsSorted | components/admin-calendar.tsx:70-77 | A listing in start order stays in start order. |
| AdminCalendar.AddGuardAsWrittenAdmitsOtherYear | components/admin-calendar.tsx:95 | The written guard admits an event of the same month in another year, which the month's listing would never hold. |
| AdminCalendar.AddGuardIsMonthWindow | components/admin-calendar.tsx:95 | The corrected guard admits an event exactly when it lies in the month window on view. |
| AdminCalendar.AddEvent | components/admin-calendar.tsx:96-100 | Adding gives one more event: the old events plus the new one. |
| AdminCalendar.AddEventSound | components/admin-calendar.tsx:96-100 | Adding keeps every old event plus the new one, and the result is in start order. On a sorted list it is a stable insert. |
| AdminCalendar.AdminCalendarView.HandleAddEvent | components/admin-calendar.tsx:88-109 | A created event whose month equals the viewed month, in any year, is added in order. Otherwise the list and the view are unchanged. |
| AdminCalendar.AdminCalendarView.HandleAddEventIntended | components/admin-calendar.tsx:88-109 | With the corrected guard, a created event is added in order exactly when it starts in the year and month on view. |
| AdminCalendar.ReplaceById | components/admin-calendar.tsx:124-126 | The length is kept and elements with the id are replaced. All other elements stay in their positions, with no re-sort. |
| AdminCalendar.ReplaceByIdIdempotent | components/admin-calendar.tsx:124-126 | Replacing twice equals replacing once. An absent id changes nothing. |
| AdminCalendar.AdminCalendarView.HandleEditEvent | components/admin-calendar.tsx:111-137 | An updated event replaces its id in place. A failed update changes nothing. |
| AdminCalendar.RemoveById | components/admin-calendar.tsx:144 | The list after a delete is no longer and holds no event with that id. |
| AdminCalendar.RemoveByIdSound | components/admin-calendar.tsx:144 | Exactly the events with that id are removed. The rest keep their order and stay sorted. |
| AdminCalendar.FilterSorted | components/admin-calendar.tsx:144 | Filtering a sorted list keeps it sorted. |
| AdminCalendar.AdminCalendarView.HandleDeleteEvent | components/admin-calendar.tsx:139-152 | A successful delete removes that id from the list. A failed one changes nothing. |
| AdminCalendar.PreviousMonth | components/admin-calendar.tsx:154-158 | The result is one month before the given month of the year `new Date` reads (1900 + y for a year y in 0..99). The month always lies within 0..11. |
| AdminCalendar.NextMonth | components/admin-calendar.tsx:160-164 | The result is one month after the given month of the year `new Date` reads (1900 + y for a year y in 0..99). The month always lies within 0..11. |
| AdminCalendar.NavigationRoundTrip | components/admin-calendar.tsx:154-164 | Previous goes back one month and next goes forward one, with 0 and 11 wrapping into a year change. Each move is undone by the other. |
| AdminCalendar.NavigationTwoDigitYears | components/admin-calendar.tsx:156-162 | A year argument in 0..99 is read as 1900 + year: from January 100 the previous month is December 99, and the month after that is January 2000. |
| AdminCalendar.AdminCalendarView.constructor | components/admin-calendar.tsx:34-39 | The view opens on November 2025 with no events. |
| AdminCalendar.AdminCalendarView.LoadEvents | components/admin-calendar.tsx:70-86 | The list is the processed month listing, in start order. |
| AdminCalendar.AdminCalendarView.HandlePreviousMonth | components/admin-calendar.tsx:154-158 | The view moves to the previous month. The list stays until `LoadEvents` reloads it. |
| AdminCalendar.AdminCalendarView.HandleNextMonth | components/admin-calendar.tsx:160-164 | The view moves to the next month. The list stays until `LoadEvents` reloads it. |
| AdminCalendar.CategoryColor | components/admin-calendar.tsx:311-318 | The colour is total, and it is the grey "#6b7280" exactly for categories outside the three known ones. |
| AdminCalendar.CategoryColorsDistinct | components/admin-calendar.tsx:312-316 | The three known categories have three different colours. |
| AdminCalendar.CountLabel | components/admin-calendar.tsx:187 | The label starts with the count in decimal. |
| AdminCalendar.CountLabelPlural | components/admin-calendar.tsx:187 | The label starts with the count. Both words take "s" exactly when the count is not 1. |
| MonthCalendar.StartingDayOfWeek | components/month-calendar.tsx:22-26 | The first day's weekday is within 0..6, Sunday first. |
| MonthCalendar.DaysShown | components/month-calendar.tsx:23-24 | A month has 28 to 31 days. |
| MonthCalendar.DaysShownIsDayZeroOfNextMonth | components/month-calendar.tsx:23-24 | The last day shown is the day before the first of the next month. February has 29 days exactly in leap years. |
| MonthCalendar.CalendarDays | components/month-calendar.tsx:28-30 | The grid has startingDayOfWeek + daysInMonth cells. |
| MonthCalendar.CalendarDaysLayout | components/month-calendar.tsx:28-30 | The first startingDayOfWeek cells are blank. The rest are days 1..n in increasing order. |
| MonthCalendar.DayColumnIsWeekday | components/month-calendar.tsx:26-30 | Each day sits in the column of its own weekday under the Dom..Sáb header. |
| MonthCalendar.EventsForDay | components/month-calendar.tsx:32-35 | The events of a day are no more than the events and all start on that day of the month. |
| MonthCalendar.EventsForDaySound | components/month-calendar.tsx:32-35 | The events of day d are exactly those whose start day-of-month is d, in input order. Neither month nor year is checked. |
| MonthCalendar.CellEvents | components/month-calendar.tsx:66-67 | A blank cell has no events. A day's cell holds only events starting on that day. |
| MonthCalendar.EventHasItsCell | components/month-calendar.tsx:66-67 | An event in the month shown appears in the cell of its day. |
| MonthCalendar.Shown | components/month-calendar.tsx:80 | A cell shows the first two events, or all of them when there are fewer. |
| MonthCalendar.Overflow | components/month-calendar.tsx:89-93 | The "+k más" line appears exactly when there are more than two events, and k plus the shown events is their number. |
| MonthCalendar.ShownAndOverflow | components/month-calendar.tsx:80-94 | A cell shows at most the first two events. When there are k > 2, the overflow is k - 2, and shown plus overflow account for all. |
| MonthlyTable.CellValue | components/monthly-data-table.tsx:44 | Text that does not parse as an integer counts as 0. |
| MonthlyTable.CellValueOfNumeral | components/monthly-data-table.tsx:44 | A typed numeral counts as the number it spells. |
| MonthlyTable.Edit | components/monthly-data-table.tsx:49-64 | A programmed field is stored as given. A completed field is stored as min(input, its programmed field). No other field changes. |
| MonthlyTable.EditCompletedWithinProgrammed | components/monthly-data-table.tsx:52-63 | After writing a completed field, it never exceeds its programmed field. |
| MonthlyTable.ProgrammedWriteKeepsCompleted | components/monthly-data-table.tsx:49-64 | Writing a programmed field stores the value and leaves its completed field as it was. Writing below the completed value leaves more completed than programmed. |
| MonthlyTable.ChangeRows | components/monthly-data-table.tsx:47-67 | Only rows with the id change, each by the edit. Every other row is identical and in its place. |
| MonthlyTable.FirstIndex | components/monthly-data-table.tsx:71 | This is the first row with the id, or -1 when there is none. |
| MonthlyTable.Find | components/monthly-data-table.tsx:71 | A row with the id is found exactly when one exists. |
| MonthlyTable.PersistedIsUpdatedRow | components/monthly-data-table.tsx:68-82 | The record sent for persistence is the first matching row after the edit. |
| MonthlyTable.MonthlyDataTable.HandleChange | components/monthly-data-table.tsx:39-87 | The rows become the edited rows and the page stays. The returned record is the edited row, or none. |
| MonthlyTable.DeleteRows | components/monthly-data-table.tsx:94 | A delete leaves no more rows than before, and none with that id. |
| MonthlyTable.DeleteRowsSound | components/monthly-data-table.tsx:94 | Exactly the rows with that id are removed and the rest keep their order. Nothing changes when no row has it. |
| MonthlyTable.MonthlyDataTable.HandleDelete | components/monthly-data-table.tsx:89-99 | After a successful delete the rows are the filtered rows. After a failed one they stay. |
| MonthlyTable.TotalPages | components/monthly-data-table.tsx:31 | The page count is ceil(n / 4). |
| MonthlyTable.Slice | components/monthly-data-table.tsx:34-36 | `slice(start, end)` seen as a window into the rows, clipped to the ends. |
| MonthlyTable.PageRows | components/monthly-data-table.tsx:34-36 | A page holds at most 4 rows. |
| MonthlyTable.PagesPrefix | components/monthly-data-table.tsx:34-36 | Pages 1..k together are the first 4k rows. |
| MonthlyTable.PagesPartition | components/monthly-data-table.tsx:31-36 | Pages 1..totalPages together are all the rows, in order. |
| MonthlyTable.PageRowsNonEmpty | components/monthly-data-table.tsx:31-36 | A page is non-empty exactly when its number is at most totalPages. |
| MonthlyTable.MonthlyDataTable.constructor | components/monthly-data-table.tsx:27 | The table opens on page 1. |
| MonthlyTable.MonthlyDataTable.HandleNextPage | components/monthly-data-table.tsx:107-111 | The page advances only when it is below totalPages. The page never drops below 1. |
| MonthlyTable.MonthlyDataTable.HandlePreviousPage | components/monthly-data-table.tsx:113-117 | The page goes back only when it is above 1, so it never drops below 1. |
| EventForms.FindEmployee | components/create-event-modal.tsx:54 | An employee is found exactly when the list has that id. |
| EventForms.CheckEmployeeAndTimes | components/create-event-modal.tsx:54-69 | An unknown employee is rejected first, then an end that is not after the start. Success yields the selected employee. |
| EventForms.SubmitCreate | components/create-event-modal.tsx:48-81 | Checks run in order: required title, date, employee and category, then the employee, then end after start. The first failure wins. Success carries the fields and the selected employee's id and name. |
| EventForms.DefaultTimes | components/create-event-modal.tsx:44-45 | The default times read as 09:00 and 10:00. |
| EventForms.DefaultsPassTimeCheck | components/create-event-modal.tsx:33-45 | The default times pass the time check on any date, and the default category is one of the three. |
| EventForms.SubmitCreateWindow | components/create-event-modal.tsx:60-69 | An accepted event with readable times starts and ends on the chosen date, and it ends strictly after it starts. |
| EventForms.InvalidDateReachesAction | components/create-event-modal.tsx:63-66 | An unreadable start time is not caught by the time check. |
| EventForms.Prefill | components/edit-event-modal.tsx:54-73 | Both prefilled times are five characters long. |
| EventForms.FormatTimeShape | components/edit-event-modal.tsx:65-68 | `formatTime` yields HH:MM: two digits that read back as the hour, a colon, and two digits that read back as the minute. |
| EventForms.SubmitEdit | components/edit-event-modal.tsx:75-111 | Only title, date and employee are required, then the employee, then end after start. Success keeps the event's id and accountId and carries the six fields. |
| EventForms.EditAcceptsEmptyCategory | components/edit-event-modal.tsx:77-80 | An empty category passes the edit form but not the create form. |
| EventForms.PrefillSubmitRoundTrip | components/edit-event-modal.tsx:54-111 | In a browser whose time zone is UTC, submitting the prefilled form unchanged yields the event itself. |
| EventForms.PrefillReadsBack | components/edit-event-modal.tsx:61-71 | In a browser whose time zone is UTC, the prefilled date and times read back as the event's start and end. |
| TaskDialog.StatusOptionAsWrittenUnknown | components/create-task-dialog.tsx:185-186 | The second option as written, "completeda", names neither declared task status. |
| TaskDialog.StatusOptionsAreStatuses | components/create-task-dialog.tsx:185-186 | Each corrected option names a declared task status, and each declared status has its option. |
| TaskDialog.FindUser | components/create-task-dialog.tsx:98 | A user is found exactly when the list has that id. |
| TaskDialog.AssigneeName | components/create-task-dialog.tsx:105-107 | The name is the selected user's non-empty full name, otherwise "Sin nombre". |
| TaskDialog.Payload | components/create-task-dialog.tsx:98-109 | The assignee name is never empty, and it is "Sin nombre" when no user has the selected id. |
| TaskDialog.PayloadKeepsForm | components/create-task-dialog.tsx:99-109 | The payload carries the five form fields unchanged, the assignee id among them, with the creator named "Admin". |
| TaskDialog.CreateTaskDialog.constructor | components/create-task-dialog.tsx:49-57 | The form opens empty with status "pendiente" and no errors. |
| TaskDialog.CreateTaskDialog.ValidateForm | components/create-task-dialog.tsx:81-89 | Title, description and assignee are flagged exactly when blank after trimming. The deadline is flagged exactly when empty, untrimmed. Each flag has its message. |
| TaskDialog.CreateTaskDialog.HandleSubmit | components/create-task-dialog.tsx:91-120 | With any error, no task is handed on, the form is kept, and the errors are the validation's messages. Otherwise exactly one payload is handed on, and the form and errors reset. |
| TaskDialog.CreateTaskDialog.SetTitle | components/create-task-dialog.tsx:141-144 | Typing a title clears only the title's error. |
| TaskDialog.CreateTaskDialog.SetDescription | components/create-task-dialog.tsx:159-162 | Typing a description clears only the description's error. |
| TaskDialog.CreateTaskDialog.SetDeadline | components/create-task-dialog.tsx:198-201 | Picking a deadline clears only the deadline's error. |
| TaskDialog.CreateTaskDialog.SetAssignee | components/create-task-dialog.tsx:215-218 | Picking an assignee clears only the assignee's error. |
| TaskDialog.CreateTaskDialog.SetStatus | components/create-task-dialog.tsx:176-186 | Picking either option of the select as written stores it and touches no error. |
| TaskDialog.CreateTaskDialog.SubmitMarkedCompleted | components/create-task-dialog.tsx:92-186 | Choosing "Completada" and submitting a filled form hands on status "completeda", which names neither declared task status. |
| AuthForm.PasswordIssues | components/AuthForm.tsx:34-42 | Each reported password issue is one of the form type's own messages. Sign-in reports at most one. |
| AuthForm.PasswordRules | components/AuthForm.tsx:34-42 | A sign-up password passes exactly when it has at least 8 code units, an ASCII letter and a digit. A sign-in password passes exactly when it is non-empty. |
| AuthForm.SignUpPasswordSignsIn | components/AuthForm.tsx:31-42 | Every password sign-up accepts, sign-in accepts too. |
| AuthForm.FullNameIssues | components/AuthForm.tsx:46-52 | At most one full-name issue is reported, and only on sign-up. |
| AuthForm.FullNameRules | components/AuthForm.tsx:46-52 | A sign-up full name passes exactly when it has 2 to 50 code units. On sign-in it is unconstrained. |
| AuthForm.Config | components/AuthForm.tsx:60-77 | The title is the button text. "Forgot" shows only on sign-in. The link goes to the other form's route. |
| AuthForm.ConfigLinks | components/AuthForm.tsx:60-77 | Only sign-in shows "forgot". Each form links to the other's route, named by the other's title. |
| AuthForm.OnSubmitAsWritten | components/AuthForm.tsx:100-128 | As written, the handler redirects exactly on a successful sign-up. A thrown error shows its message. |
| AuthForm.SignInNeverRedirectsAsWritten | components/AuthForm.tsx:111-120 | As written, a sign-in never redirects: a successful one shows "Error al iniciar sesión.". |
| AuthForm.OnSubmit | components/AuthForm.tsx:100-128 | Corrected, the handler redirects exactly when the action succeeded. |
| AuthForm.OnSubmitRedirectsOnSuccess | components/AuthForm.tsx:100-128 | Corrected, either form redirects home exactly when its action succeeded, and otherwise shows the thrown message. Sign-up behaves as written. |
| AuthForm.Submit | components/AuthForm.tsx:100-128 | A submit is rejected exactly when the schema finds an issue. Otherwise the as-written handler decides it, so a sign-in never redirects. |
| AuthForm.SubmitIntended | components/AuthForm.tsx:100-128 | With the corrected handler, a submit redirects home exactly when the schema passes and the action succeeds. |

## Left out

- Store, sessions and cookies are not modelled. The current user is an input record. `revalidatePath` and `parseStringify` are left out because they have no effect on the data.
- Fresh ids (`ID.unique()`) are `freshId` parameters, and `new Date().toISOString()` for `submittedat` is a `now` parameter.
- Outcomes of server calls seen from the components (the created, updated or deleted event, whether a delete succeeded) are parameters of the handlers. Errors are reduced to their messages or to a `None`.
- `listSubmissionsByTask` is a plain query outside the core, so it is not modelled.
- `lib/actions/monthlydata.actions.ts` is forwarding code with no logic, so its CRUD is not part of this model. So is `lib/actions/user.actions.ts` apart from the shape of the sign-in result.
- JavaScript `Date` is replaced by civil date-times, because its time-zone and locale behaviour is not modelled. This leaves out:
  - the UTC date versus local time mix of the edit form's prefill;
  - `toLocaleDateString` in the calendar header;
  - the hours that `toISOString` shifts.
    The unreadable `Date` that an emptied time produces is modelled as `None`.
- Percentages (`calculatePercentage`, `toFixed`) are left out because they use floating point.
- The email rule of the sign-in form is left out because it is a foreign validator (zod's `.email()`).
- Concurrency is not modelled: the read-then-create race in `submitTask`, `Promise.all` and React transitions. Calls are sequential.
- Sorting is modelled as a stable insertion sort by start. The source relies on JavaScript's stable `Array.prototype.sort`, and the model does not prove the two equal.
- The store's `Query.orderAsc` on strings is modelled by `StrLe`, which compares characters by Unicode code point. The store's own collation is not modelled. Neither is JavaScript's UTF-16 code-unit order, which differs from code-point order when a character above U+FFFF is compared with one in U+E000..U+FFFF.
- TaskActions.TaskStore.AccessError: the store's not-found error for an unknown task id is one `DocumentNotFound` value. Its message and status code are not modelled.
- TaskActions.DeadlineIso: reads only the `YYYY-MM-DD` form a date input produces. Other strings `new Date` accepts, such as "2025-11", "2025", "2025-11-05T10:00" or RFC 2822 dates, are reported as `InvalidDeadline`, where the source would store a date. It also reports a day past the month's end but no later than 31, such as "2025-02-30", as `InvalidDeadline`, where V8's `new Date` rolls it over into the next month (2025-03-02) and the source stores that date.
- EventForms.PrefillSubmitRoundTrip: holds in a browser whose time zone is UTC only. The edit form takes the date from `toISOString`, which is UTC (components/edit-event-modal.tsx:61), and the hours from `getHours`/`getMinutes`, which are local (:66-67). At UTC−5 an event at 20:00 local on 2025-11-05 is the instant 2025-11-06T01:00Z, so the form is prefilled as 2025-11-06 20:00 and submitting it unchanged moves the event a day later.
- EventForms.PrefillReadsBack: holds in a browser whose time zone is UTC only, for the same reason: elsewhere the prefilled date can be the UTC day while the times are local, as in the example above.
- TaskActions.CountersPartition: the model takes the store to keep whatever status `createTask` sends it (lib/actions/task.actions.ts:297), so a task can hold an undeclared status such as "completeda" and then falls outside both counters. Whether the store instead refuses such a value depends on the tasks collection's attribute schema, which is not in the source; if it refuses it, every stored status is declared and the partition is exact.
- AdminCalendar.NavigationRoundTrip: holds for years outside -1..100 only. `new Date(y, m)` maps the years 0..99 to 1900..1999, so stepping into them is not undone by the reverse step. `AdminCalendar.NavigationTwoDigitYears` shows this case.
- AdminCalendar.CategoryColor: keys inherited from `Object.prototype` (such as "constructor") are not modelled, because the object lookup would find a function there.
- MonthlyTable.MonthlyDataTable.HandleDelete: `currentPage` is not adjusted after a delete, as in the source, so the current page can end up past the last page.
- MonthlyTable.Edit: only the four counter fields are modelled as editable. `handleChange` types its field as any key of the row, but the table only ever passes those four.
- `getPendingTasksForCurrentUser` resolves `createdBy` and `assignee` as user records. The model looks ids up in the user collection.
- The store rejects an unknown sort attribute. The model lists the known attributes and returns `UnknownSortAttribute` for any other. Of the store's system attributes only `$id` is listed: tasks carry no creation or update time in this model, so ordering by `$createdAt` or `$updatedAt` is reported as `UnknownSortAttribute`, where the store would order by those times.
- MonthlyTable.CellValueOfNumeral: the model reads a numeral as the exact integer it spells. JavaScript's `parseInt` returns a double, so in the source a numeral above 2^53 rounds to a nearby double (`parseInt("9007199254740993")` is 9007199254740992).

## Findings

The handlers follow the code as written: `AdminCalendar.AdminCalendarView.HandleAddEvent`, `TaskDialog.CreateTaskDialog.SetStatus` and `AuthForm.Submit`. The corrected behaviour is kept in separate members: `AdminCalendar.AdminCalendarView.HandleAddEventIntended`, `TaskDialog.StatusOptions` and `AuthForm.SubmitIntended`.

| source | as written | input that shows it | evidently intended | confidence | as-written member | corrected member |
|---|---|---|---|---|---|---|
| components/admin-calendar.tsx:95 | a created event is added to the list of the month on view when its month equals the viewed month, whatever its year | an event on 2026-11-05 created while November 2025 is on view is added to November 2025's list | add it only when it falls in the month on view (year and month) | not executed | AdminCalendar.AddGuardAsWrittenAdmitsOtherYear | AdminCalendar.AddGuardIsMonthWindow |
| components/create-task-dialog.tsx:186 | the status select offers the value "completeda" | picking "Completada" in the dialog sends status "completeda", which is neither of the two declared statuses (lib/actions/task.actions.ts:13); the task is then counted as neither pending nor completed | the value "completada" | not executed | TaskDialog.StatusOptionAsWrittenUnknown | TaskDialog.StatusOptionsAreStatuses |
| components/AuthForm.tsx:115-120 | sign-in redirects only when the response has a truthy `ok` | a correct sign-in: `signInWithEmail` returns `{sessionId}` (lib/actions/user.actions.ts:216), so `res.ok` is undefined and "Error al iniciar sesión." is shown | redirect home when the sign-in action returns a session | not executed | AuthForm.SignInNeverRedirectsAsWritten | AuthForm.OnSubmitRedirectsOnSuccess |
