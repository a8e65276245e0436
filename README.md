# Todo Today — task list and month calendar, modelled in Dafny

This project models the client-side logic of the "Todo Today" task manager: the `Todo`
component, which keeps a bounded, ordered list of tasks in browser local storage, and the
`Calendar` component, which shows a month grid with a task count per day.

The model covers:

- the task record `{id, text, completed, createdAt}` and the limit of 100 tasks;
- loading the list from storage, which fails soft and truncates to the limit, and saving it after every change;
- `addTodo`, with its blank-text and capacity checks and JavaScript's `trim`;
- `toggleTodo` and `deleteTodo`, which act on every task carrying the id, since ids come from `Date.now()` and need not be unique;
- the day filter of the list view;
- the new-day archival of completed tasks, with the `lastVisit` marker;
- the double-tap detector.

For the calendar it covers:

- `getTasksForDate`, which places a task by its due date and falls back to its creation time;
- Gregorian month lengths and the weekday of the first of the month, computed the way ECMAScript's `Date` computes them (MakeDay and WeekDay) for the year as given; the `Date` constructor's rule that maps years 0..99 to 1900..1999 is not modelled;
- month navigation with year roll-over;
- the grid of blank cells and day cells with their badges.

Layout:

- `seqs.dfy`: `Optional` (an option type) and `Seqs`, an order-preserving `Filter` (`Array.prototype.filter`) with its lemmas.
- `gregorian.dfy`: `Gregorian`, which holds dates, leap years, month lengths, day numbers and weekdays, and month normalisation.
- `todo_model.dfy`: `TodoModel`, the pure list transforms of `Todo.tsx`.
- `todo_component.dfy`: `TodoComponent`. It has a `LocalStorage` class for the three storage keys, and the `TodoState` class for the component's state and handlers. `TodoState.Valid()` says the list holds at most 100 tasks and storage always holds the current list, which is what the save effect maintains.
- `calendar_view.dfy`: `CalendarView`, with `getTasksForDate`, the grid, the `CalendarState` class, and how the task list's records look to the calendar.

The model takes these things as parameters:

- the clock: `Date.now()`, the local midnight that `setHours(0, 0, 0, 0)` gives, and today's date;
- the browser's local calendar, as a function `localDate` from a timestamp to (year, month, day).

Storage values are modelled after JSON parsing, as `Empty`, `Malformed` or `Holds(list)`.

Notes on the code:

- The list view's day filter matches on `createdAt` only (Todo.tsx).
- Only the calendar looks at a due date.
- The list's records have no due date, so in practice the calendar also places them by creation time (`BadgeMatchesDayFilter`).

## Model

| member | source | states |
|---|---|---|
| TodoModel.Load | src/components/Todo.tsx:16-30 | A missing, empty or unparsable stored value gives the empty list. Otherwise the result is a prefix of the stored list of length min(n, 100). Loading never fails and never exceeds the limit. |
| TodoModel.Save | src/components/Todo.tsx:90-92 | A list of at most 100 tasks, once saved, loads back unchanged. |
| TodoModel.ReloadIsStable | src/components/Todo.tsx:16-30 | Saving whatever was loaded and loading again gives the same list, whatever the stored value was. |
| TodoComponent.TodoState.constructor | src/components/Todo.tsx:16-37 | The initial state is the loaded list, an empty draft, no selected date, `lastTapTime` 0 and both messages off. The save effect leaves storage equal to the list. |
| Seqs.Strip | src/components/Todo.tsx:96 | With `i` the length of the leading run of elements that pass the test, the result is the slice starting at `i`, and only passing elements follow it. It neither starts nor ends with a passing element. It is empty exactly when every element passes. |
| TodoModel.Trim | src/components/Todo.tsx:96 | The result is the slice of the input between a leading and a trailing run of ECMAScript white space. It neither starts nor ends with white space. It is empty exactly when the input is all white space. |
| TodoModel.TrimIdempotent | src/components/Todo.tsx:106 | Trimming the trimmed text changes nothing. |
| TodoModel.AddCheck | src/components/Todo.tsx:96-102 | A blank draft is refused before the limit is looked at. A non-blank draft is refused exactly when the list already holds 100 or more tasks. |
| TodoModel.NewTask | src/components/Todo.tsx:104-109 | The new task is open, has id `now` and `createdAt` local midnight. Its text is the trimmed draft, trimming it again changes nothing, and for a non-blank draft it is non-empty and neither starts nor ends with white space. |
| TodoComponent.TodoState.AddTodo | src/components/Todo.tsx:94-114 | On success, exactly one task goes on the end: the trimmed text, not completed, id `now`, `createdAt` local midnight. The draft is cleared and today is selected. At the limit, only the warning is raised. A blank draft changes nothing. The list stays within 100 and storage follows it. |
| TodoModel.AddedTaskShownToday | src/components/Todo.tsx:104-113 | A task created today appears at the end of today's filtered view and leaves the rest of that view unchanged. |
| TodoModel.Toggle | src/components/Todo.tsx:116-122 | Length and order are kept. Each task keeps its id, text and creation time. Its completion flips exactly when its id is the toggled one. |
| TodoModel.ToggleTwice | src/components/Todo.tsx:116-122 | Toggling the same id twice gives back the original list. |
| TodoModel.ToggleAbsentId | src/components/Todo.tsx:116-122 | Toggling an id no task carries changes nothing. |
| TodoComponent.TodoState.ToggleTodo | src/components/Todo.tsx:116-122 | The list becomes its toggle. Storage follows it and no other state changes. |
| TodoModel.Delete | src/components/Todo.tsx:124-126 | No task with the id remains. Every other task is kept with its multiplicity. The result is a subsequence of the input, so relative order is kept. |
| TodoModel.DeleteIdempotent | src/components/Todo.tsx:124-126 | Deleting the same id twice is the same as deleting it once. |
| TodoModel.DeleteAbsentId | src/components/Todo.tsx:124-126 | Deleting an id no task carries leaves the list unchanged. |
| TodoModel.ToggleThenDelete | src/components/Todo.tsx:116-126 | Toggling one id and deleting a different id commute. Deleting an id undoes any earlier toggle of that id. |
| TodoComponent.TodoState.DeleteTodo | src/components/Todo.tsx:124-126 | The list becomes its deletion. Storage follows it and no other state changes. |
| TodoModel.DayFilter | src/components/Todo.tsx:147-156 | With no selected date, the result is the whole list. With a selected date, it is an order-preserving subsequence of the list, every task in it was created on that year, month and day, and every such task is kept with its multiplicity. |
| TodoComponent.TodoState.FilteredTodos | src/components/Todo.tsx:147-156 | With no date selected, the view is the whole list. Otherwise it is a subsequence of the list whose tasks were all created on the selected day, and every task created that day is kept with its multiplicity. |
| TodoModel.CompletedTasks | src/components/Todo.tsx:62 | Every task in the result is completed. The result is a subsequence of the list. |
| TodoModel.PendingTasks | src/components/Todo.tsx:76 | Every task in the result is open. The result is a subsequence of the list. |
| TodoModel.ArchivalLosesNothing | src/components/Todo.tsx:62-76 | The archived tasks plus the remaining tasks are a permutation of the list before archival. The stamped entries hold exactly the completed tasks, in order, and every entry carries `archivedAt` equal to the archival time. |
| TodoModel.NothingCompletedKeepsAll | src/components/Todo.tsx:61-80 | With nothing completed, the list stays exactly as it was. |
| TodoComponent.TodoState.CheckNewDay | src/components/Todo.tsx:57-81 | If `lastVisit` is already today, nothing changes. Otherwise: the completed tasks are appended after the existing archive, stamped; the list keeps only the open tasks; the archive message is shown if anything moved; `lastVisit` becomes today. An unparsable archive when there is something to archive throws and nothing is written. |
| TodoComponent.TodoState.HandleTaskTap | src/components/Todo.tsx:162-171 | The task is toggled only when `now - lastTapTime < 300`. `lastTapTime` always becomes `now`. |
| TodoComponent.TodoState.HandleDateSelect | src/components/Todo.tsx:128-132 | The date becomes selected and the draft is cleared. The list does not change. |
| TodoComponent.TodoState.EditDraft | src/components/Todo.tsx:228 | The draft becomes the typed text. Nothing else changes. |
| Seqs.Filter | src/components/Todo.tsx:125 | The result is no longer than the input, and every kept element passes the test. |
| Seqs.FilterCounts | src/components/Todo.tsx:125 | Each element's multiplicity in the result is its input multiplicity if it passes the test and 0 otherwise. |
| Seqs.FilterPartition | src/components/Todo.tsx:62-76 | Filtering by a test and by its negation splits a list into two parts whose multisets add up to the list's. |
| CalendarView.GetTasksForDate | src/components/Calendar.tsx:47-56 | The result is the order-preserving subsequence of the tasks whose effective date falls on that year, month and day, with their multiplicities. |
| CalendarView.SingleTaskPlacement | src/components/Calendar.tsx:49-54 | A task with a due date is found on exactly its due date's day, whatever its creation time. A task without one is found on its creation day. |
| Gregorian.DaysInMonth | src/components/Calendar.tsx:28-32 | A month has 28 to 31 days. February has 29 exactly in leap years and 28 otherwise. April, June, September and November have 30 and the rest 31. |
| Gregorian.DaysBeforeMonthIsSum | src/components/Calendar.tsx:28-32 | The cumulative month table used for day numbers equals the month lengths added up one by one. |
| Gregorian.YearLengthIsGregorian | src/components/Calendar.tsx:28-32 | The twelve month lengths add up to the year length the table gives: 366 days in a leap year and 365 otherwise. |
| Gregorian.NextYear | src/components/Calendar.tsx:28-38 | ECMAScript's day-from-year formula puts the first day of the next year exactly one year length after the first day of this year. |
| Gregorian.DayZeroOfNextMonth | src/components/Calendar.tsx:28-32 | For the year as given, `new Date(y, m + 1, 0)` is the day number of the valid date (y, m, DaysInMonth(y, m)). Every valid date with that day number has that day of month, so `getDate()` gives DaysInMonth. |
| Gregorian.DayNumberInjective | src/components/Calendar.tsx:28-32 | Distinct valid dates have distinct day numbers. |
| Gregorian.MakeDay | src/components/Calendar.tsx:28-38 | For the year as given and a month index already in 0..11, `new Date(y, m, d)` is the day number of (y, m, d): the days before the year, before the month, and d - 1. |
| Gregorian.WeekDay | src/components/Calendar.tsx:34-38 | `getDay()` of a day number is in 0..6. |
| Gregorian.KnownDates | src/components/Calendar.tsx:28-38 | 1 January 1970 is a Thursday (4) and 1 January 2024 a Monday (1). February 1900 has 28 days and February 2000 has 29. |
| Gregorian.FirstDayOfMonth | src/components/Calendar.tsx:34-38 | The weekday of day 1 of the month is an index in 0..6, with Sunday as 0. |
| Gregorian.NextFirstDayOfMonth | src/components/Calendar.tsx:34-38 | The first weekday of the next month is this month's first weekday plus the month's length, modulo 7. |
| Gregorian.NormalizeMonth | src/components/Calendar.tsx:58-64 | An out-of-range month index is carried into the year. The month ends up in 0..11 and the total count of months is unchanged. |
| Gregorian.NextMonth | src/components/Calendar.tsx:62-64 | The next month is the following month of the same year; December rolls into January of the next year. |
| Gregorian.PrevMonth | src/components/Calendar.tsx:58-60 | The previous month is the preceding month of the same year; January rolls back into December of the previous year. |
| Gregorian.PrevUndoesNext | src/components/Calendar.tsx:58-64 | Next-then-previous and previous-then-next both return to the same year and month. |
| CalendarView.CalendarState.constructor | src/components/Calendar.tsx:23-24 | The calendar opens on today with no date selected. |
| CalendarView.CalendarState.HandlePrevMonth | src/components/Calendar.tsx:58-60 | The viewed month becomes the previous one, on day 1. The selection is kept. |
| CalendarView.CalendarState.HandleNextMonth | src/components/Calendar.tsx:62-64 | The viewed month becomes the next one, on day 1. The selection is kept. |
| CalendarView.NavigateForwardAndBack | src/components/Calendar.tsx:58-64 | Clicking next and then previous shows the same month again. |
| CalendarView.CalendarState.HandleDateClick | src/components/Calendar.tsx:66-70 | The clicked date becomes selected in the calendar. It is also handed to the task list, which selects it and clears the draft. |
| CalendarView.Grid | src/components/Calendar.tsx:108-113 | The grid has `firstDayOfMonth + daysInMonth` cells. |
| CalendarView.GridLayout | src/components/Calendar.tsx:109-133 | Cells before `firstDayOfMonth` are blank. Each later cell holds a valid date of the month, in the column of its weekday. It carries the task count of `getTasksForDate` for that date and the today and selected flags. |
| CalendarView.DayCellContents | src/components/Calendar.tsx:112-137 | The cell for day k + 1 holds a valid date of the viewed month. Counting the leading blanks, it lands in the column of that date's weekday. It carries that day's task count and its today and selected flags. |
| CalendarView.DayColumn | src/components/Calendar.tsx:109-113 | Day k + 1 of the month lands in column `(firstDayOfMonth + k) % 7`, which is its weekday. |
| CalendarView.GridBadge | src/components/Calendar.tsx:134-137 | A blank cell has no badge. A day cell shows a badge exactly when `getTasksForDate` for that day is non-empty, and the badge shows its length. |
| CalendarView.CalendarState.Cells | src/components/Calendar.tsx:108-141 | The rendered grid of the viewed month has `firstDayOfMonth + daysInMonth` cells. A cell is blank exactly when it comes before `firstDayOfMonth`. Each later cell holds its day number, the task count of `getTasksForDate` for that date, and is marked today or selected exactly when its date is today or the selected date. When the selected date lies in the viewed month, its cell is marked. |
| CalendarView.EveryDayHasOneCell | src/components/Calendar.tsx:112-113 | Each day of the month has exactly one day cell. |
| CalendarView.BadgeMatchesDayFilter | src/components/Todo.tsx:215-220 | The list hands its tasks to the calendar without a due date. For every day, the calendar's count equals the number of tasks the list shows when that day is selected. |

## Left out

- Rendering is not modelled: JSX, CSS class choices, `toLocaleDateString` formatting and the `isToday` styling and form visibility (src/components/Todo.tsx:158-160, 222-242).
- Timers are not modelled: the one-minute `setInterval`s and the three-second `setTimeout`s that hide the warning and archive messages. `CheckNewDay` is one step that the caller runs with today's date.
- The React effect schedule is simplified. On mount, the archival effect runs before the save effect. The constructor models only the load and the save, so the caller runs `CheckNewDay` after it. The end state is the same.
- `console.error` on a parse failure is not modelled.
- JavaScript `Date`, time zones and daylight saving are not modelled. The local calendar is the parameter `localDate`, and the clock values are parameters.
- `toDateString()` comparisons are modelled as comparisons of (year, month, day).
- JSON is not modelled. A stored value is `Empty` (missing or `""`), `Malformed`, or a parsed list. Stored JSON that parses to a string would be sliced as text by `slice`; the model counts it as `Malformed`.
- Record fields the components never read are not modelled: `_id`, `title`, `description`, `completed`, `user`, `updatedAt` and `localId` of the calendar's task type (src/components/Calendar.tsx:3-13).
- The calendar's open and close flags are UI only: `isOpen`, `onClose`, `isCalendarOpen`, `toggleCalendar` and `showCompleted`.
- The server is not part of this model: its routes, Mongoose models, authentication, process start-up and theme toggle.
- There is no code in these components for reconciling local and server lists, or for logout handling, so neither is modelled.
- HandleTaskTap: the double-tap test does not check that both taps hit the same task, and the model keeps that behaviour. A tap on one task followed within 300 ms by a tap on another toggles the second.
- MakeDay, NextMonth, PrevMonth, PrevUndoesNext, DayZeroOfNextMonth, FirstDayOfMonth, Grid: the year is taken as given. `new Date(y, m, d)` maps years 0..99 to 1900..1999, so in the source the month after December of year 99 is January 2000 and months of years 0..99 are laid out as 1900..1999; that rule, and time values outside the `Date` range (invalid dates), are not modelled.
- CheckNewDay: every `localStorage.setItem` succeeds. In the source a full storage quota makes `setItem` throw (src/components/Todo.tsx:73, 80, 91); that exception path is not modelled.
- Stamp: every entry gets the same `archivedAt`. The source calls `Date.now()` once per task inside the `map` (src/components/Todo.tsx:68-71), so stamps may differ by a few milliseconds.
- ArchiveEntries: an archive value that parses to anything other than a list is treated as a throw. In the source a JSON string would be spread into its characters by `[...archivedTasks]` (src/components/Todo.tsx:65-67), and other values would throw.
