/** The month view of the `Calendar` component (src/components/Calendar.tsx): which tasks fall
    on a day, the grid of blank and day cells, and month navigation. */
module CalendarView {
  import opened Optional
  import opened Seqs
  import opened Gregorian
  import TodoModel
  import TodoComponent

  /** The fields of a calendar task that the month view reads: an optional due date and the
      creation time. */
  datatype CalendarTask = CalendarTask(dueDate: Option<Timestamp>, createdAt: Timestamp)

  /** `task.dueDate || task.createdAt`: the due date when there is one, else the creation time. */
  function EffectiveDate(t: CalendarTask): Timestamp {
    match t.dueDate
    case Some(due) => due
    case None => t.createdAt
  }

  /** The filter of `getTasksForDate(date)`. */
  function FallsOn(date: CalDate, localDate: Timestamp -> CalDate): CalendarTask -> bool {
    (t: CalendarTask) => SameDay(localDate(EffectiveDate(t)), date)
  }

  /** `getTasksForDate(date)`: the tasks whose effective date falls on the calendar day `date`,
      in list order. */
  function GetTasksForDate(tasks: seq<CalendarTask>, date: CalDate, localDate: Timestamp -> CalDate): (r: seq<CalendarTask>)
    ensures IsSubsequence(r, tasks)
    ensures forall i :: 0 <= i < |r| ==> SameDay(localDate(EffectiveDate(r[i])), date)
    ensures forall t :: multiset(r)[t] == if SameDay(localDate(EffectiveDate(t)), date) then multiset(tasks)[t] else 0
  {
    FilterIsSubsequence(tasks, FallsOn(date, localDate));
    FilterCounts(tasks, FallsOn(date, localDate));
    Filter(tasks, FallsOn(date, localDate))
  }

  /** A task with a due date is placed by its due date alone; one without, by its creation
      time. */
  lemma SingleTaskPlacement(t: CalendarTask, date: CalDate, localDate: Timestamp -> CalDate)
    ensures t.dueDate.Some? ==>
      GetTasksForDate([t], date, localDate) == if SameDay(localDate(t.dueDate.value), date) then [t] else []
    ensures t.dueDate.None? ==>
      GetTasksForDate([t], date, localDate) == if SameDay(localDate(t.createdAt), date) then [t] else []
  {
    assert [t][1..] == [];
  }

  // ---------------------------------------------------------------------------------------
  // The grid

  /** One cell of the seven-column grid: a blank before day 1, or a day button with the number
      of tasks on that day and whether it is today or the selected date. */
  datatype Cell = Blank | DayCell(day: int, taskCount: nat, isToday: bool, isSelected: bool)

  /** The badge of a cell: the task count, shown only when it is positive. */
  function Badge(c: Cell): Option<nat> {
    if c.DayCell? && c.taskCount > 0 then Some(c.taskCount) else None
  }

  function DayCellFor(view: YearMonth, k: int, tasks: seq<CalendarTask>, localDate: Timestamp -> CalDate,
                      today: CalDate, selected: Option<CalDate>): Cell
  {
    var date := CalDate(view.year, view.month, k + 1);
    DayCell(k + 1, |GetTasksForDate(tasks, date, localDate)|, today == date, selected == Some(date))
  }

  /** The month grid: `firstDayOfMonth` blanks, then one button per day of the month. */
  function Grid(view: YearMonth, tasks: seq<CalendarTask>, localDate: Timestamp -> CalDate,
                today: CalDate, selected: Option<CalDate>): (g: seq<Cell>)
    requires 0 <= view.month < 12
    ensures |g| == FirstDayOfMonth(view.year, view.month) + DaysInMonth(view.year, view.month)
  {
    var blanks := FirstDayOfMonth(view.year, view.month);
    var days := DaysInMonth(view.year, view.month);
    seq(blanks, _ => Blank)
      + seq(days, k requires 0 <= k < days => DayCellFor(view, k, tasks, localDate, today, selected))
  }

  /** The grid lays the month out under the Sunday..Saturday header: cell `i` holds a blank
      before the first weekday of the month, and afterwards the valid date in column
      `i % 7` = its weekday, with its task count, today and selected flags. */
  lemma GridLayout(view: YearMonth, tasks: seq<CalendarTask>, localDate: Timestamp -> CalDate,
                   today: CalDate, selected: Option<CalDate>, i: int)
    requires 0 <= view.month < 12
    requires 0 <= i < |Grid(view, tasks, localDate, today, selected)|
    ensures var g := Grid(view, tasks, localDate, today, selected);
      var first := FirstDayOfMonth(view.year, view.month);
      var date := CalDate(view.year, view.month, i - first + 1);
      && (i < first <==> g[i].Blank?)
      && (i >= first ==>
            && IsValidDate(date)
            && g[i].day == date.day
            && i % 7 == WeekDay(DayNumber(date))
            && g[i].taskCount == |GetTasksForDate(tasks, date, localDate)|
            && (g[i].isToday <==> today == date)
            && (g[i].isSelected <==> selected == Some(date)))
  {
    var first := FirstDayOfMonth(view.year, view.month);
    GridAt(view, tasks, localDate, today, selected, i);
    if i >= first {
      DayCellContents(view, tasks, localDate, today, selected, i - first);
    }
  }

  lemma GridAt(view: YearMonth, tasks: seq<CalendarTask>, localDate: Timestamp -> CalDate,
               today: CalDate, selected: Option<CalDate>, i: int)
    requires 0 <= view.month < 12
    requires 0 <= i < |Grid(view, tasks, localDate, today, selected)|
    ensures var first := FirstDayOfMonth(view.year, view.month);
      Grid(view, tasks, localDate, today, selected)[i] ==
        if i < first then Blank else DayCellFor(view, i - first, tasks, localDate, today, selected)
  {
  }

  /** The cell of day `k + 1`: a valid date of the month, in the column of its weekday once
      the `firstDayOfMonth` blanks are counted, with that day's task count and flags. */
  lemma DayCellContents(view: YearMonth, tasks: seq<CalendarTask>, localDate: Timestamp -> CalDate,
                        today: CalDate, selected: Option<CalDate>, k: int)
    requires 0 <= view.month < 12
    requires 0 <= k < DaysInMonth(view.year, view.month)
    ensures var c := DayCellFor(view, k, tasks, localDate, today, selected);
      var date := CalDate(view.year, view.month, k + 1);
      && IsValidDate(date)
      && c.DayCell? && c.day == date.day
      && (FirstDayOfMonth(view.year, view.month) + k) % 7 == WeekDay(DayNumber(date))
      && c.taskCount == |GetTasksForDate(tasks, date, localDate)|
      && (c.isToday <==> today == date)
      && (c.isSelected <==> selected == Some(date))
  {
    DayColumn(view.year, view.month, k);
  }

  /** Day `k + 1` of the month falls in column `(firstDayOfMonth + k) % 7`, its weekday. */
  lemma DayColumn(y: int, m: int, k: int)
    requires 0 <= m < 12
    ensures (FirstDayOfMonth(y, m) + k) % 7 == WeekDay(DayNumber(CalDate(y, m, k + 1)))
  {
    var a := DayNumber(CalDate(y, m, 1));
    assert DayNumber(CalDate(y, m, k + 1)) == a + k;
    WeekDayShift(a, k);
  }

  /** Blanks carry no badge; a day's cell shows a badge exactly when tasks fall on that day,
      and the badge shows how many. */
  lemma GridBadge(view: YearMonth, tasks: seq<CalendarTask>, localDate: Timestamp -> CalDate,
                  today: CalDate, selected: Option<CalDate>, i: int)
    requires 0 <= view.month < 12
    requires 0 <= i < |Grid(view, tasks, localDate, today, selected)|
    ensures var g := Grid(view, tasks, localDate, today, selected);
      var first := FirstDayOfMonth(view.year, view.month);
      var n := |GetTasksForDate(tasks, CalDate(view.year, view.month, i - first + 1), localDate)|;
      && (i < first ==> Badge(g[i]) == None)
      && (i >= first && n > 0 ==> Badge(g[i]) == Some(n))
      && (i >= first && n == 0 ==> Badge(g[i]) == None)
  {
    GridAt(view, tasks, localDate, today, selected, i);
  }

  /** Every day of the month has exactly one cell. */
  lemma EveryDayHasOneCell(view: YearMonth, tasks: seq<CalendarTask>, localDate: Timestamp -> CalDate,
                           today: CalDate, selected: Option<CalDate>, d: int)
    requires 0 <= view.month < 12
    requires IsValidDate(CalDate(view.year, view.month, d))
    ensures var g := Grid(view, tasks, localDate, today, selected);
      forall i :: 0 <= i < |g| && g[i].DayCell? && g[i].day == d <==>
        0 <= i < |g| && i == FirstDayOfMonth(view.year, view.month) + d - 1
  {
  }

  // ---------------------------------------------------------------------------------------
  // The component state

  class CalendarState {
    var currentDate: CalDate
    var selectedDate: Option<CalDate>

    ghost predicate Valid()
      reads this
    {
      0 <= currentDate.month < 12
    }

    function ViewedMonth(): (ym: YearMonth)
      reads this
      requires Valid()
      ensures 0 <= ym.month < 12
    {
      YearMonth(currentDate.year, currentDate.month)
    }

    /** The calendar opens on today's month with nothing selected. */
    constructor (today: CalDate)
      requires IsValidDate(today)
      ensures Valid() && currentDate == today && selectedDate == None
    {
      currentDate := today;
      selectedDate := None;
    }

    /** `handlePrevMonth`: `new Date(year, month - 1)`, the first of the month before. */
    method HandlePrevMonth()
      requires Valid()
      modifies this
      ensures Valid()
      ensures ViewedMonth() == PrevMonth(old(ViewedMonth())) && currentDate.day == 1
      ensures selectedDate == old(selectedDate)
    {
      var ym := PrevMonth(ViewedMonth());
      currentDate := CalDate(ym.year, ym.month, 1);
    }

    /** `handleNextMonth`: `new Date(year, month + 1)`, the first of the month after. */
    method HandleNextMonth()
      requires Valid()
      modifies this
      ensures Valid()
      ensures ViewedMonth() == NextMonth(old(ViewedMonth())) && currentDate.day == 1
      ensures selectedDate == old(selectedDate)
    {
      var ym := NextMonth(ViewedMonth());
      currentDate := CalDate(ym.year, ym.month, 1);
    }

    /** `handleDateClick`: the clicked date becomes selected here and is handed to the task
        list's `handleDateSelect` (closing the calendar is not modelled). */
    method HandleDateClick(date: CalDate, list: TodoComponent.TodoState)
      modifies this, list
      ensures selectedDate == Some(date) && currentDate == old(currentDate)
      ensures list.selectedDate == Some(date) && list.newTodo == []
      ensures list.todos == old(list.todos) && list.lastTapTime == old(list.lastTapTime)
      ensures list.showLimitWarning == old(list.showLimitWarning) && list.showArchiveMessage == old(list.showArchiveMessage)
    {
      selectedDate := Some(date);
      list.HandleDateSelect(date);
    }

    /** The cells of the viewed month: `firstDayOfMonth` blanks, then each day of the month
        with its number, its task count and its today and selected flags; the selected date's
        cell is marked when it lies in the viewed month. */
    function Cells(tasks: seq<CalendarTask>, localDate: Timestamp -> CalDate, today: CalDate): (c: seq<Cell>)
      reads this
      requires Valid()
      ensures |c| == FirstDayOfMonth(currentDate.year, currentDate.month) + DaysInMonth(currentDate.year, currentDate.month)
      ensures var first := FirstDayOfMonth(currentDate.year, currentDate.month);
        forall i :: 0 <= i < |c| ==>
          var date := CalDate(currentDate.year, currentDate.month, i - first + 1);
          && (i < first <==> c[i].Blank?)
          && (i >= first ==>
                && c[i].day == date.day
                && c[i].taskCount == |GetTasksForDate(tasks, date, localDate)|
                && (c[i].isToday <==> today == date)
                && (c[i].isSelected <==> selectedDate == Some(date)))
      ensures (&& selectedDate.Some?
               && selectedDate.value.year == currentDate.year
               && selectedDate.value.month == currentDate.month
               && 1 <= selectedDate.value.day <= DaysInMonth(currentDate.year, currentDate.month)) ==>
        var i := FirstDayOfMonth(currentDate.year, currentDate.month) + selectedDate.value.day - 1;
        c[i].DayCell? && c[i].isSelected
    {
      GridContents(ViewedMonth(), tasks, localDate, today, selectedDate);
      Grid(ViewedMonth(), tasks, localDate, today, selectedDate)
    }
  }

  /** Every cell of the grid at once: blanks exactly before the first weekday, and after
      them each day's number, task count and flags. */
  lemma GridContents(view: YearMonth, tasks: seq<CalendarTask>, localDate: Timestamp -> CalDate,
                     today: CalDate, selected: Option<CalDate>)
    requires 0 <= view.month < 12
    ensures var g := Grid(view, tasks, localDate, today, selected);
      var first := FirstDayOfMonth(view.year, view.month);
      forall i :: 0 <= i < |g| ==>
        var date := CalDate(view.year, view.month, i - first + 1);
        && (i < first <==> g[i].Blank?)
        && (i >= first ==>
              && g[i].day == date.day
              && g[i].taskCount == |GetTasksForDate(tasks, date, localDate)|
              && (g[i].isToday <==> today == date)
              && (g[i].isSelected <==> selected == Some(date)))
  {
    var g := Grid(view, tasks, localDate, today, selected);
    forall i | 0 <= i < |g| {
      GridAt(view, tasks, localDate, today, selected, i);
    }
  }

  /** Going forward a month and back again shows the same month. */
  method NavigateForwardAndBack(c: CalendarState)
    requires c.Valid()
    modifies c
    ensures c.Valid() && c.ViewedMonth() == old(c.ViewedMonth())
  {
    c.HandleNextMonth();
    c.HandlePrevMonth();
    PrevUndoesNext(old(c.ViewedMonth()));
  }

  // ---------------------------------------------------------------------------------------
  // The task list's tasks in the calendar

  /** The task list hands its own records to the calendar: they have no due date, so the
      calendar places them by creation time. */
  function AsCalendarTask(t: TodoModel.Todo): CalendarTask {
    CalendarTask(None, t.createdAt)
  }

  function AsCalendarTasks(todos: seq<TodoModel.Todo>): seq<CalendarTask> {
    seq(|todos|, i requires 0 <= i < |todos| => AsCalendarTask(todos[i]))
  }

  /** The badge on a day of the calendar counts exactly the tasks the list shows when that day
      is selected. */
  lemma {:induction false} BadgeMatchesDayFilter(todos: seq<TodoModel.Todo>, date: CalDate, localDate: Timestamp -> CalDate)
    ensures |GetTasksForDate(AsCalendarTasks(todos), date, localDate)| == |TodoModel.DayFilter(todos, Some(date), localDate)|
  {
    if todos != [] {
      BadgeMatchesDayFilter(todos[1..], date, localDate);
      assert AsCalendarTasks(todos)[1..] == AsCalendarTasks(todos[1..]);
    }
  }
}
