/** The state of the `Todo` component (src/components/Todo.tsx) and the handlers that update it.
    The clock (`Date.now()`, local midnight, today's date) is passed in by the caller. */
module TodoComponent {
  import opened Optional
  import opened Gregorian
  import opened Seqs
  import opened TodoModel

  /** Browser local storage, under the three keys the component reads and writes. */
  class LocalStorage {
    var todos: Slot<Todo>
    var archivedTasks: Slot<Archived>
    var lastVisit: Option<CalDate>

    constructor (todos: Slot<Todo>, archivedTasks: Slot<Archived>, lastVisit: Option<CalDate>)
      ensures this.todos == todos && this.archivedTasks == archivedTasks && this.lastVisit == lastVisit
    {
      this.todos := todos;
      this.archivedTasks := archivedTasks;
      this.lastVisit := lastVisit;
    }
  }

  /** Two taps on a task closer together than this many milliseconds toggle it. */
  const DOUBLE_TAP_DELAY: int := 300

  class TodoState {
    const storage: LocalStorage
    var todos: seq<Todo>
    var newTodo: string
    var showLimitWarning: bool
    var showArchiveMessage: bool
    var selectedDate: Option<CalDate>
    var lastTapTime: Timestamp

    /** The list never exceeds the limit, and the save effect keeps storage equal to it. */
    ghost predicate Valid()
      reads this, storage
    {
      |todos| <= MAX_TASKS && storage.todos == Save(todos)
    }

    /** The first render: the list is loaded from storage and the save effect writes it back. */
    constructor (storage: LocalStorage)
      modifies storage
      ensures this.storage == storage && Valid()
      ensures todos == Load(old(storage.todos))
      ensures newTodo == [] && selectedDate == None && lastTapTime == 0
      ensures !showLimitWarning && !showArchiveMessage
      ensures storage.archivedTasks == old(storage.archivedTasks) && storage.lastVisit == old(storage.lastVisit)
    {
      this.storage := storage;
      todos := Load(storage.todos);
      newTodo := [];
      showLimitWarning := false;
      showArchiveMessage := false;
      selectedDate := None;
      lastTapTime := 0;
      new;
      storage.todos := Save(todos);
    }

    /** `filteredTodos`: the list the component shows: every task when no date is selected,
        otherwise the tasks created on the selected day, in list order. */
    function FilteredTodos(localDate: Timestamp -> CalDate): (r: seq<Todo>)
      reads this
      ensures selectedDate.None? ==> r == todos
      ensures selectedDate.Some? ==> IsSubsequence(r, todos)
      ensures selectedDate.Some? ==> forall i :: 0 <= i < |r| ==> SameDay(localDate(r[i].createdAt), selectedDate.value)
      ensures selectedDate.Some? ==>
        forall t :: multiset(r)[t] == if SameDay(localDate(t.createdAt), selectedDate.value) then multiset(todos)[t] else 0
    {
      DayFilter(todos, selectedDate, localDate)
    }

    /** Typing into the input replaces the draft. */
    method EditDraft(text: string)
      modifies this
      ensures newTodo == text
      ensures todos == old(todos) && selectedDate == old(selectedDate) && lastTapTime == old(lastTapTime)
      ensures showLimitWarning == old(showLimitWarning) && showArchiveMessage == old(showArchiveMessage)
    {
      newTodo := text;
    }

    /** `addTodo`: a blank draft is ignored; a full list only raises the limit warning;
        otherwise the trimmed draft is appended as a new open task created at local midnight,
        the draft is cleared and today becomes the selected date. */
    method AddTodo(now: Timestamp, startOfToday: Timestamp, today: CalDate)
      requires Valid()
      modifies this, storage
      ensures Valid()
      ensures AddCheck(old(todos), old(newTodo)) == Added ==>
        && todos == old(todos) + [NewTask(old(newTodo), now, startOfToday)]
        && newTodo == [] && selectedDate == Some(today) && showLimitWarning == old(showLimitWarning)
      ensures AddCheck(old(todos), old(newTodo)) == LimitReached ==>
        && todos == old(todos) && showLimitWarning
        && newTodo == old(newTodo) && selectedDate == old(selectedDate)
      ensures AddCheck(old(todos), old(newTodo)) == BlankText ==>
        && todos == old(todos) && showLimitWarning == old(showLimitWarning)
        && newTodo == old(newTodo) && selectedDate == old(selectedDate)
      ensures showArchiveMessage == old(showArchiveMessage) && lastTapTime == old(lastTapTime)
      ensures storage.archivedTasks == old(storage.archivedTasks) && storage.lastVisit == old(storage.lastVisit)
    {
      if Trim(newTodo) == [] {
        return;
      }
      if |todos| >= MAX_TASKS {
        showLimitWarning := true;
        return;
      }
      var todo := NewTask(newTodo, now, startOfToday);
      todos := todos + [todo];
      storage.todos := Save(todos);
      newTodo := [];
      selectedDate := Some(today);
    }

    /** `toggleTodo(id)`. */
    method ToggleTodo(id: int)
      requires Valid()
      modifies this, storage
      ensures Valid()
      ensures todos == Toggle(old(todos), id)
      ensures newTodo == old(newTodo) && selectedDate == old(selectedDate) && lastTapTime == old(lastTapTime)
      ensures showLimitWarning == old(showLimitWarning) && showArchiveMessage == old(showArchiveMessage)
      ensures storage.archivedTasks == old(storage.archivedTasks) && storage.lastVisit == old(storage.lastVisit)
    {
      todos := Toggle(todos, id);
      storage.todos := Save(todos);
    }

    /** `deleteTodo(id)`. */
    method DeleteTodo(id: int)
      requires Valid()
      modifies this, storage
      ensures Valid()
      ensures todos == Delete(old(todos), id)
      ensures newTodo == old(newTodo) && selectedDate == old(selectedDate) && lastTapTime == old(lastTapTime)
      ensures showLimitWarning == old(showLimitWarning) && showArchiveMessage == old(showArchiveMessage)
      ensures storage.archivedTasks == old(storage.archivedTasks) && storage.lastVisit == old(storage.lastVisit)
    {
      todos := Delete(todos, id);
      storage.todos := Save(todos);
    }

    /** `handleDateSelect`: the calendar picked a date; the draft is cleared. */
    method HandleDateSelect(date: CalDate)
      modifies this
      ensures selectedDate == Some(date) && newTodo == []
      ensures todos == old(todos) && lastTapTime == old(lastTapTime)
      ensures showLimitWarning == old(showLimitWarning) && showArchiveMessage == old(showArchiveMessage)
    {
      selectedDate := Some(date);
      newTodo := [];
    }

    /** `handleTaskTap`: a tap less than DOUBLE_TAP_DELAY after the previous one toggles the
        tapped task; every tap becomes the previous one. */
    method HandleTaskTap(id: int, now: Timestamp)
      requires Valid()
      modifies this, storage
      ensures Valid()
      ensures lastTapTime == now
      ensures todos == if now - old(lastTapTime) < DOUBLE_TAP_DELAY then Toggle(old(todos), id) else old(todos)
      ensures newTodo == old(newTodo) && selectedDate == old(selectedDate)
      ensures showLimitWarning == old(showLimitWarning) && showArchiveMessage == old(showArchiveMessage)
      ensures storage.archivedTasks == old(storage.archivedTasks) && storage.lastVisit == old(storage.lastVisit)
    {
      if now - lastTapTime < DOUBLE_TAP_DELAY {
        ToggleTodo(id);
      }
      lastTapTime := now;
    }

    /** `checkNewDay`: on the first check of a new day the completed tasks are appended to the
        archive, stamped with `now`, and only the open tasks stay; the day is then recorded.
        Reading an unparsable archive throws (`ok` is false) before anything is written. */
    method CheckNewDay(today: CalDate, now: Timestamp) returns (ok: bool)
      requires Valid()
      modifies this, storage
      ensures Valid()
      ensures ok <==> !(old(storage.lastVisit) != Some(today) && |CompletedTasks(old(todos))| > 0
                        && old(storage.archivedTasks).Malformed?)
      ensures !ok || old(storage.lastVisit) == Some(today) ==>
        && todos == old(todos) && showArchiveMessage == old(showArchiveMessage)
        && storage.archivedTasks == old(storage.archivedTasks) && storage.lastVisit == old(storage.lastVisit)
      ensures ok && old(storage.lastVisit) != Some(today) ==>
        && storage.lastVisit == Some(today)
        && todos == PendingTasks(old(todos))
        && (|CompletedTasks(old(todos))| > 0 ==>
              && storage.archivedTasks == Holds(ArchiveEntries(old(storage.archivedTasks)).value
                                                + Stamp(CompletedTasks(old(todos)), now))
              && showArchiveMessage)
        && (|CompletedTasks(old(todos))| == 0 ==>
              storage.archivedTasks == old(storage.archivedTasks) && showArchiveMessage == old(showArchiveMessage))
      ensures newTodo == old(newTodo) && selectedDate == old(selectedDate) && lastTapTime == old(lastTapTime)
      ensures showLimitWarning == old(showLimitWarning)
    {
      ok := true;
      if storage.lastVisit != Some(today) {
        var completed := CompletedTasks(todos);
        if |completed| > 0 {
          var archived := ArchiveEntries(storage.archivedTasks);
          if archived.None? {
            ok := false;
            return;
          }
          storage.archivedTasks := Holds(archived.value + Stamp(completed, now));
          todos := PendingTasks(todos);
          storage.todos := Save(todos);
          showArchiveMessage := true;
        } else {
          NothingCompletedKeepsAll(todos);
        }
        storage.lastVisit := Some(today);
      }
    }
  }
}
