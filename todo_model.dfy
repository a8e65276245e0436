/** The task list of the `Todo` component (src/components/Todo.tsx) as values: the task record,
    its storage encoding, and the list transforms behind loading, adding, toggling, deleting,
    filtering by day and archiving. */
module TodoModel {
  import opened Optional
  import opened Seqs
  import opened Gregorian

  /** One task: `id` is the `Date.now()` of its creation, `createdAt` the local midnight of
      the day it was created. Ids are not guaranteed to be unique. */
  datatype Todo = Todo(id: int, text: string, completed: bool, createdAt: Timestamp)

  /** A completed task moved to the archive, stamped with the time it was archived. */
  datatype Archived = Archived(task: Todo, archivedAt: Timestamp)

  const MAX_TASKS: nat := 100

  // ---------------------------------------------------------------------------------------
  // Storage

  /** What a local-storage key yields once read and parsed as JSON: nothing (a missing key or
      an empty string), text that does not parse to a list, or a list of records. */
  datatype Slot<T> = Empty | Malformed | Holds(items: seq<T>)

  /** Serialising the whole list replaces the stored value; a list within the limit reads
      back unchanged. */
  function Save(todos: seq<Todo>): (r: Slot<Todo>)
    ensures |todos| <= MAX_TASKS ==> Load(r) == todos
  {
    Holds(todos)
  }

  /** The initial load: an absent or unparsable value gives the empty list and never fails;
      otherwise the first MAX_TASKS stored tasks, in order. */
  function Load(slot: Slot<Todo>): (r: seq<Todo>)
    ensures |r| <= MAX_TASKS
    ensures !slot.Holds? ==> r == []
    ensures slot.Holds? ==> r <= slot.items
    ensures slot.Holds? ==> |r| == if |slot.items| < MAX_TASKS then |slot.items| else MAX_TASKS
  {
    match slot
    case Holds(items) => if |items| <= MAX_TASKS then items else items[..MAX_TASKS]
    case _ => []
  }

  /** Saving what was loaded and loading again gives the same list, whatever was stored. */
  lemma ReloadIsStable(slot: Slot<Todo>)
    ensures Load(Save(Load(slot))) == Load(slot)
  {
  }

  /** The archive as `JSON.parse(localStorage.getItem('archivedTasks') || '[]')` reads it:
      nothing stored means no entries; unparsable text makes the parse throw (None). */
  function ArchiveEntries(slot: Slot<Archived>): Option<seq<Archived>> {
    match slot
    case Empty => Some([])
    case Malformed => None
    case Holds(items) => Some(items)
  }

  // ---------------------------------------------------------------------------------------
  // Text of a new task

  /** The characters `String.prototype.trim` removes: ECMAScript white space and line
      terminators. */
  predicate IsWhitespace(c: char) {
    c in {'\U{0009}', '\U{000A}', '\U{000B}', '\U{000C}', '\U{000D}', '\U{0020}', '\U{00A0}', '\U{1680}',
          '\U{2000}', '\U{2001}', '\U{2002}', '\U{2003}', '\U{2004}', '\U{2005}', '\U{2006}', '\U{2007}',
          '\U{2008}', '\U{2009}', '\U{200A}', '\U{2028}', '\U{2029}', '\U{202F}', '\U{205F}', '\U{3000}',
          '\U{FEFF}'}
  }

  predicate AllWhitespace(s: string) {
    All(s, IsWhitespace)
  }

  /** `text.trim()`: the part of `text` between its leading and trailing white space. */
  function Trim(s: string): (r: string)
    ensures var i := LeadingRun(s, IsWhitespace);
      && i + |r| <= |s| && r == s[i..i + |r|]
      && AllWhitespace(s[..i]) && AllWhitespace(s[i + |r|..])
    ensures r == [] || (!IsWhitespace(r[0]) && !IsWhitespace(r[|r| - 1]))
    ensures r == [] <==> AllWhitespace(s)
  {
    Strip(s, IsWhitespace)
  }

  lemma TrimIdempotent(s: string)
    ensures Trim(Trim(s)) == Trim(s)
  {
    StripIdempotent(s, IsWhitespace);
  }

  // ---------------------------------------------------------------------------------------
  // Adding, toggling and deleting

  /** The task that `addTodo` builds from the draft text, the clock and local midnight: from a
      draft that is not blank, an open task whose text is non-empty and has no white space at
      either end, and whose text is already trimmed. */
  function NewTask(draft: string, now: Timestamp, startOfToday: Timestamp): (t: Todo)
    ensures !t.completed && t.id == now && t.createdAt == startOfToday
    ensures t.text == Trim(draft)
    ensures !AllWhitespace(draft) ==>
      |t.text| > 0 && !IsWhitespace(t.text[0]) && !IsWhitespace(t.text[|t.text| - 1])
    ensures Trim(t.text) == t.text
  {
    TrimIdempotent(draft);
    Todo(now, Trim(draft), false, startOfToday)
  }

  /** Why `addTodo` may refuse: blank text, or a full list. */
  datatype AddOutcome = Added | BlankText | LimitReached

  function AddCheck(todos: seq<Todo>, draft: string): (o: AddOutcome)
    ensures o == BlankText <==> AllWhitespace(draft)
    ensures o == LimitReached <==> !AllWhitespace(draft) && |todos| >= MAX_TASKS
    ensures o == Added <==> !AllWhitespace(draft) && |todos| < MAX_TASKS
  {
    if Trim(draft) == [] then BlankText
    else if |todos| >= MAX_TASKS then LimitReached
    else Added
  }

  /** Toggling flips one task's completion when its id matches. */
  function Flip(t: Todo, id: int): Todo {
    if t.id == id then t.(completed := !t.completed) else t
  }

  /** `toggleTodo(id)`: every task carrying `id` changes its completion; nothing else changes. */
  function Toggle(todos: seq<Todo>, id: int): (r: seq<Todo>)
    ensures |r| == |todos|
    ensures forall i :: 0 <= i < |r| ==>
      && r[i].id == todos[i].id && r[i].text == todos[i].text && r[i].createdAt == todos[i].createdAt
      && (r[i].completed != todos[i].completed <==> todos[i].id == id)
  {
    seq(|todos|, i requires 0 <= i < |todos| => Flip(todos[i], id))
  }

  lemma ToggleTwice(todos: seq<Todo>, id: int)
    ensures Toggle(Toggle(todos, id), id) == todos
  {
  }

  lemma ToggleAbsentId(todos: seq<Todo>, id: int)
    requires forall i :: 0 <= i < |todos| ==> todos[i].id != id
    ensures Toggle(todos, id) == todos
  {
  }

  lemma ToggleCons(t: Todo, rest: seq<Todo>, id: int)
    ensures Toggle([t] + rest, id) == [Flip(t, id)] + Toggle(rest, id)
  {
  }

  /** The filter of `deleteTodo(id)`: keep the tasks that carry another id. */
  function KeepsOtherThan(id: int): Todo -> bool {
    (t: Todo) => t.id != id
  }

  /** `deleteTodo(id)`: exactly the tasks carrying `id` go; the rest keep their order. */
  function Delete(todos: seq<Todo>, id: int): (r: seq<Todo>)
    ensures forall i :: 0 <= i < |r| ==> r[i].id != id
    ensures forall t :: multiset(r)[t] == if t.id != id then multiset(todos)[t] else 0
    ensures IsSubsequence(r, todos)
  {
    FilterIsSubsequence(todos, KeepsOtherThan(id));
    FilterCounts(todos, KeepsOtherThan(id));
    Filter(todos, KeepsOtherThan(id))
  }

  lemma DeleteIdempotent(todos: seq<Todo>, id: int)
    ensures Delete(Delete(todos, id), id) == Delete(todos, id)
  {
    FilterIdempotent(todos, KeepsOtherThan(id));
  }

  lemma DeleteAbsentId(todos: seq<Todo>, id: int)
    requires forall i :: 0 <= i < |todos| ==> todos[i].id != id
    ensures Delete(todos, id) == todos
  {
    FilterKeepsAll(todos, KeepsOtherThan(id));
  }

  /** Toggling one id and deleting another commute; and deleting an id undoes any toggle of it. */
  lemma {:induction false} ToggleThenDelete(todos: seq<Todo>, toggled: int, deleted: int)
    ensures toggled != deleted ==> Delete(Toggle(todos, toggled), deleted) == Toggle(Delete(todos, deleted), toggled)
    ensures Delete(Toggle(todos, deleted), deleted) == Delete(todos, deleted)
  {
    if todos != [] {
      ToggleThenDelete(todos[1..], toggled, deleted);
      assert todos == [todos[0]] + todos[1..];
      ToggleCons(todos[0], todos[1..], toggled);
      ToggleCons(todos[0], todos[1..], deleted);
      if todos[0].id != deleted {
        ToggleCons(todos[0], Delete(todos[1..], deleted), toggled);
      }
    }
  }

  // ---------------------------------------------------------------------------------------
  // Day filter

  /** The filter of `filteredTodos`: the task was created on calendar day `day`. */
  function CreatedOn(day: CalDate, localDate: Timestamp -> CalDate): Todo -> bool {
    (t: Todo) => SameDay(localDate(t.createdAt), day)
  }

  /** `filteredTodos`: the whole list when no date is selected, otherwise the tasks created on
      the selected day, in list order. */
  function DayFilter(todos: seq<Todo>, selected: Option<CalDate>, localDate: Timestamp -> CalDate): (r: seq<Todo>)
    ensures selected.None? ==> r == todos
    ensures selected.Some? ==> IsSubsequence(r, todos)
    ensures selected.Some? ==> forall i :: 0 <= i < |r| ==> SameDay(localDate(r[i].createdAt), selected.value)
    ensures selected.Some? ==>
      forall t :: multiset(r)[t] == if SameDay(localDate(t.createdAt), selected.value) then multiset(todos)[t] else 0
  {
    match selected
    case None => todos
    case Some(day) =>
      FilterIsSubsequence(todos, CreatedOn(day, localDate));
      FilterCounts(todos, CreatedOn(day, localDate));
      Filter(todos, CreatedOn(day, localDate))
  }

  /** A task added today shows at the end of today's view. */
  lemma AddedTaskShownToday(todos: seq<Todo>, t: Todo, today: CalDate, localDate: Timestamp -> CalDate)
    requires localDate(t.createdAt) == today
    ensures DayFilter(todos + [t], Some(today), localDate) == DayFilter(todos, Some(today), localDate) + [t]
  {
    FilterConcat(todos, [t], CreatedOn(today, localDate));
    assert Filter([t], CreatedOn(today, localDate)) == [t];
  }

  // ---------------------------------------------------------------------------------------
  // New-day archival

  predicate IsCompleted(t: Todo) { t.completed }

  predicate IsPending(t: Todo) { !t.completed }

  /** The tasks that the new-day check moves to the archive, in list order. */
  function CompletedTasks(todos: seq<Todo>): (r: seq<Todo>)
    ensures forall i :: 0 <= i < |r| ==> r[i].completed
    ensures IsSubsequence(r, todos)
  {
    FilterIsSubsequence(todos, IsCompleted);
    Filter(todos, IsCompleted)
  }

  /** The tasks that stay in the list after the new-day check, in list order. */
  function PendingTasks(todos: seq<Todo>): (r: seq<Todo>)
    ensures forall i :: 0 <= i < |r| ==> !r[i].completed
    ensures IsSubsequence(r, todos)
  {
    FilterIsSubsequence(todos, IsPending);
    Filter(todos, IsPending)
  }

  /** Each archived entry is the task with an `archivedAt` stamp added. */
  function Stamp(tasks: seq<Todo>, now: Timestamp): seq<Archived> {
    seq(|tasks|, i requires 0 <= i < |tasks| => Archived(tasks[i], now))
  }

  function TasksOf(entries: seq<Archived>): seq<Todo> {
    seq(|entries|, i requires 0 <= i < |entries| => entries[i].task)
  }

  /** Archival loses no task and invents none: the archived tasks and the remaining ones are
      together a permutation of the list before. */
  lemma ArchivalLosesNothing(todos: seq<Todo>, now: Timestamp)
    ensures TasksOf(Stamp(CompletedTasks(todos), now)) == CompletedTasks(todos)
    ensures forall e :: e in Stamp(CompletedTasks(todos), now) ==> e.archivedAt == now && e.task.completed
    ensures multiset(CompletedTasks(todos)) + multiset(PendingTasks(todos)) == multiset(todos)
    ensures |CompletedTasks(todos)| + |PendingTasks(todos)| == |todos|
  {
    FilterPartition(todos, IsCompleted, IsPending);
  }

  /** With nothing completed, the new-day check leaves the list as it is. */
  lemma NothingCompletedKeepsAll(todos: seq<Todo>)
    requires |CompletedTasks(todos)| == 0
    ensures PendingTasks(todos) == todos
  {
    FilterCounts(todos, IsCompleted);
    forall i | 0 <= i < |todos|
      ensures IsPending(todos[i])
    {
      assert todos[i] in multiset(todos);
    }
    FilterKeepsAll(todos, IsPending);
  }
}
