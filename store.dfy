/**
 * The in-memory state of a session: the list of todos and the metadata holding the id
 * counter, with the operations the menu runs on them.
 */
module Store {
  import opened Results
  import opened Strings
  import opened Codec

  /**
   * `todos.iter().position(|t| t.id == id)`, which is also the element that
   * `todos.iter_mut().find(|t| t.id == id)` yields: the index of the first todo with the id.
   */
  function Position(todos: seq<Todo>, id: u32): (r: Option<nat>)
    ensures r.Some? ==> r.value < |todos| && todos[r.value].id == id
    ensures r.Some? ==> forall k :: 0 <= k < r.value ==> todos[k].id != id
    ensures r.None? <==> forall k :: 0 <= k < |todos| ==> todos[k].id != id
  {
    if todos == [] then None
    else if todos[0].id == id then Some(0)
    else match Position(todos[1..], id)
      case None => None
      case Some(k) => Some(k + 1)
  }

  /** Two lists whose ids agree position by position have their first match at the same place. */
  lemma SameIdsSamePosition(a: seq<Todo>, b: seq<Todo>, id: u32)
    requires |a| == |b|
    requires forall k :: 0 <= k < |a| ==> a[k].id == b[k].id
    ensures Position(a, id) == Position(b, id)
  {
    var pa, pb := Position(a, id), Position(b, id);
    if pa.Some? && pb.Some? {
      assert !(pa.value < pb.value) && !(pb.value < pa.value);
    }
  }

  /**
   * The list after `set_todo_completed`: the first todo with the id is marked completed;
   * every todo keeps its place, id, text and timestamp, and no other flag changes.
   */
  function CompleteFirst(todos: seq<Todo>, id: u32): (r: seq<Todo>)
    ensures |r| == |todos|
    ensures forall k :: 0 <= k < |r| ==>
      r[k].id == todos[k].id && r[k].text == todos[k].text && r[k].createdAt == todos[k].createdAt
    ensures forall k :: 0 <= k < |r| ==>
      r[k].isCompleted == (todos[k].isCompleted || Position(todos, id) == Some(k))
  {
    match Position(todos, id)
    case None => todos
    case Some(p) => todos[p := todos[p].(isCompleted := true)]
  }

  /** Completing by an id that no todo has leaves the list as it was. */
  lemma {:induction false} CompleteMissing(todos: seq<Todo>, id: u32)
    requires forall k :: 0 <= k < |todos| ==> todos[k].id != id
    ensures CompleteFirst(todos, id) == todos
  {
    var r := CompleteFirst(todos, id);
    forall k | 0 <= k < |todos| ensures r[k] == todos[k] {
    }
  }

  /** Completing a todo that is already completed changes nothing. */
  lemma {:induction false} CompleteAlreadyCompleted(todos: seq<Todo>, id: u32)
    requires Position(todos, id).Some? && todos[Position(todos, id).value].isCompleted
    ensures CompleteFirst(todos, id) == todos
  {
    var r := CompleteFirst(todos, id);
    forall k | 0 <= k < |todos| ensures r[k] == todos[k] {
    }
  }

  /** Completing twice by the same id is the same as completing once. */
  lemma {:induction false} CompleteTwice(todos: seq<Todo>, id: u32)
    ensures CompleteFirst(CompleteFirst(todos, id), id) == CompleteFirst(todos, id)
  {
    var once := CompleteFirst(todos, id);
    SameIdsSamePosition(todos, once, id);
    if Position(todos, id).Some? {
      CompleteAlreadyCompleted(once, id);
    } else {
      CompleteMissing(once, id);
    }
  }

  /**
   * The list after `delete_todo`: the first todo with the id is removed and the others keep
   * their relative order; with no such todo the list is unchanged.
   */
  function RemoveFirst(todos: seq<Todo>, id: u32): (r: seq<Todo>)
    ensures Position(todos, id).None? ==> r == todos
    ensures Position(todos, id).Some? ==> |r| == |todos| - 1
    ensures Position(todos, id).Some? ==> var p := Position(todos, id).value;
      (forall k :: 0 <= k < p ==> r[k] == todos[k])
      && (forall k :: p <= k < |r| ==> r[k] == todos[k + 1])
  {
    match Position(todos, id)
    case None => todos
    case Some(p) => todos[..p] + todos[p + 1..]
  }

  /** Deleting takes exactly the removed todo out of the list's multiset of todos. */
  lemma RemoveFirstMultiset(todos: seq<Todo>, id: u32)
    requires Position(todos, id).Some?
    ensures var p := Position(todos, id).value;
      multiset(RemoveFirst(todos, id)) + multiset{todos[p]} == multiset(todos)
  {
    var p := Position(todos, id).value;
    assert RemoveFirst(todos, id) == todos[..p] + todos[p + 1..];
    WithoutMultiset(todos, p);
  }

  lemma WithoutMultiset<T>(s: seq<T>, p: nat)
    requires p < |s|
    ensures multiset(s[..p] + s[p + 1..]) + multiset{s[p]} == multiset(s)
  {
    assert s == s[..p] + [s[p]] + s[p + 1..];
  }

  /** No two todos share an id. */
  ghost predicate UniqueIds(todos: seq<Todo>)
  {
    forall j, k :: 0 <= j < k < |todos| ==> todos[j].id != todos[k].id
  }

  /** The store's invariant: ids are unique and none exceeds the counter. */
  ghost predicate IdsFresh(seqId: int, todos: seq<Todo>)
  {
    UniqueIds(todos) && forall k :: 0 <= k < |todos| ==> todos[k].id <= seqId
  }

  /** With unique ids, after a successful delete no todo has that id, so deleting it again finds nothing. */
  lemma {:induction false} DeleteThenMissing(todos: seq<Todo>, id: u32)
    requires UniqueIds(todos)
    requires Position(todos, id).Some?
    ensures |RemoveFirst(todos, id)| == |todos| - 1
    ensures Position(RemoveFirst(todos, id), id).None?
  {
    var p := Position(todos, id).value;
    var r := RemoveFirst(todos, id);
    forall k | 0 <= k < |r| ensures r[k].id != id {
      if k >= p {
        assert r[k] == todos[k + 1];
      }
    }
  }

  /** Appending a todo whose id is the raised counter keeps the invariant. */
  lemma {:induction false} CreateKeepsIdsFresh(seqId: int, todos: seq<Todo>, t: Todo)
    requires IdsFresh(seqId, todos)
    requires t.id == seqId + 1
    ensures IdsFresh(seqId + 1, todos + [t])
  {
    var r := todos + [t];
    forall j, k | 0 <= j < k < |r| ensures r[j].id != r[k].id {
      if k == |todos| {
        assert r[j] == todos[j];
      } else {
        assert r[j] == todos[j] && r[k] == todos[k];
      }
    }
  }

  /** Deleting keeps the invariant. */
  lemma {:induction false} RemoveKeepsIdsFresh(seqId: int, todos: seq<Todo>, id: u32)
    requires IdsFresh(seqId, todos)
    ensures IdsFresh(seqId, RemoveFirst(todos, id))
  {
    if Position(todos, id).Some? {
      var p := Position(todos, id).value;
      var r := RemoveFirst(todos, id);
      assert forall k :: 0 <= k < |r| ==> r[k] == todos[if k < p then k else k + 1];
    }
  }

  /**
   * The rows `print_todos` prints: every todo in order, or, when `onlyOpen` is set, the
   * todos that are not completed.
   */
  function ShownTodos(todos: seq<Todo>, onlyOpen: bool): (r: seq<Todo>)
    ensures !onlyOpen ==> r == todos
    ensures |r| <= |todos|
    ensures forall k :: 0 <= k < |r| ==> r[k] in todos && !(onlyOpen && r[k].isCompleted)
  {
    if todos == [] then []
    else
      var rest := ShownTodos(todos[1..], onlyOpen);
      if onlyOpen && todos[0].isCompleted then rest else [todos[0]] + rest
  }

  /** Every open todo is among the open rows. */
  lemma {:induction false} OpenTodosShown(todos: seq<Todo>, k: nat)
    requires k < |todos| && !todos[k].isCompleted
    ensures todos[k] in ShownTodos(todos, true)
    decreases k
  {
    if k > 0 {
      OpenTodosShown(todos[1..], k - 1);
    }
  }

  /** The rows of two lists in sequence are the rows of each, in sequence. */
  lemma {:induction false} ShownConcat(a: seq<Todo>, b: seq<Todo>, onlyOpen: bool)
    ensures ShownTodos(a + b, onlyOpen) == ShownTodos(a, onlyOpen) + ShownTodos(b, onlyOpen)
    decreases |a|
  {
    if a != [] {
      assert (a + b)[1..] == a[1..] + b;
      ShownConcat(a[1..], b, onlyOpen);
    } else {
      assert a + b == b;
    }
  }

  /**
   * In the list of open todos, completing a todo and deleting it look the same: the todo
   * is gone and the other open todos stay in order.
   */
  lemma {:induction false} CompleteHidesFromOpen(todos: seq<Todo>, id: u32)
    ensures ShownTodos(CompleteFirst(todos, id), true) == ShownTodos(RemoveFirst(todos, id), true)
  {
    if Position(todos, id).Some? {
      var p := Position(todos, id).value;
      var done := todos[p].(isCompleted := true);
      assert CompleteFirst(todos, id) == todos[p := done];
      assert todos[p := done] == todos[..p] + [done] + todos[p + 1..];
      assert RemoveFirst(todos, id) == todos[..p] + todos[p + 1..];
      ShownConcat(todos[..p] + [done], todos[p + 1..], true);
      ShownConcat(todos[..p], [done], true);
      assert ShownTodos([done], true) == [];
      ShownConcat(todos[..p], todos[p + 1..], true);
    }
  }

  /** Width of the id column for one todo: `id.to_string().len()`. */
  function IdWidth(t: Todo): nat
  {
    |Decimal(t.id)|
  }

  /** Width of the text column for one todo: `text.len()`, the UTF-8 byte length. */
  function TextWidth(t: Todo): nat
  {
    Utf8Len(t.text)
  }

  /**
   * The column widths of a table of `todos`: the widest id, 10 for the date, the widest
   * text and 4 for the flag, where each maximum belongs to some todo, or is 0 for an
   * empty list.
   */
  predicate ColumnSizes(todos: seq<Todo>, sizes: seq<nat>)
  {
    && |sizes| == 4 && sizes[1] == 10 && sizes[3] == 4
    && (forall k :: 0 <= k < |todos| ==> IdWidth(todos[k]) <= sizes[0])
    && (forall k :: 0 <= k < |todos| ==> TextWidth(todos[k]) <= sizes[2])
    && (todos == [] ==> sizes[0] == 0 && sizes[2] == 0)
    && (todos != [] ==> exists k :: 0 <= k < |todos| && IdWidth(todos[k]) == sizes[0])
    && (todos != [] ==> exists k :: 0 <= k < |todos| && TextWidth(todos[k]) == sizes[2])
  }

  /** `get_size_for_columns`: the widths by running maxima over the list. */
  method GetSizeForColumns(todos: seq<Todo>) returns (sizes: seq<nat>)
    ensures ColumnSizes(todos, sizes)
  {
    var idColumnSize := 0;
    var textColumnSize := 0;
    ghost var widestId, widestText := 0, 0;
    for i := 0 to |todos|
      invariant forall k :: 0 <= k < i ==> IdWidth(todos[k]) <= idColumnSize
      invariant forall k :: 0 <= k < i ==> TextWidth(todos[k]) <= textColumnSize
      invariant i == 0 ==> idColumnSize == 0 && textColumnSize == 0 && widestId == 0 && widestText == 0
      invariant i > 0 ==> widestId < i && IdWidth(todos[widestId]) == idColumnSize
      invariant i > 0 ==> widestText < i && TextWidth(todos[widestText]) == textColumnSize
    {
      var idStr := Decimal(todos[i].id);
      if |idStr| > idColumnSize {
        idColumnSize := |idStr|;
        widestId := i;
      }
      if Utf8Len(todos[i].text) > textColumnSize {
        textColumnSize := Utf8Len(todos[i].text);
        widestText := i;
      }
    }
    sizes := [];
    sizes := sizes + [idColumnSize];
    sizes := sizes + [10];
    sizes := sizes + [textColumnSize];
    sizes := sizes + [4];
  }

  /**
   * The state `main` keeps for a session: the metadata with the id counter and the list of
   * todos, changed in place by the menu's operations.
   */
  class TodoStore {
    var metadata: Metadata
    var todos: seq<Todo>

    ghost predicate Valid()
      reads this
    {
      IdsFresh(metadata.seqId, todos)
    }

    constructor (metadata: Metadata, todos: seq<Todo>)
      ensures this.metadata == metadata && this.todos == todos
    {
      this.metadata := metadata;
      this.todos := todos;
    }

    /**
     * `new_todo`: raises the counter by one and builds an open todo with the new counter as
     * its id, the trimmed input as its text and `now` as its timestamp. At `u32::MAX` the
     * increment overflows, which panics.
     */
    method NewTodo(input: string, now: Timestamp) returns (r: Outcome<Todo>)
      modifies this`metadata
      ensures old(metadata.seqId) < U32_MAX ==>
        metadata.seqId == old(metadata.seqId) + 1 && r == Ok(Todo(metadata.seqId, false, Trim(input), now))
      ensures old(metadata.seqId) == U32_MAX ==> metadata == old(metadata) && r == Panic
      ensures old(Valid()) ==> Valid()
    {
      if metadata.seqId == U32_MAX {
        return Panic;
      }
      metadata := metadata.(seqId := metadata.seqId + 1);
      r := Ok(Todo(metadata.seqId, false, Trim(input), now));
    }

    /** Menu choice 3: `new_todo`, then the new todo is pushed onto the list. */
    method Create(input: string, now: Timestamp) returns (r: Outcome<Todo>)
      modifies this
      ensures old(metadata.seqId) < U32_MAX ==>
        && r == Ok(Todo(old(metadata.seqId) + 1, false, Trim(input), now))
        && metadata.seqId == old(metadata.seqId) + 1
        && todos == old(todos) + [r.value]
      ensures old(metadata.seqId) == U32_MAX ==> r == Panic && unchanged(this)
      ensures old(Valid()) ==> Valid()
    {
      ghost var wasValid := Valid();
      ghost var before := todos;
      r := NewTodo(input, now);
      assert todos == before;
      if r.Ok? {
        if wasValid {
          CreateKeepsIdsFresh(metadata.seqId - 1, before, r.value);
        }
        todos := todos + [r.value];
        assert wasValid ==> IdsFresh(metadata.seqId, todos);
      }
    }

    /** `set_todo_completed`: marks the first todo with the id completed; reports whether there was one. */
    method SetTodoCompleted(id: u32) returns (found: bool)
      modifies this`todos
      ensures found <==> exists k :: 0 <= k < |old(todos)| && old(todos)[k].id == id
      ensures todos == CompleteFirst(old(todos), id)
      ensures old(Valid()) ==> Valid()
    {
      match Position(todos, id) {
        case Some(p) =>
          todos := todos[p := todos[p].(isCompleted := true)];
          found := true;
        case None =>
          found := false;
      }
    }

    /** `delete_todo`: removes the first todo with the id; reports whether there was one. */
    method DeleteTodo(id: u32) returns (found: bool)
      modifies this`todos
      ensures found <==> exists k :: 0 <= k < |old(todos)| && old(todos)[k].id == id
      ensures todos == RemoveFirst(old(todos), id)
      ensures old(Valid()) ==> Valid()
    {
      if Valid() {
        RemoveKeepsIdsFresh(metadata.seqId, todos, id);
      }
      match Position(todos, id) {
        case Some(index) =>
          todos := todos[..index] + todos[index + 1..];
          found := true;
        case None =>
          found := false;
      }
    }
  }
}
