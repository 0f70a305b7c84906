/**
 * The menu side of `main`: which action a typed choice selects, how an id typed at the
 * prompt is read, what one pass through the loop does to the store, and how a session
 * starts from the file's text.
 */
module Menu {
  import opened Results
  import opened Strings
  import opened Codec
  import opened Store

  /** The menu's actions; every choice other than the keys 1 to 5 saves and exits. */
  datatype Command = ShowAll | ShowOpen | Create | Complete | Delete | SaveAndExit

  /** The key the menu lists for each action. */
  function Key(c: Command): string
  {
    match c
    case ShowAll => "1"
    case ShowOpen => "2"
    case Create => "3"
    case Complete => "4"
    case Delete => "5"
    case SaveAndExit => "6"
  }

  /**
   * The `match input.trim()` of the loop: "1" to "5" select their action and anything else,
   * "6" included, saves and exits.
   */
  function ParseCommand(input: string): (c: Command)
    ensures c != SaveAndExit <==> Trim(input) in {"1", "2", "3", "4", "5"}
    ensures c != SaveAndExit ==> Trim(input) == Key(c)
  {
    var choice := Trim(input);
    if choice == "1" then ShowAll
    else if choice == "2" then ShowOpen
    else if choice == "3" then Create
    else if choice == "4" then Complete
    else if choice == "5" then Delete
    else SaveAndExit
  }

  /** Typing an action's key, as `read_line` returns it with its `\n`, selects that action. */
  lemma KeySelects(c: Command)
    ensures ParseCommand(Key(c) + "\n") == c
  {
    TrimLine(Key(c));
  }

  /** `input.trim().parse::<u32>()` on the line typed for an id; `None` is the panic of its `unwrap`. */
  function ParseIdLine(line: string): Option<u32>
  {
    ParseU32(Trim(line))
  }

  /** An id typed as its decimal digits and a `\n` reads back as that id. */
  lemma IdLineRoundTrip(id: u32)
    ensures ParseIdLine(Decimal(id) + "\n") == Some(id)
  {
    var d := Decimal(id);
    assert IsDigit(d[0]) && IsDigit(d[|d| - 1]);
    TrimLine(d);
    ParseDecimal(id);
  }

  /** What one pass through the loop produces. */
  datatype StepResult =
    | Listed(rows: seq<Todo>, widths: seq<nat>)  // choices 1 and 2: the printed rows and column widths
    | Added(todo: Todo)                          // choice 3: the todo created
    | Searched(found: bool)                      // choices 4 and 5: false prints "Could not find Todo by that id"
    | Saved(file: string)                        // any other choice: the text written; the loop ends
    | Aborted                                    // a panic

  /**
   * One pass through the loop of `main`: `choice` is the line typed at the menu prompt and
   * `arg` the line the chosen action reads, if any; `now` is the clock reading `new_todo` takes.
   */
  method Step(store: TodoStore, choice: string, arg: string, now: Timestamp) returns (r: StepResult)
    modifies store
    ensures old(store.Valid()) ==> store.Valid()
    ensures ParseCommand(choice) in {ShowAll, ShowOpen} ==>
      && unchanged(store)
      && r.Listed?
      && r.rows == ShownTodos(store.todos, ParseCommand(choice) == ShowOpen)
      && ColumnSizes(store.todos, r.widths)
    ensures ParseCommand(choice) == Create ==>
      if old(store.metadata.seqId) < U32_MAX then
        && r == Added(Todo(old(store.metadata.seqId) + 1, false, Trim(arg), now))
        && store.metadata.seqId == old(store.metadata.seqId) + 1
        && store.todos == old(store.todos) + [r.todo]
      else r == Aborted && unchanged(store)
    ensures ParseCommand(choice) == Complete ==>
      match ParseIdLine(arg)
      case None => r == Aborted && unchanged(store)
      case Some(id) =>
        && r == Searched(Position(old(store.todos), id).Some?)
        && store.todos == CompleteFirst(old(store.todos), id)
        && store.metadata == old(store.metadata)
    ensures ParseCommand(choice) == Delete ==>
      match ParseIdLine(arg)
      case None => r == Aborted && unchanged(store)
      case Some(id) =>
        && r == Searched(Position(old(store.todos), id).Some?)
        && store.todos == RemoveFirst(old(store.todos), id)
        && store.metadata == old(store.metadata)
    ensures ParseCommand(choice) == SaveAndExit ==>
      r == Saved(SaveText(store.metadata, store.todos)) && unchanged(store)
  {
    match ParseCommand(choice) {
      case ShowAll =>
        var widths := GetSizeForColumns(store.todos);
        r := Listed(ShownTodos(store.todos, false), widths);
      case ShowOpen =>
        var widths := GetSizeForColumns(store.todos);
        r := Listed(ShownTodos(store.todos, true), widths);
      case Create =>
        var created := store.Create(arg, now);
        r := if created.Ok? then Added(created.value) else Aborted;
      case Complete =>
        match ParseIdLine(arg) {
          case None =>
            r := Aborted;
          case Some(id) =>
            var found := store.SetTodoCompleted(id);
            r := Searched(found);
        }
      case Delete =>
        match ParseIdLine(arg) {
          case None =>
            r := Aborted;
          case Some(id) =>
            var found := store.DeleteTodo(id);
            r := Searched(found);
        }
      case SaveAndExit =>
        r := Saved(SaveText(store.metadata, store.todos));
    }
  }

  /**
   * The start of `main`: `load_metadata`, then `load_todos` into an empty list, both over
   * the text of the file; either one panicking ends the program.
   */
  method Open(file: string) returns (r: Outcome<TodoStore>)
    ensures r.Panic? <==> LoadFile(file).Panic?
    ensures r.Ok? ==> fresh(r.value) && (r.value.metadata, r.value.todos) == LoadFile(file).value
  {
    var metadata := LoadMetadata(file);
    if metadata.Panic? {
      return Panic;
    }
    var todos := LoadTodos(file);
    if todos.Panic? {
      return Panic;
    }
    var store := new TodoStore(metadata.value, todos.value);
    return Ok(store);
  }

  /**
   * Saving a store that keeps its invariant and starting again from the saved text gives a
   * store that keeps it too, and the id the next creation takes, the counter plus one, is
   * held by no loaded todo.
   */
  lemma ReloadResumesAbove(m: Metadata, todos: seq<Todo>)
    requires IdsFresh(m.seqId, todos)
    requires forall k :: 0 <= k < |todos| ==> ',' !in todos[k].text && '\n' !in todos[k].text
    ensures LoadFile(SaveText(m, todos)).Ok?
    ensures var (loaded, list) := LoadFile(SaveText(m, todos)).value;
      && IdsFresh(loaded.seqId, list)
      && (loaded.seqId < U32_MAX ==> Position(list, loaded.seqId + 1).None?)
  {
    SaveLoadRoundTrip(m, todos);
  }

  /**
   * A later session: the saved text is opened again and a todo is created. The program
   * starts without panicking, and, unless the counter is at `u32::MAX`, the new todo is
   * appended with an id that no loaded todo has.
   */
  method ReopenAndCreate(m: Metadata, todos: seq<Todo>, input: string, now: Timestamp)
    returns (store: TodoStore, r: Outcome<Todo>)
    requires IdsFresh(m.seqId, todos)
    requires forall k :: 0 <= k < |todos| ==> ',' !in todos[k].text && '\n' !in todos[k].text
    ensures store.Valid()
    ensures r.Ok? <==> m.seqId < U32_MAX
    ensures r.Ok? ==>
      && store.todos == todos + [r.value]
      && forall k :: 0 <= k < |todos| ==> todos[k].id != r.value.id
  {
    ReloadResumesAbove(m, todos);
    SaveLoadRoundTrip(m, todos);
    var start := Open(SaveText(m, todos));
    store := start.value;
    assert store.metadata == m && store.todos == todos;
    r := store.Create(input, now);
  }

  /** The edits of the session below, on the list the two creations leave. */
  lemma ExampleEdits(milk: Todo, dog: Todo)
    requires milk == Todo(1, false, "buy milk", milk.createdAt)
    requires dog == Todo(2, false, "walk dog", dog.createdAt)
    ensures Position([milk, dog], 1) == Some(0)
    ensures CompleteFirst([milk, dog], 1) == [milk.(isCompleted := true), dog]
    ensures ShownTodos([milk.(isCompleted := true), dog], true) == [dog]
    ensures Position([milk.(isCompleted := true), dog], 2) == Some(1)
    ensures RemoveFirst([milk.(isCompleted := true), dog], 2) == [milk.(isCompleted := true)]
    ensures Position([milk.(isCompleted := true)], 2) == None
  {
    var done := milk.(isCompleted := true);
    assert [done, dog][1..] == [dog];
    assert ShownTodos([dog], true) == [dog];
    assert [done, dog][..1] + [done, dog][2..] == [done];
  }

  /** Saving the list the session ends with and loading it again gives it back. */
  lemma ExampleReload(done: Todo)
    requires done == Todo(1, true, "buy milk", done.createdAt)
    ensures LoadFile(SaveText(Metadata(2), [done])) == Ok((Metadata(2), [done]))
  {
    assert forall c :: c in done.text ==> c != ',' && c != '\n';
    SaveLoadRoundTrip(Metadata(2), [done]);
  }

  /** The first half of the session below: two todos typed into an empty store. */
  method ExampleStart(now: Timestamp) returns (store: TodoStore)
    ensures fresh(store)
    ensures store.metadata == Metadata(2)
    ensures store.todos == [Todo(1, false, "buy milk", now), Todo(2, false, "walk dog", now)]
  {
    store := new TodoStore(Metadata(0), []);
    TrimLine("buy milk");
    TrimLine("walk dog");
    var milk := store.Create("buy milk\n", now);
    var dog := store.Create("walk dog\n", now);
    assert milk.value == Todo(1, false, "buy milk", now);
    assert dog.value == Todo(2, false, "walk dog", now);
  }

  /**
   * A session from an empty store: two todos are created, the first is completed and the
   * second deleted; the completed one stays in the list, and saving and loading again gives
   * the same counter and list.
   */
  method ExampleSession()
  {
    var now: Timestamp := "2024-05-01T09:00:00+02:00";
    var store := ExampleStart(now);
    var milk := store.todos[0];
    var done := milk.(isCompleted := true);
    ExampleEdits(milk, store.todos[1]);
    var found := store.SetTodoCompleted(1);
    assert found && store.todos[1].id == 2;
    assert ShownTodos(store.todos, true) == [store.todos[1]];
    found := store.DeleteTodo(2);
    // The completed todo 1 is still in the list: deleting removes only todo 2.
    assert found && store.todos == [done];
    found := store.DeleteTodo(2);
    assert !found && store.todos == [done];
    ExampleReload(done);
    assert LoadFile(SaveText(store.metadata, store.todos)) == Ok((Metadata(2), [done]));
  }
}
