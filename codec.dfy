/**
 * The persistence format of the todo store: a `seq_id:<n>` metadata line, then one
 * `<id>,<timestamp>,<text>,<is_completed>` line per todo, joined with `\n`.
 */
module Codec {
  import opened Results
  import opened Strings

  /**
   * What a timestamp is written as. The real program writes chrono's debug rendering of a
   * local date-time; here a timestamp is that rendering itself, taken to be non-empty and
   * free of `,` and `\n`, and parsing accepts exactly such text.
   */
  predicate IsTimestampText(s: string)
  {
    |s| > 0 && forall k :: 0 <= k < |s| ==> s[k] != ',' && s[k] != '\n'
  }

  type Timestamp = s: string | IsTimestampText(s) witness "1970-01-01T00:00:00+01:00"

  /** `{:?}` of a timestamp: its rendering, which parses back to it. */
  function FormatTimestamp(t: Timestamp): (s: string)
    ensures ',' !in s && '\n' !in s && |s| > 0
    ensures ParseTimestamp(s) == Some(t)
  {
    t
  }

  /** `str::parse::<DateTime<Local>>`. */
  function ParseTimestamp(s: string): Option<Timestamp>
  {
    if IsTimestampText(s) then Some(s) else None
  }

  datatype Todo = Todo(id: u32, isCompleted: bool, text: string, createdAt: Timestamp)

  datatype Metadata = Metadata(seqId: u32)

  const MetadataPrefix: string := "seq_id:"

  /** `Display` for `Metadata`. */
  function FormatMetadata(m: Metadata): string
  {
    MetadataPrefix + Decimal(m.seqId)
  }

  /**
   * `Metadata::from_str`: the line must start with `seq_id:` and split on `:` into exactly
   * two parts, else it is rejected; a second part that is not a `u32` panics.
   */
  function ParseMetadata(s: string): FromStr<Metadata>
  {
    if !(MetadataPrefix <= s) then Rejected
    else
      var elements := Split(s, ':');
      if |elements| != 2 then Rejected
      else match ParseU32(elements[1])
        case None => Panicked
        case Some(n) => Parsed(Metadata(n))
  }

  /**
   * What `Metadata::from_str` accepts, without splitting: the prefix `seq_id:` followed by a
   * rest that holds no `:`; that rest must then be a `u32`.
   */
  lemma {:induction false} ParseMetadataExactly(s: string)
    ensures !(MetadataPrefix <= s) ==> ParseMetadata(s) == Rejected
    ensures MetadataPrefix <= s ==>
      var rest := s[|MetadataPrefix|..];
      ParseMetadata(s) == if ':' in rest then Rejected
                          else match ParseU32(rest)
                            case None => Panicked
                            case Some(n) => Parsed(Metadata(n))
  {
    if MetadataPrefix <= s {
      var rest := s[|MetadataPrefix|..];
      assert s == "seq_id" + [':'] + rest;
      SplitAround("seq_id", rest, ':');
      SplitWithout("seq_id", ':');
      if ':' !in rest {
        SplitWithout(rest, ':');
      } else {
        SplitCount(rest, ':');
        OccurrencesBounds(rest, ':');
      }
    }
  }

  /** Parsing the displayed metadata gives it back. */
  lemma MetadataRoundTrip(m: Metadata)
    ensures ParseMetadata(FormatMetadata(m)) == Parsed(m)
  {
    var digits := Decimal(m.seqId);
    var s := FormatMetadata(m);
    ParseMetadataExactly(s);
    assert s[|MetadataPrefix|..] == digits;
    assert forall k :: 0 <= k < |digits| ==> digits[k] != ':';
    ParseDecimal(m.seqId);
  }

  /** `Display` for `Todo`. */
  function FormatTodo(t: Todo): string
  {
    Decimal(t.id) + "," + FormatTimestamp(t.createdAt) + "," + t.text + "," + ShowBool(t.isCompleted)
  }

  /**
   * `Todo::from_str`: the line is split on `,`; it is rejected unless there are exactly four
   * fields, that is, exactly three commas; an id that is not a `u32`, a timestamp that does
   * not parse or a flag that is not a `bool` panics.
   */
  function ParseTodo(s: string): (r: FromStr<Todo>)
    ensures r == Rejected <==> Occurrences(s, ',') != 3
    ensures r.Parsed? ==> ',' !in r.value.text
  {
    var elements := Split(s, ',');
    SplitCount(s, ',');
    SplitPartsFree(s, ',');
    if |elements| != 4 then Rejected
    else
      match (ParseU32(elements[0]), ParseTimestamp(elements[1]), ParseBool(elements[3]))
      case (Some(id), Some(createdAt), Some(isCompleted)) =>
        Parsed(Todo(id, isCompleted, elements[2], createdAt))
      case _ => Panicked
  }

  /** A digit string and a displayed `bool` hold neither `,` nor `\n`, and the flag ends in `e`. */
  lemma FieldsAreLineFree(n: nat, b: bool)
    ensures ',' !in Decimal(n) && '\n' !in Decimal(n)
    ensures ',' !in ShowBool(b) && '\n' !in ShowBool(b)
    ensures ShowBool(b)[|ShowBool(b)| - 1] == 'e'
  {
    var d := Decimal(n);
    assert forall k :: 0 <= k < |d| ==> d[k] != ',' && d[k] != '\n';
  }

  /** A todo line splits into its id, timestamp and flag around the pieces of its text. */
  lemma {:induction false} FormatTodoFields(t: Todo)
    ensures Split(FormatTodo(t), ',') ==
      [Decimal(t.id), FormatTimestamp(t.createdAt)] + Split(t.text, ',') + [ShowBool(t.isCompleted)]
  {
    var a, b, c, d := Decimal(t.id), FormatTimestamp(t.createdAt), t.text, ShowBool(t.isCompleted);
    FieldsAreLineFree(t.id, t.isCompleted);
    var x3 := c + [','] + d;
    var x2 := b + [','] + x3;
    var x1 := a + [','] + x2;
    assert FormatTodo(t) == x1;
    SplitAround(c, d, ',');
    SplitWithout(d, ',');
    assert Split(x3, ',') == Split(c, ',') + [d];
    SplitAround(b, x3, ',');
    SplitWithout(b, ',');
    assert Split(x2, ',') == [b] + Split(x3, ',');
    SplitAround(a, x2, ',');
    SplitWithout(a, ',');
    assert Split(x1, ',') == [a] + Split(x2, ',');
    Regroup(a, b, Split(c, ','), d);
  }

  lemma Regroup<T>(a: T, b: T, middle: seq<T>, d: T)
    ensures [a] + ([b] + (middle + [d])) == [a, b] + middle + [d]
  {
  }

  /** A todo line holds a `\n` exactly when its text does, and it always ends in `e`. */
  lemma FormatTodoShape(t: Todo)
    ensures '\n' in FormatTodo(t) <==> '\n' in t.text
    ensures |FormatTodo(t)| > 0 && FormatTodo(t)[|FormatTodo(t)| - 1] == 'e'
  {
    FieldsAreLineFree(t.id, t.isCompleted);
  }

  /**
   * Parsing a displayed todo gives it back exactly when its text holds no `,`; a text with a
   * `,` makes the line split into more than four fields, and the line is rejected.
   */
  lemma {:induction false} TodoRoundTrip(t: Todo)
    ensures ',' !in t.text ==> ParseTodo(FormatTodo(t)) == Parsed(t)
    ensures ',' in t.text ==> ParseTodo(FormatTodo(t)) == Rejected
  {
    FormatTodoFields(t);
    var elements := Split(FormatTodo(t), ',');
    if ',' !in t.text {
      SplitWithout(t.text, ',');
      assert elements == [Decimal(t.id), FormatTimestamp(t.createdAt), t.text, ShowBool(t.isCompleted)];
      ParseDecimal(t.id);
    } else {
      SplitCount(t.text, ',');
      OccurrencesBounds(t.text, ',');
    }
  }

  /** Each todo's display line, in order. */
  function FormatTodos(todos: seq<Todo>): seq<string>
  {
    seq(|todos|, k requires 0 <= k < |todos| => FormatTodo(todos[k]))
  }

  /**
   * `save_todos`, as the text it writes: the metadata line, a `\n`, then the todo lines
   * joined with `\n` (so an empty list leaves just the metadata line and its `\n`).
   */
  function SaveText(m: Metadata, todos: seq<Todo>): string
  {
    FormatMetadata(m) + "\n" + Join(FormatTodos(todos), '\n')
  }

  /**
   * `load_metadata`, on the text of the file: the first line as `read_line` returns it,
   * trimmed and parsed; a rejected or panicking parse both end in a panic.
   */
  function LoadMetadata(file: string): Outcome<Metadata>
  {
    match ParseMetadata(Trim(FirstLine(file)))
    case Parsed(m) => Ok(m)
    case _ => Panic
  }

  /** All lines but the first. */
  function SkipFirst(lines: seq<string>): seq<string>
  {
    if lines == [] then [] else lines[1..]
  }

  /**
   * The todos that parsing the given lines one by one yields: all of them when every line
   * parses, and a panic as soon as one does not.
   */
  function ParseTodoLines(lines: seq<string>): (r: Outcome<seq<Todo>>)
    ensures r.Ok? <==> forall k :: 0 <= k < |lines| ==> ParseTodo(lines[k]).Parsed?
    ensures r.Ok? ==> |r.value| == |lines|
    ensures r.Ok? ==> forall k :: 0 <= k < |lines| ==> ParseTodo(lines[k]) == Parsed(r.value[k])
  {
    if lines == [] then Ok([])
    else match ParseTodo(lines[0])
      case Parsed(t) =>
        (match ParseTodoLines(lines[1..])
         case Ok(ts) => Ok([t] + ts)
         case Panic => Panic)
      case _ => Panic
  }

  /** `prefix` put in front of the todos of an outcome. */
  function Prepend(prefix: seq<Todo>, o: Outcome<seq<Todo>>): Outcome<seq<Todo>>
  {
    match o
    case Ok(ts) => Ok(prefix + ts)
    case Panic => Panic
  }

  /** Parsing the lines from `i` on: the todo of line `i` in front of the rest, or a panic. */
  lemma ParseTodoLinesFrom(lines: seq<string>, i: nat)
    requires i < |lines|
    ensures ParseTodoLines(lines[i..]) ==
      if ParseTodo(lines[i]).Parsed? then Prepend([ParseTodo(lines[i]).value], ParseTodoLines(lines[i + 1..]))
      else Panic
  {
    assert lines[i..][1..] == lines[i + 1..];
  }

  lemma PrependNothing(o: Outcome<seq<Todo>>)
    ensures Prepend([], o) == o
  {
    if o.Ok? {
      assert [] + o.value == o.value;
    }
  }

  lemma PrependTwice(a: seq<Todo>, b: seq<Todo>, o: Outcome<seq<Todo>>)
    ensures Prepend(a, Prepend(b, o)) == Prepend(a + b, o)
  {
    if o.Ok? {
      assert a + (b + o.value) == (a + b) + o.value;
    }
  }

  /**
   * `load_todos`, on the text of the file: skips the first line by way of a counter, then
   * parses every further line into a todo and pushes it, panicking at the first line that
   * does not parse.
   */
  method LoadTodos(file: string) returns (r: Outcome<seq<Todo>>)
    ensures r == ParseTodoLines(SkipFirst(Lines(file)))
  {
    var lines := Lines(file);
    var todos: seq<Todo> := [];
    var count := 0;
    for i := 0 to |lines|
      invariant count == if i == 0 then 0 else 1
      invariant i == 0 ==> todos == []
      invariant i > 0 ==> ParseTodoLines(SkipFirst(lines)) == Prepend(todos, ParseTodoLines(lines[i..]))
    {
      if count == 0 {
        PrependNothing(ParseTodoLines(lines[1..]));
        count := count + 1;
        continue;
      }
      ParseTodoLinesFrom(lines, i);
      var parsed := ParseTodo(lines[i]);
      if !parsed.Parsed? {
        return Panic;
      }
      PrependTwice(todos, [parsed.value], ParseTodoLines(lines[i + 1..]));
      todos := todos + [parsed.value];
    }
    if |lines| > 0 {
      assert lines[|lines|..] == [];
      assert todos + [] == todos;
    }
    return Ok(todos);
  }

  /** The start of `main`: the metadata from the first line, then the todos from the rest. */
  function LoadFile(file: string): Outcome<(Metadata, seq<Todo>)>
  {
    match LoadMetadata(file)
    case Panic => Panic
    case Ok(m) =>
      match ParseTodoLines(SkipFirst(Lines(file)))
      case Panic => Panic
      case Ok(todos) => Ok((m, todos))
  }

  /** The saved text, seen as lines joined with `\n`. */
  function SavedLines(m: Metadata, todos: seq<Todo>): seq<string>
  {
    [FormatMetadata(m)] + (if todos == [] then [""] else FormatTodos(todos))
  }

  lemma SaveTextIsJoin(m: Metadata, todos: seq<Todo>)
    ensures SaveText(m, todos) == Join(SavedLines(m, todos), '\n')
  {
    var ls := SavedLines(m, todos);
    assert ls[1..] == if todos == [] then [""] else FormatTodos(todos);
  }

  /** The metadata line is not empty, has no `\n`, and neither starts nor ends in whitespace. */
  lemma MetadataLineShape(m: Metadata)
    ensures var meta := FormatMetadata(m);
      |meta| > 0 && '\n' !in meta && StripCR(meta) == meta
      && !IsWhitespace(meta[0]) && !IsWhitespace(meta[|meta| - 1])
  {
    var meta := FormatMetadata(m);
    FieldsAreLineFree(m.seqId, false);
    assert meta[0] == 's';
    assert meta[|meta| - 1] == Decimal(m.seqId)[|Decimal(m.seqId)| - 1];
  }

  /** Every saved line is free of `\n` and all but the last do not end in `\r`. */
  lemma SavedLinesShape(m: Metadata, todos: seq<Todo>)
    requires forall k :: 0 <= k < |todos| ==> '\n' !in todos[k].text
    ensures var ls := SavedLines(m, todos);
      (forall k :: 0 <= k < |ls| ==> '\n' !in ls[k])
      && (forall k :: 0 <= k < |ls| - 1 ==> StripCR(ls[k]) == ls[k])
  {
    var lines := FormatTodos(todos);
    forall k | 0 <= k < |lines| ensures '\n' !in lines[k] && StripCR(lines[k]) == lines[k] {
      FormatTodoShape(todos[k]);
    }
    MetadataLineShape(m);
    var ls := SavedLines(m, todos);
    if todos != [] {
      assert forall k :: 1 <= k < |ls| ==> ls[k] == lines[k - 1];
    }
  }

  /** The lines `reader.lines()` yields from a saved file: the metadata line, then one line per todo. */
  lemma {:induction false} LinesOfSaveText(m: Metadata, todos: seq<Todo>)
    requires forall k :: 0 <= k < |todos| ==> '\n' !in todos[k].text
    ensures Lines(SaveText(m, todos)) == [FormatMetadata(m)] + FormatTodos(todos)
  {
    var ls := SavedLines(m, todos);
    SavedLinesShape(m, todos);
    SaveTextIsJoin(m, todos);
    LinesOfJoin(ls);
    if todos == [] {
      assert ls[..|ls| - 1] == [FormatMetadata(m)];
    } else {
      MetadataLineShape(m);
      FormatTodoShape(todos[|todos| - 1]);
    }
  }

  /** What `read_line` returns from a saved file: the metadata line and its `\n`. */
  lemma {:induction false} FirstLineOfSaveText(m: Metadata, todos: seq<Todo>)
    requires forall k :: 0 <= k < |todos| ==> '\n' !in todos[k].text
    ensures FirstLine(SaveText(m, todos)) == FormatMetadata(m) + "\n"
  {
    var ls := SavedLines(m, todos);
    SavedLinesShape(m, todos);
    SaveTextIsJoin(m, todos);
    SplitJoin(ls, '\n');
  }

  /**
   * Saving and loading again: when no text holds a `\n`, loading the saved text succeeds
   * exactly when no text holds a `,`, and then gives back the same metadata and the same
   * todos in the same order (the empty list included).
   */
  lemma {:induction false} SaveLoadRoundTrip(m: Metadata, todos: seq<Todo>)
    requires forall k :: 0 <= k < |todos| ==> '\n' !in todos[k].text
    ensures LoadFile(SaveText(m, todos)).Ok? <==> forall k :: 0 <= k < |todos| ==> ',' !in todos[k].text
    ensures LoadFile(SaveText(m, todos)).Ok? ==> LoadFile(SaveText(m, todos)).value == (m, todos)
  {
    var file := SaveText(m, todos);
    var meta := FormatMetadata(m);
    LinesOfSaveText(m, todos);
    FirstLineOfSaveText(m, todos);
    MetadataLineShape(m);
    TrimLine(meta);
    MetadataRoundTrip(m);
    assert LoadMetadata(file) == Ok(m);
    var lines := FormatTodos(todos);
    assert SkipFirst(Lines(file)) == lines;
    forall k | 0 <= k < |todos|
      ensures ',' !in todos[k].text ==> ParseTodo(lines[k]) == Parsed(todos[k])
      ensures ',' in todos[k].text ==> !ParseTodo(lines[k]).Parsed?
    {
      TodoRoundTrip(todos[k]);
    }
    var r := ParseTodoLines(lines);
    if r.Ok? {
      assert r.value == todos;
    }
  }
}
