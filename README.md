# rust-todo in Dafny

A model of the single-file console todo list `src/main.rs`. The program keeps a list of todos
and a `seq_id` counter in memory. It loads both from `todos_db.txt` at startup and runs a menu
loop:

1. show all todos
2. show the open ones
3. create
4. mark complete by id
5. delete by id
6. anything else writes the file back and exits

The model covers:

- **The persistence format** (module `Codec`, file `codec.dfy`):
  - the `seq_id:<n>` metadata line and the `<id>,<timestamp>,<text>,<bool>` todo line;
  - their `Display` and `FromStr` implementations;
  - `save_todos`, `load_metadata` and `load_todos` as transforms on the file's text.
- **The in-memory operations** (module `Store`, file `store.dfy`):
  - `new_todo` followed by the push, `set_todo_completed` and `delete_todo`, as methods of a
    `TodoStore` class. The class holds the metadata and the list, and updates them in place.
  - the open-only filter of `print_todos`;
  - the `get_size_for_columns` loop.
- **The menu** (module `Menu`, file `menu.dfy`):
  - which action a typed choice selects;
  - how an id line is read;
  - one pass through the loop;
  - startup from the file's text.
- **Rust standard-library behaviour the program relies on** (module `Strings`, file
  `strings.dfy`):
  - `str::split`, `join`, `BufRead::lines`, `read_line` and `str::trim` with Unicode
    whitespace;
  - `u32` and `bool` parsing and display;
  - `str::len` as the UTF-8 byte length.

Every `.unwrap()` on a parse is an explicit result; the unwraps on file and console I/O are
left out (see "## Left out"). `Outcome` (`Ok`/`Panic`) is what an
unwrap yields. `FromStr` (`Parsed`/`Rejected`/`Panicked`) is what the two `from_str`
implementations return: `Rejected` is their own `Err`, and `Panicked` is an unwrap inside them.

The main results:

- Displaying metadata and parsing it back is the identity (`Codec.MetadataRoundTrip`).
- A todo line parses back to the same todo exactly when its text has no comma
  (`Codec.TodoRoundTrip`).
- Saving a store and loading the text again succeeds exactly when no text holds a comma. It
  then gives back the counter and the list, element by element and in order
  (`Codec.SaveLoadRoundTrip`).
- Each store operation changes exactly what the source changes and keeps ids unique and no
  larger than the counter (`Store.TodoStore.Valid`).

Two consequences of the code that the model makes explicit:

- After creating "buy milk" and "walk dog", completing 1 and deleting 2, the completed todo 1
  stays in the list (`Menu.ExampleEdits`). It is saved and comes back on reload
  (`Menu.ExampleReload`).
- A todo whose text contains a `,` is saved unescaped. The saved file then no longer loads:
  the line splits into more than four fields and startup panics (`Codec.SaveLoadRoundTrip`).

## Model

| member | source | states |
|---|---|---|
| Strings.Split | src/main.rs:30 | `str::split` on a character, empty pieces kept; at least one piece (count in `Strings.SplitCount`) |
| Strings.Join | src/main.rs:156-160 | `join` with one separator between neighbours; `Strings.JoinSplit` and `Strings.SplitJoin` make it the inverse of `Strings.Split` |
| Strings.Trim | src/main.rs:134 | `str::trim` as `trim_start` then `trim_end`; `Strings.TrimSpec` gives its contract |
| Strings.ParseU32 | src/main.rs:36 | `parse::<u32>`: an optional `+`, then digits whose value fits in 32 bits; `Strings.ParseDecimal` is its round trip with `Strings.Decimal` |
| Strings.OccurrencesBounds | src/main.rs:30-32 | a character occurs at most as often as the text is long, and zero times exactly when it is absent |
| Strings.SplitCount | src/main.rs:30-32 | `s.split(c)` yields one more part than `s` has separators |
| Strings.SplitPartsFree | src/main.rs:30 | no part of a split holds the separator |
| Strings.JoinSplit | src/main.rs:30 | joining the parts of a split with the separator gives back the text |
| Strings.SplitWithout | src/main.rs:58 | a text without the separator splits into just itself |
| Strings.SplitAround | src/main.rs:30 | splitting `a + sep + b` gives the parts of `a` followed by the parts of `b` |
| Strings.SplitJoin | src/main.rs:156-160 | separator-free parts joined with the separator split back into the same parts |
| Strings.StripCR | src/main.rs:142 | a line loses at most one trailing `\r` |
| Strings.Lines | src/main.rs:142 | `reader.lines()` yields lines free of `\n`: one per `\n`, plus one more exactly when the text is non-empty and does not end in `\n` |
| Strings.LinesOfJoin | src/main.rs:142-149 | lines joined with `\n` are read back as the same lines, apart from an empty last one |
| Strings.FirstLine | src/main.rs:131-132 | `read_line` returns a prefix of the text that ends at its first `\n`, or the whole text if there is none |
| Strings.TrimStartSpec | src/main.rs:134 | `trim_start` removes exactly the leading whitespace |
| Strings.TrimEndSpec | src/main.rs:134 | `trim_end` removes exactly the trailing whitespace |
| Strings.TrimSpec | src/main.rs:134 | `trim` leaves a slice of the text with whitespace only on either side of it, and none at its own ends |
| Strings.TrimLine | src/main.rs:184 | a line read with its `\n` and trimmed is the typed text, if that has no whitespace at its ends |
| Strings.Decimal | src/main.rs:82 | `to_string` of a number is a non-empty digit string, with no leading zero, whose value is the number |
| Strings.ParseDecimal | src/main.rs:36 | `parse::<u32>` of a displayed `u32`, with or without a `+`, gives the number back |
| Strings.ParseBool | src/main.rs:39 | `parse::<bool>` accepts exactly `true` and `false` and inverts their display |
| Strings.Utf8Width | src/main.rs:249 | a character takes 1 to 4 UTF-8 bytes, and 1 exactly when it is ASCII |
| Strings.Utf8Len | src/main.rs:249-250 | `text.len()` lies between the character count and four times it, and equals the count exactly for ASCII text |
| Codec.FormatTimestamp | src/main.rs:74 | a rendered timestamp is non-empty, free of `,` and `\n`, and parses back to the same timestamp |
| Codec.ParseTimestamp | src/main.rs:37 | the timestamp field parses exactly when it is a timestamp token; `Codec.FormatTimestamp` is its inverse |
| Codec.FormatMetadata | src/main.rs:80-84 | the metadata line is `seq_id:` followed by the counter's decimal digits; `Codec.MetadataRoundTrip` is its inverse |
| Codec.ParseMetadata | src/main.rs:53-67 | `Metadata::from_str`: rejects a missing prefix or other than two `:`-fields, panics on a bad `u32`; `Codec.ParseMetadataExactly` characterises it |
| Codec.FormatTodo | src/main.rs:70-78 | a todo line is id, timestamp, text and flag joined by `,`; `Codec.TodoRoundTrip` relates it to `Codec.ParseTodo` |
| Codec.SaveText | src/main.rs:152-165 | the saved text is the metadata line, a `\n`, and the todo lines joined by `\n`; `Codec.SaveLoadRoundTrip` is its round trip |
| Codec.LoadMetadata | src/main.rs:128-135 | the first line as `read_line` returns it, trimmed and parsed, with both rejection and panic ending in a panic |
| Codec.LoadFile | src/main.rs:90-92 | startup: `load_metadata`, then `load_todos`, panicking if either does |
| Codec.ParseMetadataExactly | src/main.rs:53-66 | a metadata line is rejected without the `seq_id:` prefix or with a further `:`; otherwise its rest is parsed as a `u32`, and a failed parse panics |
| Codec.MetadataRoundTrip | src/main.rs:50-84 | parsing the display of metadata gives the same metadata |
| Codec.ParseTodo | src/main.rs:29-47 | a todo line is rejected exactly when it does not hold exactly three commas; a parsed text never holds a comma |
| Codec.FieldsAreLineFree | src/main.rs:74-75 | a displayed id and flag hold no `,` or `\n`, and a flag ends in `e` |
| Codec.FormatTodoFields | src/main.rs:70-78 | a todo line splits on `,` into id, timestamp, the pieces of the text, and the flag |
| Codec.FormatTodoShape | src/main.rs:70-78 | a todo line holds a `\n` exactly when its text does, and never ends in `\r` |
| Codec.TodoRoundTrip | src/main.rs:26-78 | parsing a displayed todo gives it back when its text has no comma, and is rejected when it has one |
| Codec.ParseTodoLines | src/main.rs:142-149 | parsing lines succeeds exactly when every line parses, and then gives one todo per line, in order |
| Codec.LoadTodos | src/main.rs:137-150 | the counting loop skips line 1 and yields exactly the todos of the remaining lines, or a panic at the first bad one |
| Codec.SaveTextIsJoin | src/main.rs:152-165 | the saved text is the metadata line and the todo lines joined by `\n` (a lone empty line for an empty list) |
| Codec.MetadataLineShape | src/main.rs:80-84 | the metadata line is non-empty, free of `\n` and `\r` at its end, and starts and ends without whitespace |
| Codec.SavedLinesShape | src/main.rs:152-165 | no saved line holds `\n` and none but the last ends in `\r` |
| Codec.LinesOfSaveText | src/main.rs:137-165 | reading a saved file by lines yields the metadata line and then one line per todo |
| Codec.FirstLineOfSaveText | src/main.rs:128-165 | `read_line` on a saved file returns the metadata line and its `\n` |
| Codec.SaveLoadRoundTrip | src/main.rs:128-165 | loading the saved text succeeds exactly when no text holds a comma, and then gives back the same counter and the same todos in order |
| Store.Position | src/main.rs:195 | the id lookup finds the first todo with the id, or reports that no todo has it |
| Store.SameIdsSamePosition | src/main.rs:209 | lists with the same ids in the same places find an id at the same place |
| Store.CompleteFirst | src/main.rs:195-198 | completing keeps length, ids, texts and timestamps, and sets exactly the flag of the first todo with the id |
| Store.CompleteMissing | src/main.rs:199 | completing an id no todo has leaves the list unchanged |
| Store.CompleteAlreadyCompleted | src/main.rs:195-198 | completing an already completed todo leaves the list unchanged |
| Store.CompleteTwice | src/main.rs:189-201 | completing twice by one id is the same as completing once |
| Store.RemoveFirst | src/main.rs:209-215 | deleting removes the first todo with the id and keeps the others in order; with no such todo the list is unchanged |
| Store.RemoveFirstMultiset | src/main.rs:213 | deleting takes out exactly the one matching todo and nothing else |
| Store.DeleteThenMissing | src/main.rs:203-217 | with unique ids, after a delete no todo has that id, so a second delete finds nothing |
| Store.CreateKeepsIdsFresh | src/main.rs:113-114 | appending a todo whose id is the raised counter keeps ids unique and at most the counter |
| Store.RemoveKeepsIdsFresh | src/main.rs:213 | deleting keeps ids unique and at most the counter |
| Store.ShownTodos | src/main.rs:223-226 | all todos are shown, or, open-only, a subset with no completed todo |
| Store.OpenTodosShown | src/main.rs:223-226 | every open todo is among the open-only rows |
| Store.ShownConcat | src/main.rs:223-226 | the rows of a concatenation are the rows of each part, in order |
| Store.CompleteHidesFromOpen | src/main.rs:189-226 | in the open-only rows, completing a todo and deleting it look the same |
| Store.IdWidth | src/main.rs:244-245 | the id column width of a todo is the length of its decimal id |
| Store.TextWidth | src/main.rs:249-250 | the text column width of a todo is the UTF-8 byte length of its text |
| Store.ColumnSizes | src/main.rs:238-260 | the four widths: widest id and widest text, each attained by some todo or 0 on an empty list, and the constants 10 and 4 |
| Store.GetSizeForColumns | src/main.rs:238-260 | the running-maxima loop yields exactly the column widths: the widest id (attained by some todo), 10, the widest text in bytes (attained by some todo), 4; 0 for both maxima on an empty list |
| Store.TodoStore.constructor | src/main.rs:90-92 | the store holds the given metadata and list |
| Store.TodoStore.NewTodo | src/main.rs:175-187 | the counter rises by 1 and the new todo is open, carries the new counter as its id and the trimmed input as its text; at `u32::MAX` it panics and nothing changes |
| Store.TodoStore.Create | src/main.rs:112-115 | the new todo is appended after the unchanged earlier todos, and the counter rises by 1 |
| Store.TodoStore.SetTodoCompleted | src/main.rs:189-201 | reports whether any todo has the id and leaves the list completed at the first match; keeps the invariant |
| Store.TodoStore.DeleteTodo | src/main.rs:203-217 | reports whether any todo has the id and leaves the list with the first match removed; keeps the invariant |
| Menu.ParseCommand | src/main.rs:109-122 | trimmed input "1" to "5" selects the action with that key, and anything else saves and exits |
| Menu.KeySelects | src/main.rs:106-109 | typing an action's key and Enter selects that action |
| Menu.ParseIdLine | src/main.rs:193 | the typed id line, trimmed and parsed as a `u32`; `None` is the panic of its `unwrap`; `Menu.IdLineRoundTrip` is its round trip |
| Menu.IdLineRoundTrip | src/main.rs:193 | an id typed as its digits and Enter reads back as that id |
| Menu.Step | src/main.rs:109-122 | one loop pass lists the shown rows with the column widths of the whole list, creates, completes, deletes or saves exactly as the store operations say, panics on a bad id line, and keeps the invariant |
| Menu.Open | src/main.rs:90-92 | startup panics exactly when loading the file's text fails, and otherwise holds the loaded counter and list |
| Menu.ReloadResumesAbove | src/main.rs:113-165 | after a save and reload the invariant still holds, and the next id, the counter plus one, is held by no loaded todo |
| Menu.ReopenAndCreate | src/main.rs:113-187 | opening a saved valid store does not panic; a creation then appends a todo whose id no loaded todo has, and panics only at `u32::MAX` |
| Menu.ExampleEdits | src/main.rs:189-226 | in the example session, completing 1 hides it from the open rows and deleting 2 leaves just the completed todo 1 |
| Menu.ExampleReload | src/main.rs:128-165 | the example session's final list of one completed todo survives save and reload |
| Menu.ExampleStart | src/main.rs:175-187 | two creations on an empty store give the todos 1 and 2 and the counter 2 |

## Left out

- Console I/O is not modelled: the menu text, the prompts, `stdout.flush`, the `?` on a
  failed `read_line`, and the `unwrap`s of the stdin `read_line`s at src/main.rs:177, 191 and
  205. The typed lines are parameters (`choice`, `arg`, `input`).
- File I/O is not modelled: `File::open` (src/main.rs:129, 139), `File::create`
  (src/main.rs:154) and the three `write`s (src/main.rs:162-164), and the panics of their
  `unwrap`s when the file is missing or cannot be written. The model works on the file's text.
- A file that is not valid UTF-8 is not modelled: neither the panic of `read_line(...).unwrap()`
  on the first line in `load_metadata` (src/main.rs:132) nor that of `line.unwrap()` in
  `load_todos` (src/main.rs:147). Texts are sequences of characters.
- chrono is not modelled. A timestamp is its own rendered text: non-empty and free of `,` and
  `\n`, with an assumed display/parse round trip. Neither `Local::now()` (a parameter `now`)
  nor the `%d.%m.%Y` rendering in the table is modelled.
- The padded `print!` rendering of the table is not modelled. `Menu.Step` returns the rows
  and the column widths it would print.
- Store.TodoStore.NewTodo: models the overflow of `seq_id += 1` at `u32::MAX` as a panic,
  which is the debug-build behaviour. A release build wraps to 0; that is not modelled.
- Codec.SaveLoadRoundTrip: assumes no todo text holds a `\n`. The program never produces
  such a text, because `read_line` stops at the first `\n` and `trim` removes it.
- Strings.ParseDecimal: states only that displayed numbers parse back. It does not enumerate
  every text `parse::<u32>` accepts, such as leading zeros; `Strings.ParseU32` defines those.
- Codec.ParseTimestamp: accepts any non-empty field without `,` or `\n`, because chrono's
  parser is not modelled. A line such as `1,garbage,x,true`, whose timestamp field is not a
  chrono date, therefore loads in the model, while the program panics in `Todo::from_str`.
