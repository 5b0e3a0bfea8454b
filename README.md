# ChatTPG task organiser: a verified model

ChatTPG is a console assistant. Its task organiser keeps a list of tasks of
three kinds:

- a **todo** has only a description;
- a **deadline** has a description and a due text (`/by`);
- an **event** has a description, a start (`/from`) and an end (`/to`).

Each task carries a done flag. Marking done is strict, and so is marking undone: repeating the same transition raises an error.

The organiser parses the commands `todo …`, `deadline … /by …` and `event … /from … /to …`. It can also delete, mark and unmark a task by its 1-based number, list the tasks, and find tasks by a single keyword. After every successful change it saves the list to a text file, one line per task, with the fields separated by `" | "`. It loads that file once per session.

This project models that core in Dafny and proves its properties:

| file | module | models |
|---|---|---|
| `errors.dfy` | `Errors` | the exceptions, as constructors of `Error`, and `Result`, `Option` and `Outcome` (a void call that returns or throws) |
| `strings.dfy` | `JavaStrings` | the `String` operations the code relies on: `trim`, `indexOf`, `contains`, `startsWith`, `split(sep, 2)`, `split(" \\| ")`, ASCII `toLowerCase`, `matches("\\S+")` and `int` printing |
| `model.dfy` | `Model` | `Task`, `Todo`, `Deadline`, `Event`: validation, the strict transitions and `toString`. `Task` is a class whose `done` field the two mark methods update in place. |
| `storage.dfy` | `Persistence` | `Storage`: the line codec, the load loop and the save loop. The file is a field `file: Option<seq<string>>` of the class `Storage`, where `None` means a missing file. |
| `parser.dfy` | `Parser` | the string slicing of `addTask`, as pure functions |
| `task_actions.dfy` | `Logic` | `TaskActions`: a class with the task list (`seq<Task>`) and the `loaded` flag, and the methods that load, save, list, add, delete, mark, unmark and find |

The three Java variants form one closed sum type, `Kind`. A `TaskValue` is the snapshot of one task: what is stored, rendered and compared.

The model validates before it allocates: `NewTodo`, `NewDeadline` and `NewEvent` return the validated value or the `IllegalArgumentException`, and only after that succeeds does the constructor of `Task` allocate the object. In Java, `new` allocates the object first, the constructor sets `done` to false and then validates; when validation throws, that object is discarded unseen.

Uncaught runtime exceptions become `Error` constructors as well:

- `StringIndexOutOfBounds` comes from `substring` or `charAt`;
- `ArrayIndexOutOfBounds` comes from reading `parts[k]` of a stored line.

The code has two bugs, listed under Findings. `ParseAddAsWritten` models the add parser as written, and `TaskActions.AddTask` uses it, so the session refuses every todo command just as the code does. `ParseAdd` is the corrected parser; `TaskActions.AddTaskCorrected` is `addTask` with that parser.

### Behaviour of the code worth noting

The model follows the code, including where it behaves in ways a reader might not expect:

- `addTask` refuses every todo line, because the text after `todo` is trimmed before its first character is compared with a space (`src/main/java/chattpg/logic/TaskActions.java:112-114`; Findings, first row).
- The `IllegalStateException` catch of `load` (`src/main/java/chattpg/storage/Storage.java:63`) is outside the read loop. If marking a loaded task done threw, `load` would stop and return the tasks read so far. `AfterLine` models this exit. `LoadMarkNeverFails` proves the exit is never taken, because a freshly constructed task is not done.
- A missing file loads as the empty list (`src/main/java/chattpg/storage/Storage.java:26-29`). A malformed stored line is not skipped: it throws out of `load` (`src/main/java/chattpg/storage/Storage.java:35-55`):
  - a line with too few fields throws `ArrayIndexOutOfBoundsException`;
  - a line with a blank field throws the constructor's `IllegalArgumentException`.

  `loadFromFile` has already cleared the list when that happens (`src/main/java/chattpg/logic/TaskActions.java:44`), so the list is left empty and `loaded` stays false. `TaskActions.LoadFromFile` states exactly this.

## Model

| member | source | states |
|---|---|---|
| JavaStrings.Trim | src/main/java/chattpg/model/Task.java:32 | the result has no character ≤ U+0020 at either end, is empty exactly when every character of the input is ≤ U+0020, and is no longer than the input |
| JavaStrings.TrimSlice | src/main/java/chattpg/model/Task.java:32 | the result is a slice of the input, and everything cut off on either side is ≤ U+0020 |
| JavaStrings.TrimIdempotent | src/main/java/chattpg/model/Task.java:32 | trimming a trimmed string changes nothing |
| JavaStrings.StartsWithIff | src/main/java/chattpg/logic/TaskActions.java:90 | `startsWith(prefix)` holds exactly when the string is the prefix followed by some rest |
| JavaStrings.IndexOf | src/main/java/chattpg/logic/TaskActions.java:99-100 | -1 exactly when the pattern occurs nowhere; otherwise an occurrence with no occurrence before it |
| JavaStrings.ContainsIff | src/main/java/chattpg/logic/TaskActions.java:117 | `contains` holds exactly when the pattern occurs at some position |
| JavaStrings.SplitFirst | src/main/java/chattpg/logic/TaskActions.java:92 | two pieces exactly when the separator occurs, and then they rejoin to the input around its first occurrence; otherwise the input whole |
| JavaStrings.SplitAll | src/main/java/chattpg/storage/Storage.java:34 | at least one piece, and the pieces joined by the separator give the input back |
| JavaStrings.SplitAllPieces | src/main/java/chattpg/storage/Storage.java:34 | no piece contains the separator; there is one piece exactly when the separator does not occur, and otherwise the first piece ends where its first occurrence starts and the other pieces are the split of what follows that occurrence, so each piece is cut at the leftmost occurrence of what remains |
| JavaStrings.DropTrailingEmpty | src/main/java/chattpg/storage/Storage.java:34 | the result is a prefix of the pieces, all dropped pieces are empty, and the last kept piece is not |
| JavaStrings.SplitAllJoin | src/main/java/chattpg/storage/Storage.java:34 | splitting the join of fields without '\|' gives the fields back |
| JavaStrings.SplitJoin | src/main/java/chattpg/storage/Storage.java:34 | the same for `split(" \\| ")` with limit 0, when the last field is not empty |
| JavaStrings.SplitPieces | src/main/java/chattpg/storage/Storage.java:34 | `split(" \\| ")` gives the whole input as its one piece when the separator does not occur, even for the empty input; otherwise it gives the pieces cut at every occurrence, with the trailing empty pieces dropped and the last kept piece not empty |
| JavaStrings.ToLower | src/main/java/chattpg/logic/TaskActions.java:201 | `toLowerCase` keeps the length and lowers each character on its own (ASCII letters) |
| JavaStrings.TokenWords | src/main/java/chattpg/logic/TaskActions.java:195 | `matches("\\S+")` refuses the empty keyword and two words with a space between them, and accepts two tokens written together |
| Model.RequireNonBlank | src/main/java/chattpg/model/Task.java:30-35 | null fails with the "must not be null" message; blank input fails with "must not be empty"; otherwise the trimmed input, which is a non-empty trimmed field |
| Model.Task.constructor | src/main/java/chattpg/model/Task.java:18-21 | a new task is not done and keeps its variant and its validated description |
| Model.MarkDoneSpec | src/main/java/chattpg/model/Task.java:63-68 | succeeds exactly when the task is not done, giving it done with its variant and description; a done task gives the "already done" state error |
| Model.MarkUndoneSpec | src/main/java/chattpg/model/Task.java:75-80 | succeeds exactly when the task is done, giving it not done with its variant and description; otherwise the "already undone" state error |
| Model.Task.MarkTaskAsDone | src/main/java/chattpg/model/Task.java:63-68 | on a task not done, sets done and returns normally; on a done task, raises the "already done" state error and changes nothing |
| Model.Task.MarkTaskAsUndone | src/main/java/chattpg/model/Task.java:75-80 | on a done task, clears done; on a task not done, raises the "already undone" state error and changes nothing |
| Model.MarkTwiceFails | src/main/java/chattpg/model/Task.java:63-80 | after a successful mark done, a second mark done fails with the state error; the same holds for undone |
| Model.DoneThenUndoneRestores | src/main/java/chattpg/model/Task.java:63-80 | done followed by undone gives back the original task; a transition keeps the variant and the description |
| Model.NewTodo | src/main/java/chattpg/model/Todo.java:14-16 | succeeds exactly when the description is not blank, giving a todo with the trimmed description, not done; otherwise the "description must not be empty" error |
| Model.NewTodoOfField | src/main/java/chattpg/model/Todo.java:14-16 | an already valid description is kept exactly |
| Model.NewDeadline | src/main/java/chattpg/model/Deadline.java:18-21 | the description is checked before `by`; succeeds exactly when neither is blank, storing both trimmed |
| Model.NewDeadlineOfFields | src/main/java/chattpg/model/Deadline.java:18-21 | valid fields are kept exactly |
| Model.NewEvent | src/main/java/chattpg/model/Event.java:20-27 | description, from and to are checked for blankness in that order, then from and to must differ after trimming; each failure has its own error; success stores the trimmed fields |
| Model.NewEventOfFields | src/main/java/chattpg/model/Event.java:20-27 | valid fields with different ends are kept exactly |
| Model.Render | src/main/java/chattpg/model/Todo.java:22-24 | the rendering of every variant (`Todo.java:22-24`, `Deadline.java:36-38`, `Event.java:51-53`) is seven characters longer than the description and the variant suffix together |
| Model.RenderLayout | src/main/java/chattpg/model/Event.java:51-53 | every rendering (`Todo.java:22-24`, `Deadline.java:36-38`, `Event.java:51-53`) is the variant tag, then the checkbox, the description and the variant suffix (`(by: …)` or `(from: … to: …)`) |
| Model.RenderPrefix | src/main/java/chattpg/model/Task.java:51-56 | a rendering starts with the tag, then with `[X] ` when done and `[ ] ` otherwise |
| Model.Task.ToString | src/main/java/chattpg/model/Task.java:51-56 | the text of a task object starts with its variant tag, then its checkbox, then its description |
| Model.RenderAfterMark | src/main/java/chattpg/model/Todo.java:23 | changing the flag changes the rendering at the checkbox character only |
| Persistence.EncodeTask | src/main/java/chattpg/storage/Storage.java:73-79 | a task's line opens with the letter of its variant, its fifth character is '1' exactly when the task is done, and it is at least eight characters longer than the description |
| Persistence.EncodeAll | src/main/java/chattpg/storage/Storage.java:72-80 | one line per task, in list order, each the encoding of that task |
| Persistence.EncodeIsJoin | src/main/java/chattpg/storage/Storage.java:73-79 | a task's line is its tag, flag, description and variant fields joined by `" \| "` |
| Persistence.SplitEncode | src/main/java/chattpg/storage/Storage.java:73-79 | the line of a task whose fields hold no '\|' and no line terminator is not blank, and splitting it gives the fields back |
| Persistence.DecodeLine | src/main/java/chattpg/storage/Storage.java:33-55 | a blank line is skipped; a line that yields a record yields a well-formed task that is not done |
| Persistence.DecodeFields | src/main/java/chattpg/storage/Storage.java:34-55 | a record from the split fields is a well-formed task that is not done |
| Persistence.DecodeFieldsCases | src/main/java/chattpg/storage/Storage.java:35-55 | fewer than three fields, a D line with three fields, or an E line with three or four, give the array index error; an unknown tag is skipped; a todo, deadline or event line is a record exactly when its fields pass the constructor (no blank field, different event ends), and otherwise gives the constructor's error; a record's flag is "field 1 is 1", and its description and variant fields are the trimmed fields of the line |
| Persistence.AfterLine | src/main/java/chattpg/storage/Storage.java:33-60 | a skipped line passes on what the later lines give; a failing line gives its error; a record not done puts its task, done exactly when its flag is set, in front of the later lines' tasks |
| Persistence.LoadSpec | src/main/java/chattpg/storage/Storage.java:24-67 | a missing file loads as the empty list; a successful load never yields more tasks than the file has lines |
| Persistence.LoadRecords | src/main/java/chattpg/storage/Storage.java:31-60 | a successful load never yields more tasks than there are lines |
| Persistence.LoadRecordsValid | src/main/java/chattpg/storage/Storage.java:31-60 | every task loaded from decoded records is well formed |
| Persistence.LoadedTasksValid | src/main/java/chattpg/storage/Storage.java:24-67 | every task that load returns is well formed |
| Persistence.LoadMarkNeverFails | src/main/java/chattpg/storage/Storage.java:41-58 | on a freshly decoded task, markTaskAsDone succeeds, so the state-error exit of load is never taken |
| Persistence.LoadedFlag | src/main/java/chattpg/storage/Storage.java:36-59 | a record line puts its task in front of what the remaining lines load, done exactly when the flag field of the line is "1" (so, by induction, every loaded task carries the flag of its line) |
| Persistence.SkippedLine | src/main/java/chattpg/storage/Storage.java:33-54 | a blank line, or a line of at least three fields with an unknown tag, is skipped, and later lines are still read |
| Persistence.ShortLineFails | src/main/java/chattpg/storage/Storage.java:34-37 | a non-blank line with fewer than three fields ends load with the array index error |
| Persistence.DecodeTodoFields | src/main/java/chattpg/storage/Storage.java:40-42 | the fields of a todo line give back that todo and its flag |
| Persistence.DecodeDeadlineFields | src/main/java/chattpg/storage/Storage.java:43-46 | the fields of a deadline line give back that deadline and its flag |
| Persistence.DecodeEventFields | src/main/java/chattpg/storage/Storage.java:47-51 | the fields of an event line give back that event and its flag |
| Persistence.DecodeFieldsOf | src/main/java/chattpg/storage/Storage.java:34-55 | decoding the fields of a valid task gives it back, not done, with its flag |
| Persistence.DecodeEncode | src/main/java/chattpg/storage/Storage.java:34-79 | decoding the line of a valid task whose fields hold no '\|' and no line terminator gives the task and its done flag back |
| Persistence.LoadEncodeAll | src/main/java/chattpg/storage/Storage.java:31-79 | round trip: loading what save wrote for valid tasks whose fields hold no '\|' and no line terminator (`\n`, `\r`, U+0085, U+2028, U+2029, where `Scanner.nextLine` would cut the line) gives the same list back (variants, fields, flags) |
| Persistence.UnknownTagLine | src/main/java/chattpg/storage/Storage.java:52-54 | a three-field line whose tag is not T, D or E is skipped |
| Persistence.UnknownTagExample | src/main/java/chattpg/storage/Storage.java:31-60 | an unknown-tag line followed by `T \| 0 \| buy milk` loads as the one todo "buy milk", not done |
| Persistence.Storage.constructor | src/main/java/chattpg/storage/Storage.java:20-22 | the storage is bound to the given file |
| Persistence.Storage.Load | src/main/java/chattpg/storage/Storage.java:24-67 | load fails exactly when `LoadSpec` fails, with the same error; otherwise it returns fresh, distinct, valid task objects whose snapshots are the list `LoadSpec` gives (a missing file gives none) |
| Persistence.Storage.ReadLine | src/main/java/chattpg/storage/Storage.java:32-60 | one turn of the read loop: a failing line stops load with exactly the error `LoadSpec` gives; otherwise the earlier task objects stay in place, any new one is fresh and valid, the list stays free of duplicates, and it stands where `LoadSpec` stands after that line |
| Persistence.Storage.Build | src/main/java/chattpg/storage/Storage.java:38-59 | a decoded record becomes one new valid task object appended to the list, with the record's fields, done exactly when the flag field was "1"; marking a fresh task done never fails |
| Persistence.Storage.Save | src/main/java/chattpg/storage/Storage.java:69-85 | the file becomes the encoding of the tasks, one line per task in list order |
| Parser.ParseDeadline | src/main/java/chattpg/logic/TaskActions.java:90-96 | without ` /by ` the deadline format error; a success is a valid deadline not done |
| Parser.DeadlineBuiltIffMarker | src/main/java/chattpg/logic/TaskActions.java:92-96 | on trimmed text the deadline branch succeeds exactly when ` /by ` occurs |
| Parser.DeadlineErrors | src/main/java/chattpg/logic/TaskActions.java:92-96 | on trimmed text the deadline branch can fail only with the format error |
| Parser.DeadlineExample | src/main/java/chattpg/logic/TaskActions.java:90-96 | `deadline submit report /by friday` adds the deadline "submit report" due "friday", as written and corrected |
| Parser.ParseEvent | src/main/java/chattpg/logic/TaskActions.java:97-110 | a success is a valid event, not done |
| Parser.ParseEventCorrected | src/main/java/chattpg/logic/TaskActions.java:97-110 | with overlapping markers corrected to the parts-empty error, a success is still a valid event, not done |
| Parser.EventAtCorrected | src/main/java/chattpg/logic/TaskActions.java:99-110 | a missing marker, or ` /from ` after ` /to `, gives the event format error; a success is a valid event, not done |
| Parser.EventAt | src/main/java/chattpg/logic/TaskActions.java:99-110 | a missing marker, or ` /from ` after ` /to `, gives the event format error; a success is a valid event |
| Parser.ParseEventAt | src/main/java/chattpg/logic/TaskActions.java:99-101 | both event branches depend only on the two marker positions indexOf reports |
| Parser.EventParts | src/main/java/chattpg/logic/TaskActions.java:107-110 | any empty piece gives the parts-empty error; a success is a valid event |
| Parser.EventPartsValidation | src/main/java/chattpg/logic/TaskActions.java:104-110 | on trimmed pieces the only constructor error left is "/from and /to must differ" |
| Parser.EventValidation | src/main/java/chattpg/logic/TaskActions.java:97-110 | the corrected event branch raises no blank-field constructor error (`EventCorrectionAgrees` and `AddValidationErrors` carry this to the branch as written) |
| Parser.EventMarkers | src/main/java/chattpg/logic/TaskActions.java:99-100 | in the text of an event command, the markers are found right after the description and right after the start |
| Parser.ParseEventCommand | src/main/java/chattpg/logic/TaskActions.java:97-110 | the text of an event command for valid fields without '/' parses back to that event, in both branches |
| Parser.EventSameEnds | src/main/java/chattpg/logic/TaskActions.java:89-110 | an event command whose start and end are equal fails with "/from and /to must differ", in the event branch and through addTask's parse, as written and corrected |
| Parser.EventSameEndsExample | src/main/java/chattpg/logic/TaskActions.java:89-110 | `event trip /from mon /to mon` fails with that error, as written and corrected |
| Parser.ParseTodo | src/main/java/chattpg/logic/TaskActions.java:111-120 | as written the todo branch never succeeds: it fails with the string index error or the todo format error |
| Parser.TodoAlwaysRejected | src/main/java/chattpg/logic/TaskActions.java:112-114 | as written, blank todo text raises a string index error, and any other todo text raises the todo format error |
| Parser.ParseTodoCorrected | src/main/java/chattpg/logic/TaskActions.java:111-120 | accepted exactly when "todo" is followed by a space or nothing, the rest is not blank and has no marker; each refusal has its message; a success is the trimmed todo |
| Parser.TodoValidation | src/main/java/chattpg/logic/TaskActions.java:111-120 | the corrected todo branch raises no constructor error |
| Parser.TodoCommand | src/main/java/chattpg/logic/TaskActions.java:111-120 | `todo d` for a valid d without '/' gives the todo d, once corrected |
| Parser.ParseAddAsWritten | src/main/java/chattpg/logic/TaskActions.java:89-123 | addTask's parse as written: a success is a valid task that is not done, and never a todo |
| Parser.ParseAdd | src/main/java/chattpg/logic/TaskActions.java:89-123 | addTask's parse with both branches corrected: a success is a valid task that is not done |
| Parser.KeywordOf | src/main/java/chattpg/logic/TaskActions.java:90-111 | a line made of `deadline`, `event` or `todo`, a space and a rest passes the prefix test of exactly that keyword, and the text after the keyword is the space and the rest |
| Parser.DeadlineLine | src/main/java/chattpg/logic/TaskActions.java:90-91 | a `deadline …` line takes the deadline branch on the trimmed rest |
| Parser.EventLine | src/main/java/chattpg/logic/TaskActions.java:97-98 | an `event …` line takes the event branch on the trimmed rest |
| Parser.TodoLine | src/main/java/chattpg/logic/TaskActions.java:111-112 | a `todo …` line takes the todo branch on the untrimmed rest |
| Parser.AddValidationErrors | src/main/java/chattpg/logic/TaskActions.java:89-123 | the only constructor error addTask's parse passes on is "/from and /to must differ", as written and corrected |
| Parser.AddedKind | src/main/java/chattpg/logic/TaskActions.java:90-120 | as written, a successful add is a deadline when the line starts with `deadline` and otherwise an event of an `event` line; corrected, it is the variant its keyword names, with deadline taking precedence over event, and event over todo |
| Parser.UnknownKeyword | src/main/java/chattpg/logic/TaskActions.java:121-123 | a line with none of the three prefixes is an unknown command |
| Parser.TodoLineOf | src/main/java/chattpg/logic/TaskActions.java:111-120 | the todo command is accepted once corrected and refused with the format error as written |
| Parser.DeadlineLineOf | src/main/java/chattpg/logic/TaskActions.java:90-96 | the deadline command parses back to its task |
| Parser.EventLineOf | src/main/java/chattpg/logic/TaskActions.java:97-110 | the event command parses back to its task |
| Parser.ParseCommandOf | src/main/java/chattpg/logic/TaskActions.java:89-123 | round trip: the command for a task without '/' parses back to it; as written, this also holds for deadlines and events, and a todo command is refused |
| Parser.TodoFinding | src/main/java/chattpg/logic/TaskActions.java:112-114 | `todo read book` is refused as written and accepted once corrected |
| Parser.EventCorrectionAgrees | src/main/java/chattpg/logic/TaskActions.java:104-106 | the corrected event branch never raises the string index error, and agrees with the code wherever the code does not raise it |
| Parser.OverlapMarkers | src/main/java/chattpg/logic/TaskActions.java:99-100 | when ` /to ` starts on the last character of ` /from `, the two start 6 characters apart |
| Parser.EventOverlap | src/main/java/chattpg/logic/TaskActions.java:105 | with overlapping markers, substring raises the string index error as written; corrected, the empty start gives the parts-empty error |
| Parser.OverlapLine | src/main/java/chattpg/logic/TaskActions.java:97-110 | the same for a whole `event …` line |
| Parser.EventOverlapFinding | src/main/java/chattpg/logic/TaskActions.java:105 | `event x /from /to y` raises the string index error as written, and gives the parts-empty error once corrected |
| Logic.Removed | src/main/java/chattpg/logic/TaskActions.java:142 | removing number n keeps the tasks before it in place, moves each later task up by one, and removes exactly one occurrence of that task |
| Logic.RemovedKeepsOrder | src/main/java/chattpg/logic/TaskActions.java:142 | putting the removed task back at its position gives the old list |
| Logic.WithFlag | src/main/java/chattpg/logic/TaskActions.java:159 | only task n-1 changes, and only its flag |
| Logic.MarkThenUnmark | src/main/java/chattpg/logic/TaskActions.java:155-182 | markDone then markUndone on a task not done is two allowed transitions and gives the list back |
| Logic.SearchKey | src/main/java/chattpg/logic/TaskActions.java:193 | the keyword findTask searches for is trimmed, no longer than the given one, empty for a missing keyword and empty exactly when the given one is blank |
| Logic.MatchesIff | src/main/java/chattpg/logic/TaskActions.java:201 | a description matches exactly when the lower-cased keyword occurs at some position of the lower-cased description |
| Logic.MatchExample | src/main/java/chattpg/logic/TaskActions.java:201 | "book" matches "read a book" (in either case) and not "cook dinner" |
| Logic.TaskActions.constructor | src/main/java/chattpg/logic/TaskActions.java:31-35 | the session starts with the given list, storage and separator, not loaded |
| Logic.TaskActions.LoadFromFile | src/main/java/chattpg/logic/TaskActions.java:42-50 | the first call replaces the list with what storage loads and sets loaded; if load throws, the list is left empty, loaded stays false and the error is raised; later calls change nothing |
| Logic.TaskActions.SaveToFile | src/main/java/chattpg/logic/TaskActions.java:55-57 | the file holds the encoding of the current list, one line per task in order |
| Logic.TaskActions.SavedListLoads | src/main/java/chattpg/logic/TaskActions.java:42-57 | once saved, the file loads back as the same list when no field holds '\|' or a line terminator |
| Logic.TaskActions.ListTasks | src/main/java/chattpg/logic/TaskActions.java:63-74 | an empty list prints the empty-list message and the separator; otherwise the header, then `\t<i+1>. <toString>` for each task in order, then the separator |
| Logic.TaskActions.AddTask | src/main/java/chattpg/logic/TaskActions.java:89-126 | with the parse as written: on a line that parses, exactly one fresh task is appended at the end, earlier entries are untouched, and the list is saved; otherwise the parse error (for every todo line among them), with nothing changed or saved |
| Logic.TaskActions.AddTaskCorrected | src/main/java/chattpg/logic/TaskActions.java:89-126 | the same with the corrected parse, so a well-formed todo line is appended and saved |
| Logic.TaskActions.Commit | src/main/java/chattpg/logic/TaskActions.java:120-125 | append the parsed task and save, or raise the parse error with nothing changed |
| Logic.TaskActions.DeleteTask | src/main/java/chattpg/logic/TaskActions.java:134-146 | a number outside 1..size gives the index error with the number and the size, with nothing changed or saved; otherwise the list becomes `tasks[..n-1] + tasks[n..]` and is saved |
| Logic.TaskActions.MarkDone | src/main/java/chattpg/logic/TaskActions.java:155-164 | bounds-checked the same way; only task object n-1 changes, and only its flag; a task already done raises the state error and nothing is saved; otherwise the list is saved |
| Logic.TaskActions.MarkUndone | src/main/java/chattpg/logic/TaskActions.java:173-182 | the same, for clearing the flag |
| Logic.TaskActions.Untouched | src/main/java/chattpg/logic/TaskActions.java:159 | a change to task object n-1 alone leaves the snapshot of every other object as it was |
| Logic.TaskActions.FindTask | src/main/java/chattpg/logic/TaskActions.java:192-210 | a trimmed keyword that is not one run of non-whitespace gives the single-word error; otherwise the result is strictly ascending, and holds exactly the numbers i+1 of the tasks whose lower-cased description contains the lower-cased keyword; nothing changes |
| Logic.MatchNumbersAscend | src/main/java/chattpg/logic/TaskActions.java:200-205 | the numbers findTask reports ascend strictly and lie in 1..size |
| Logic.MatchNumbersExact | src/main/java/chattpg/logic/TaskActions.java:200-205 | number i+1 is reported exactly when description i, lower-cased, contains the lower-cased keyword |

## Left out

- All console output, which includes the confirmations, the task count with its singular or plural form, and the text printed by `findTask`. `ListTasks` returns the lines that `listTasks` prints.
- LoadEncodeAll and SavedListLoads: the file is modelled as a sequence of lines, so the model does not cut text at line terminators; the round trip is stated only for fields free of them (`StorableFields`), because `Scanner.nextLine` would cut such a field into two lines and the second would throw `ArrayIndexOutOfBoundsException`. Fields typed at the console never hold one, since the shell reads each command with `Scanner.nextLine`.
- File-system effects: `File.exists`, `mkdirs`, `Scanner(File)`, `FileWriter`, `IOException`, `FileNotFoundException` and the platform line separator. The file is a sequence of lines, and a missing file is `None`.
- `null` arguments. Java strings are never null here, except for `findTask`'s keyword (an `Option`) and `RequireNonBlank`'s argument.
- `toLowerCase` beyond ASCII letters, and a locale-dependent lower case.
- The exception messages, including their line separator and `lineSep` suffix. Each message is the `Error` constructor that names it.
- Aliasing of the `ArrayList` passed to the `TaskActions` constructor. The model's list is owned by the object.
- Java `int` overflow of the task number: the number is an unbounded `int`.
- The console shells `ChatTPG.java` and `TaskOrganiser.java`, the earlier root-package versions of the classes, and the exception classes as Java types.
- Decimal: its contract states only that the text is not empty; that it prints the number in base ten is its definition, not a proved property.
- The getters `getDescription`, `getBy`, `getFrom`, `getTo` and `isDone`. They are the fields of `TaskValue` and of `Task`, fixed at construction. These fields are `const`, except the flag.

## Findings

| source | as written | input that shows it | evidently intended | confidence | as-written member | corrected member |
|---|---|---|---|---|---|---|
| src/main/java/chattpg/logic/TaskActions.java:112-114 | the text after "todo" is trimmed before its first character is compared with a space, so the check always fails; an empty text makes `charAt(0)` throw | `todo read book` gives "todo format"; `todo` raises StringIndexOutOfBoundsException | compare the untrimmed text with a space, then refuse a blank description ("todo requires a description.") and markers | high (not executed) | Parser.TodoFinding | Parser.ParseTodoCorrected |
| src/main/java/chattpg/logic/TaskActions.java:105 | `" /to "` can start on the last character of `" /from "`; then `fromPos + 7 > toPos`, and `substring` throws | `event x /from /to y` raises StringIndexOutOfBoundsException | an empty start, refused with "event parts must not be empty." | high (not executed) | Parser.EventOverlapFinding | Parser.ParseEventCorrected |

For the todo row:

- `ParseTodo` and `ParseAddAsWritten` model the code as written.
- `TodoAlwaysRejected` proves that every todo line is refused.
- `ParseAdd` is the corrected parser, and `TaskActions.AddTaskCorrected` is the session operation that uses it.
- `TodoCommand` and `ParseCommandOf` prove that the corrected parser accepts the todo command.

For the event row:

- `ParseEvent` and `EventAt` model the code as written. `EventOverlap` proves the string index error for every such line.
- `EventCorrectionAgrees` proves that the corrected branch never raises it and agrees with the code everywhere else.
