/** Storage.java: the line codec of the task file and the load and save loops.
    The file is a sequence of lines; None stands for a file that does not exist.
    Each line is "T | f | description", "D | f | description | by" or
    "E | f | description | from | to", with f "1" for done and "0" otherwise. */
module Persistence {
  import opened Errors
  import opened JavaStrings
  import opened Model

  function DoneFlag(done: bool): string {
    if done then "1" else "0"
  }

  /** The line save writes for one task: it opens with the letter of the
      variant, and its fifth character is the flag, "1" exactly when the task
      is done (EncodeIsJoin gives the whole layout). */
  function EncodeTask(v: TaskValue): (r: string)
    ensures |r| >= 8 + |v.description|
    ensures r[0] == (match v.kind case Todo => 'T' case Deadline(_) => 'D' case Event(_, _) => 'E')
    ensures (r[4] == '1') == v.done
  {
    match v.kind
    case Todo => "T | " + DoneFlag(v.done) + " | " + v.description
    case Deadline(due) => "D | " + DoneFlag(v.done) + " | " + v.description + " | " + due
    case Event(from, to) => "E | " + DoneFlag(v.done) + " | " + v.description + " | " + from + " | " + to
  }

  /** The lines save writes: one per task, in list order. */
  function EncodeAll(vs: seq<TaskValue>): (lines: seq<string>)
    ensures |lines| == |vs|
    ensures forall i :: 0 <= i < |vs| ==> lines[i] == EncodeTask(vs[i])
  {
    seq(|vs|, i requires 0 <= i < |vs| => EncodeTask(vs[i]))
  }

  /** What one line of the file contributes to load. */
  datatype LineResult =
    | Skip                                     // a blank line, or an unknown tag
    | Record(task: TaskValue, flagDone: bool)  // a freshly constructed task and its flag field
    | Failed(error: Error)                     // an exception that leaves load

  /** The body of load's loop for one line, up to the markTaskAsDone call:
      blank lines are skipped; the line is split on " | "; the tag, the flag and
      the description are read before the tag is looked at, so a line with fewer
      than three fields fails on array indexing; a D line reads a fourth field
      and an E line a fifth; an unknown tag skips the line; a blank field fails
      in the constructor. A constructed task is well formed and not done. */
  function DecodeLine(line: string): (r: LineResult)
    ensures IsBlank(line) ==> r == Skip
    ensures r.Record? ==> ValidValue(r.task) && !r.task.done
  {
    // line.trim().isEmpty(), which is IsBlank(line) by the contract of Trim
    if IsBlank(line) then Skip else DecodeFields(Split(line, FieldSeparator))
  }

  /** The part of load's loop body after the split, on the fields of a line. */
  function DecodeFields(parts: seq<string>): (r: LineResult)
    ensures r.Record? ==> ValidValue(r.task) && !r.task.done
  {
    if |parts| < 3 then Failed(ArrayIndexOutOfBounds)
    else
      var tag, isDone, description := parts[0], parts[1] == "1", parts[2];
      if tag == "T" then Constructed(NewTodo(description), isDone)
      else if tag == "D" then
        if |parts| < 4 then Failed(ArrayIndexOutOfBounds)
        else Constructed(NewDeadline(description, parts[3]), isDone)
      else if tag == "E" then
        if |parts| < 5 then Failed(ArrayIndexOutOfBounds)
        else Constructed(NewEvent(description, parts[3], parts[4]), isDone)
      else Skip
  }

  function Constructed(r: Result<TaskValue>, isDone: bool): LineResult {
    match r
    case Ok(v) => Record(v, isDone)
    case Err(e) => Failed(e)
  }

  /** The cases of a line's fields: too few fields for the tag fail on array
      indexing, an unknown tag is skipped, a blank field (or equal event ends)
      fails in the constructor, and otherwise the record holds the trimmed
      fields and the flag. */
  lemma DecodeFieldsCases(parts: seq<string>, r: LineResult)
    requires r == DecodeFields(parts)
    ensures |parts| < 3 ==> r == Failed(ArrayIndexOutOfBounds)
    ensures |parts| >= 3 && parts[0] !in {"T", "D", "E"} ==> r == Skip
    ensures |parts| >= 3 && ((parts[0] == "D" && |parts| < 4) || (parts[0] == "E" && |parts| < 5))
            ==> r == Failed(ArrayIndexOutOfBounds)
    ensures |parts| >= 3 && parts[0] == "T"
            ==> && (r.Record? <==> !IsBlank(parts[2]))
                && (!r.Record? ==> r == Failed(IllegalArgument(MustNotBeEmpty("description"))))
    ensures |parts| >= 4 && parts[0] == "D"
            ==> && (r.Record? <==> !IsBlank(parts[2]) && !IsBlank(parts[3]))
                && (!r.Record? ==> r.Failed? && r.error.IllegalArgument?)
    ensures |parts| >= 5 && parts[0] == "E"
            ==> && (r.Record? <==> !IsBlank(parts[2]) && !IsBlank(parts[3]) && !IsBlank(parts[4]) && Trim(parts[3]) != Trim(parts[4]))
                && (!r.Record? ==> r.Failed? && r.error.IllegalArgument?)
    ensures r.Record? ==> |parts| >= 3 && r.flagDone == (parts[1] == "1") && r.task.description == Trim(parts[2])
    ensures r.Record? && parts[0] == "T" ==> r.task.kind == Todo
    ensures r.Record? && parts[0] == "D" ==> |parts| >= 4 && r.task.kind == Deadline(Trim(parts[3]))
    ensures r.Record? && parts[0] == "E" ==> |parts| >= 5 && r.task.kind == Event(Trim(parts[3]), Trim(parts[4]))
  {
  }

  /** v followed by what the later lines give (an error stays an error). */
  function Prepend(v: TaskValue, r: Result<seq<TaskValue>>): Result<seq<TaskValue>> {
    match r
    case Ok(vs) => Ok([v] + vs)
    case Err(e) => Err(e)
  }

  /** What one decoded line does to the result of the lines after it. An
      exception from a line ends load with that exception, except the state
      error of markTaskAsDone: its catch sits outside the loop, so it would end
      load with the tasks read so far. */
  function AfterLine(d: LineResult, rest: Result<seq<TaskValue>>): (r: Result<seq<TaskValue>>)
    ensures d.Skip? ==> r == rest
    ensures d.Failed? ==> r == Err(d.error)
    ensures d.Record? && !d.task.done ==> r == Prepend(d.task.(done := d.flagDone), rest)
  {
    match d
    case Skip => rest
    case Failed(e) => Err(e)
    case Record(v, isDone) =>
      if !isDone then Prepend(v, rest)
      else
        match MarkDoneSpec(v)
        case Ok(w) => Prepend(w, rest)
        case Err(_) => Ok([])
  }

  /** The decoded lines, one result per line. */
  function DecodeAll(lines: seq<string>): (ds: seq<LineResult>)
    ensures |ds| == |lines|
    ensures forall i :: 0 <= i < |lines| ==> ds[i] == DecodeLine(lines[i])
  {
    seq(|lines|, i requires 0 <= i < |lines| => DecodeLine(lines[i]))
  }

  /** What load's loop makes of a sequence of decoded lines, first to last. */
  function LoadRecords(ds: seq<LineResult>): (r: Result<seq<TaskValue>>)
    ensures r.Ok? ==> |r.value| <= |ds|
    decreases |ds|
  {
    if ds == [] then Ok([]) else AfterLine(ds[0], LoadRecords(ds[1..]))
  }

  /** Storage.load on the state of the file: a missing file gives no tasks. */
  function LoadSpec(file: Option<seq<string>>): (r: Result<seq<TaskValue>>)
    ensures file.None? ==> r == Ok([])
    ensures file.Some? && r.Ok? ==> |r.value| <= |file.value|
  {
    match file
    case None => Ok([])
    case Some(lines) => LoadRecords(DecodeAll(lines))
  }

  /** Decoded records are well formed, so are the tasks loaded from them. */
  lemma {:induction false} LoadRecordsValid(ds: seq<LineResult>)
    requires forall k :: 0 <= k < |ds| && ds[k].Record? ==> ValidValue(ds[k].task)
    ensures LoadRecords(ds).Ok? ==> forall i :: 0 <= i < |LoadRecords(ds).value| ==> ValidValue(LoadRecords(ds).value[i])
    decreases |ds|
  {
    if ds != [] {
      LoadRecordsValid(ds[1..]);
    }
  }

  /** Every task load returns is well formed. */
  lemma LoadedTasksValid(file: Option<seq<string>>)
    ensures LoadSpec(file).Ok? ==> forall i :: 0 <= i < |LoadSpec(file).value| ==> ValidValue(LoadSpec(file).value[i])
  {
    if file.Some? {
      LoadRecordsValid(DecodeAll(file.value));
    }
  }

  /** prefix followed by what the remaining lines give. */
  function Continue(prefix: seq<TaskValue>, r: Result<seq<TaskValue>>): Result<seq<TaskValue>> {
    match r
    case Ok(vs) => Ok(prefix + vs)
    case Err(e) => Err(e)
  }

  lemma ContinuePrepend(prefix: seq<TaskValue>, v: TaskValue, r: Result<seq<TaskValue>>)
    ensures Continue(prefix, Prepend(v, r)) == Continue(prefix + [v], r)
  {
    if r.Ok? {
      assert prefix + ([v] + r.value) == prefix + [v] + r.value;
    }
  }

  /** One step of load's loop: the lines from i on give what line i does to
      the lines after it. */
  lemma LoadRecordsStep(ds: seq<LineResult>, i: nat)
    requires i < |ds|
    ensures LoadRecords(ds[i..]) == AfterLine(ds[i], LoadRecords(ds[i + 1..]))
  {
    assert ds[i..][1..] == ds[i + 1..];
  }

  /** A skipped line leaves what the remaining lines give unchanged. */
  lemma ContinueSkip(ds: seq<LineResult>, i: nat, prefix: seq<TaskValue>)
    requires i < |ds| && ds[i].Skip?
    ensures Continue(prefix, LoadRecords(ds[i..])) == Continue(prefix, LoadRecords(ds[i + 1..]))
  {
    LoadRecordsStep(ds, i);
  }

  /** A record not yet done adds its task, with the flag of its line, to the
      tasks read so far. */
  lemma ContinueRecord(ds: seq<LineResult>, i: nat, prefix: seq<TaskValue>)
    requires i < |ds| && ds[i].Record? && !ds[i].task.done
    ensures Continue(prefix, LoadRecords(ds[i..]))
         == Continue(prefix + [ds[i].task.(done := ds[i].flagDone)], LoadRecords(ds[i + 1..]))
  {
    LoadRecordsStep(ds, i);
    ContinuePrepend(prefix, ds[i].task.(done := ds[i].flagDone), LoadRecords(ds[i + 1..]));
  }

  /** A line that fails ends load with its error. */
  lemma ContinueFailed(ds: seq<LineResult>, i: nat, prefix: seq<TaskValue>)
    requires i < |ds| && ds[i].Failed?
    ensures Continue(prefix, LoadRecords(ds[i..])) == Err(ds[i].error)
  {
    LoadRecordsStep(ds, i);
  }

  lemma ContinueEmpty(r: Result<seq<TaskValue>>)
    ensures Continue([], r) == r
  {
    if r.Ok? {
      assert [] + r.value == r.value;
    }
  }

  /** A freshly decoded task is not done, so markTaskAsDone during load never
      raises and the state-error exit of load is never taken. */
  lemma LoadMarkNeverFails(line: string)
    requires DecodeLine(line).Record?
    ensures MarkDoneSpec(DecodeLine(line).task) == Ok(DecodeLine(line).task.(done := true))
  {
  }

  lemma DecodeAllCons(line: string, rest: seq<string>)
    ensures DecodeAll([line] + rest) == [DecodeLine(line)] + DecodeAll(rest)
  {
    var lines := [line] + rest;
    assert lines[1..] == rest;
    assert forall i :: 0 <= i < |rest| ==> lines[i + 1] == rest[i];
  }

  /** A record line puts its task in front of what the later lines load, done
      exactly when its flag field is "1". */
  lemma LoadedFlag(line: string, rest: seq<string>)
    requires DecodeLine(line).Record?
    ensures LoadSpec(Some([line] + rest))
         == Prepend(DecodeLine(line).task.(done := DecodeLine(line).flagDone), LoadSpec(Some(rest)))
    ensures LoadSpec(Some([line] + rest)).Ok? ==> |LoadSpec(Some([line] + rest)).value| >= 1
    ensures LoadSpec(Some([line] + rest)).Ok?
            ==> LoadSpec(Some([line] + rest)).value[0] == DecodeLine(line).task.(done := DecodeLine(line).flagDone)
  {
    DecodeAllCons(line, rest);
    var ds := DecodeAll([line] + rest);
    assert ds[1..] == DecodeAll(rest);
  }

  /** Blank lines and lines with an unknown tag are skipped, and loading goes
      on with the next line. */
  lemma SkippedLine(line: string, rest: seq<string>)
    requires IsBlank(line) || (|Split(line, FieldSeparator)| >= 3 && Split(line, FieldSeparator)[0] !in {"T", "D", "E"})
    ensures LoadSpec(Some([line] + rest)) == LoadSpec(Some(rest))
  {
    DecodeAllCons(line, rest);
    var ds := DecodeAll([line] + rest);
    assert ds[1..] == DecodeAll(rest);
    assert DecodeLine(line) == Skip;
  }

  /** A line with fewer than three fields ends load with an array index error. */
  lemma ShortLineFails(line: string, rest: seq<string>)
    requires !IsBlank(line) && |Split(line, FieldSeparator)| < 3
    ensures LoadSpec(Some([line] + rest)) == Err(ArrayIndexOutOfBounds)
  {
    DecodeAllCons(line, rest);
    assert DecodeLine(line) == Failed(ArrayIndexOutOfBounds);
  }

  /** The characters at which Scanner.nextLine ends a line: '\n', '\r',
      U+0085, U+2028 and U+2029. */
  predicate IsLineTerminator(c: char) {
    c == '\n' || c == '\r' || c == '\U{0085}' || c == '\U{2028}' || c == '\U{2029}'
  }

  /** A field that save writes inside one line and load reads back as one. */
  predicate StorableField(s: string) {
    NoPipe(s) && forall i :: 0 <= i < |s| ==> !IsLineTerminator(s[i])
  }

  /** A record with no '|' and no line terminator inside any of its fields. */
  predicate StorableFields(v: TaskValue) {
    && StorableField(v.description)
    && match v.kind
       case Todo => true
       case Deadline(due) => StorableField(due)
       case Event(from, to) => StorableField(from) && StorableField(to)
  }

  /** The fields of the line of a task, in order. */
  function Fields(v: TaskValue): seq<string> {
    match v.kind
    case Todo => ["T", DoneFlag(v.done), v.description]
    case Deadline(due) => ["D", DoneFlag(v.done), v.description, due]
    case Event(from, to) => ["E", DoneFlag(v.done), v.description, from, to]
  }

  /** The line of a task is its fields joined by " | ". */
  lemma EncodeIsJoin(v: TaskValue)
    ensures EncodeTask(v) == Join(Fields(v), FieldSeparator)
  {
    var f, d := DoneFlag(v.done), v.description;
    match v.kind
    case Todo =>
      JoinThree("T", f, d, FieldSeparator);
      assert "T | " == "T" + FieldSeparator;
    case Deadline(due) =>
      JoinFour("D", f, d, due, FieldSeparator);
      assert "D | " == "D" + FieldSeparator;
    case Event(from, to) =>
      JoinFive("E", f, d, from, to, FieldSeparator);
      assert "E | " == "E" + FieldSeparator;
  }

  /** Splitting the line of a task whose fields are storable gives its fields back. */
  lemma SplitEncode(v: TaskValue)
    requires ValidValue(v) && StorableFields(v)
    ensures !IsBlank(EncodeTask(v))
    ensures Split(EncodeTask(v), FieldSeparator) == Fields(v)
  {
    var fs := Fields(v);
    EncodeIsJoin(v);
    assert forall i :: 0 <= i < |fs| ==> NoPipe(fs[i]);
    SplitJoin(fs);
    assert !IsTrimSpace(EncodeTask(v)[0]);
  }

  lemma DecodeTodoFields(description: string, done: bool)
    requires IsField(description)
    ensures DecodeFields(["T", DoneFlag(done), description]) == Record(TaskValue(Todo, description, false), done)
  {
    var parts := ["T", DoneFlag(done), description];
    assert parts[0] == "T";
    assert (parts[1] == "1") == done;
    NewTodoOfField(description);
  }

  lemma DecodeDeadlineFields(description: string, due: string, done: bool)
    requires IsField(description) && IsField(due)
    ensures DecodeFields(["D", DoneFlag(done), description, due])
         == Record(TaskValue(Deadline(due), description, false), done)
  {
    var parts := ["D", DoneFlag(done), description, due];
    assert parts[0] == "D" && parts[0] != "T";
    assert (parts[1] == "1") == done;
    NewDeadlineOfFields(description, due);
  }

  lemma DecodeEventFields(description: string, from: string, to: string, done: bool)
    requires IsField(description) && IsField(from) && IsField(to) && from != to
    ensures DecodeFields(["E", DoneFlag(done), description, from, to])
         == Record(TaskValue(Event(from, to), description, false), done)
  {
    var parts := ["E", DoneFlag(done), description, from, to];
    assert parts[0] == "E" && parts[0] != "T" && parts[0] != "D";
    assert (parts[1] == "1") == done;
    NewEventOfFields(description, from, to);
  }

  /** The fields of a well-formed task decode to the task, not yet done, and
      its done flag. */
  lemma DecodeFieldsOf(v: TaskValue)
    requires ValidValue(v)
    ensures DecodeFields(Fields(v)) == Record(v.(done := false), v.done)
  {
    match v.kind
    case Todo => DecodeTodoFields(v.description, v.done);
    case Deadline(due) => DecodeDeadlineFields(v.description, due, v.done);
    case Event(from, to) => DecodeEventFields(v.description, from, to, v.done);
  }

  /** Decoding the line of a well-formed task with storable fields gives
      back the task, not yet done, together with its done flag. */
  lemma DecodeEncode(v: TaskValue)
    requires ValidValue(v) && StorableFields(v)
    ensures DecodeLine(EncodeTask(v)) == Record(v.(done := false), v.done)
  {
    SplitEncode(v);
    DecodeFieldsOf(v);
  }

  /** Loading the records of saved tasks gives the tasks back: a task saved
      done is rebuilt not done and then marked done. */
  lemma {:induction false} LoadSavedRecords(ds: seq<LineResult>, vs: seq<TaskValue>)
    requires |ds| == |vs|
    requires forall i :: 0 <= i < |vs| ==> ds[i] == Record(vs[i].(done := false), vs[i].done)
    ensures LoadRecords(ds) == Ok(vs)
    decreases |ds|
  {
    if ds != [] {
      LoadSavedRecords(ds[1..], vs[1..]);
      assert vs == [vs[0]] + vs[1..];
    }
  }

  /** Round trip: when no field contains '|' or a line terminator, loading the lines that save
      wrote for a list of well-formed tasks gives back the same list
      (variants, fields and done flags). */
  lemma LoadEncodeAll(vs: seq<TaskValue>)
    requires forall i :: 0 <= i < |vs| ==> ValidValue(vs[i]) && StorableFields(vs[i])
    ensures LoadSpec(Some(EncodeAll(vs))) == Ok(vs)
  {
    var ds := DecodeAll(EncodeAll(vs));
    forall i | 0 <= i < |vs|
      ensures ds[i] == Record(vs[i].(done := false), vs[i].done)
    {
      DecodeEncode(vs[i]);
    }
    LoadSavedRecords(ds, vs);
  }

  /** A line of three '|'-free fields whose tag is not T, D or E is skipped. */
  lemma UnknownTagLine(tag: string, f: string, d: string, rest: seq<string>)
    requires NoPipe(tag) && NoPipe(f) && NoPipe(d) && d != []
    requires tag != [] && !IsTrimSpace(tag[0]) && tag !in {"T", "D", "E"}
    ensures LoadSpec(Some([tag + FieldSeparator + f + FieldSeparator + d] + rest)) == LoadSpec(Some(rest))
  {
    var line := tag + FieldSeparator + f + FieldSeparator + d;
    JoinThree(tag, f, d, FieldSeparator);
    var fs := [tag, f, d];
    assert forall i :: 0 <= i < |fs| ==> NoPipe(fs[i]);
    SplitJoin(fs);
    assert line[0] == tag[0];
    SkippedLine(line, rest);
  }

  /** A file with a line with an unknown tag before "T | 0 | buy milk" loads as
      the one todo "buy milk", not done. */
  lemma UnknownTagExample()
    ensures LoadSpec(Some(["X | 0 | junk", "T | 0 | buy milk"])) == Ok([TaskValue(Todo, "buy milk", false)])
  {
    assert "X | 0 | junk" == "X" + FieldSeparator + "0" + FieldSeparator + "junk";
    assert ["X | 0 | junk", "T | 0 | buy milk"] == ["X | 0 | junk"] + ["T | 0 | buy milk"];
    UnknownTagLine("X", "0", "junk", ["T | 0 | buy milk"]);
    LoadBuyMilk();
  }

  lemma LoadBuyMilk()
    ensures LoadSpec(Some(["T | 0 | buy milk"])) == Ok([TaskValue(Todo, "buy milk", false)])
  {
    var v := TaskValue(Todo, "buy milk", false);
    assert EncodeTask(v) == "T | 0 | buy milk";
    assert EncodeAll([v]) == ["T | 0 | buy milk"];
    LoadEncodeAll([v]);
  }

  /** The file the organiser reads and writes. */
  class Storage {
    var file: Option<seq<string>>

    constructor (file: Option<seq<string>>)
      ensures this.file == file
    {
      this.file := file;
    }

    /** Storage.load: reads the file line by line into new task objects. */
    method Load() returns (r: Result<seq<Task>>)
      ensures r.Ok? <==> LoadSpec(file).Ok?
      ensures r.Err? ==> r.error == LoadSpec(file).error
      ensures r.Ok? ==> Values(r.value) == LoadSpec(file).value
      ensures r.Ok? ==> Distinct(r.value) && forall t :: t in r.value ==> fresh(t) && t.Valid()
    {
      if file.None? {
        return Ok([]);
      }
      var lines := file.value;
      ghost var ds := DecodeAll(lines);
      var tasks: seq<Task> := [];
      var i := 0;
      assert ds[i..] == ds;
      assert Values(tasks) == [];
      ContinueEmpty(LoadRecords(ds));
      while i < |lines|
        invariant 0 <= i <= |lines|
        invariant Distinct(tasks) && forall k :: 0 <= k < |tasks| ==> fresh(tasks[k]) && tasks[k].Valid()
        invariant LoadRecords(ds) == Continue(Values(tasks), LoadRecords(ds[i..]))
      {
        var next, stop := ReadLine(tasks, lines[i], ds, i);
        if stop.Some? {
          return stop.value;
        }
        tasks := next;
        i := i + 1;
      }
      assert ds[i..] == [];
      return Ok(tasks);
    }

    /** One turn of load's loop, on line i: a skipped line leaves the list as
        it is, a failing line stops load with its error, and a record appends
        its new task object. The list then stands where load's loop stands
        after line i. */
    method ReadLine(tasks: seq<Task>, line: string, ghost ds: seq<LineResult>, ghost i: nat)
      returns (next: seq<Task>, stop: Option<Result<seq<Task>>>)
      requires i < |ds| && ds[i] == DecodeLine(line) && Distinct(tasks)
      ensures stop.Some? ==> stop.value.Err? && Continue(old(Values(tasks)), LoadRecords(ds[i..])) == Err(stop.value.error)
      ensures stop.None? ==> && |next| >= |tasks| && (forall k :: 0 <= k < |tasks| ==> next[k] == tasks[k])
                             && (forall k :: |tasks| <= k < |next| ==> fresh(next[k]) && next[k].Valid())
                             && Distinct(next)
                             && Continue(old(Values(tasks)), LoadRecords(ds[i..])) == Continue(Values(next), LoadRecords(ds[i + 1..]))
    {
      var d := DecodeLine(line);
      if d.Skip? {
        ContinueSkip(ds, i, Values(tasks));
        return tasks, None;
      }
      if d.Failed? {
        ContinueFailed(ds, i, Values(tasks));
        return tasks, Some(Err(d.error));
      }
      var added, marked := Build(tasks, d, ds, i);
      if marked.Fail? {
        // the catch of IllegalStateException, outside the loop of load
        return tasks, Some(Ok(tasks));
      }
      return added, None;
    }

    /** The task object of record i, constructed, then marked done when its
        flag field says so, and appended to the tasks read so far: the list
        then stands where load's loop stands after line i. */
    method Build(tasks: seq<Task>, d: LineResult, ghost ds: seq<LineResult>, ghost i: nat) returns (added: seq<Task>, marked: Outcome)
      requires i < |ds| && ds[i] == d && d.Record? && ValidValue(d.task) && !d.task.done
      requires Distinct(tasks)
      ensures marked == Pass
      ensures |added| == |tasks| + 1 && forall k :: 0 <= k < |tasks| ==> added[k] == tasks[k]
      ensures fresh(added[|tasks|]) && added[|tasks|].Valid()
      ensures added[|tasks|].Value() == d.task.(done := d.flagDone)
      ensures Distinct(added)
      ensures Continue(old(Values(tasks)), LoadRecords(ds[i..])) == Continue(Values(added), LoadRecords(ds[i + 1..]))
    {
      var t := new Task(d.task.kind, d.task.description);
      marked := Pass;
      if d.flagDone {
        marked := t.MarkTaskAsDone();
      }
      added := tasks + [t];
      ContinueRecord(ds, i, old(Values(tasks)));
      assert Values(added) == old(Values(tasks)) + [d.task.(done := d.flagDone)];
    }

    /** Storage.save: rewrites the file with one line per task, in list order. */
    method Save(tasks: seq<Task>)
      modifies this
      ensures file == Some(EncodeAll(Values(tasks)))
    {
      var lines: seq<string> := [];
      for i := 0 to |tasks|
        invariant |lines| == i
        invariant forall k :: 0 <= k < i ==> lines[k] == EncodeTask(tasks[k].Value())
      {
        lines := lines + [EncodeTask(tasks[i].Value())];
      }
      assert lines == EncodeAll(Values(tasks));
      file := Some(lines);
    }
  }
}
