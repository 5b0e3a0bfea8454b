/** The parsing half of TaskActions.addTask: the command keyword picks the
    variant, the text after it is cut at the /by, /from and /to markers, and
    the pieces go to the constructors of Model. The result is the task to
    append, or the exception addTask raises. */
module Parser {
  import opened Errors
  import opened JavaStrings
  import opened Model

  const ByMarker: string := " /by "
  const FromMarker: string := " /from "
  const ToMarker: string := " /to "

  /** The deadline branch, on the trimmed text after "deadline": split once at
      " /by "; without a marker the format error, otherwise the trimmed halves
      go to the Deadline constructor. */
  function ParseDeadline(rest: string): (r: Result<TaskValue>)
    ensures !Contains(rest, ByMarker) ==> r == Err(InvalidCommand(DeadlineFormat))
    ensures r.Ok? ==> r.value.kind.Deadline? && ValidValue(r.value) && !r.value.done
  {
    var parts := SplitFirst(rest, ByMarker);
    if |parts| < 2 then Err(InvalidCommand(DeadlineFormat))
    else NewDeadline(Trim(parts[0]), Trim(parts[1]))
  }

  /** The event branch as written, on the trimmed text after "event": the
      positions of the first " /from " and the first " /to " decide. */
  function ParseEvent(rest: string): (r: Result<TaskValue>)
    ensures r.Ok? ==> r.value.kind.Event? && ValidValue(r.value) && !r.value.done
  {
    EventAt(rest, IndexOf(rest, FromMarker), IndexOf(rest, ToMarker))
  }

  /** A marker position as indexOf reports it: -1, or where the marker of
      length n fits in s. */
  predicate MarkerPos(s: string, n: nat, pos: int) {
    pos == -1 || (0 <= pos && pos + n <= |s|)
  }

  /** The event branch once the markers are located. Either marker missing, or
      " /to " before " /from ", is the format error. When " /to " starts inside
      " /from " (as in "x /from /to y") the start index of the middle substring
      passes its end index and substring raises a string index error. */
  function EventAt(rest: string, fromPos: int, toPos: int): (r: Result<TaskValue>)
    requires MarkerPos(rest, 7, fromPos) && MarkerPos(rest, 5, toPos)
    ensures fromPos == -1 || toPos == -1 || fromPos > toPos ==> r == Err(InvalidCommand(EventFormat))
    ensures r.Ok? ==> r.value.kind.Event? && ValidValue(r.value) && !r.value.done
  {
    if fromPos == -1 || toPos == -1 || fromPos > toPos then Err(InvalidCommand(EventFormat))
    else if fromPos + 7 > toPos then Err(StringIndexOutOfBounds)
    else EventParts(Trim(rest[..fromPos]), Trim(rest[fromPos + 7..toPos]), Trim(rest[toPos + 5..]))
  }

  /** The event branch with overlapping markers read as an empty start, which
      the emptiness check then refuses. */
  function ParseEventCorrected(rest: string): (r: Result<TaskValue>)
    ensures r.Ok? ==> r.value.kind.Event? && ValidValue(r.value) && !r.value.done
  {
    EventAtCorrected(rest, IndexOf(rest, FromMarker), IndexOf(rest, ToMarker))
  }

  function EventAtCorrected(rest: string, fromPos: int, toPos: int): (r: Result<TaskValue>)
    requires MarkerPos(rest, 7, fromPos) && MarkerPos(rest, 5, toPos)
    ensures fromPos == -1 || toPos == -1 || fromPos > toPos ==> r == Err(InvalidCommand(EventFormat))
    ensures r.Ok? ==> r.value.kind.Event? && ValidValue(r.value) && !r.value.done
  {
    if fromPos == -1 || toPos == -1 || fromPos > toPos then Err(InvalidCommand(EventFormat))
    else if fromPos + 7 > toPos then EventParts(Trim(rest[..fromPos]), [], Trim(rest[toPos + 5..]))
    else EventParts(Trim(rest[..fromPos]), Trim(rest[fromPos + 7..toPos]), Trim(rest[toPos + 5..]))
  }

  /** The common tail of the event branch: the emptiness check on the three
      trimmed pieces, then the Event constructor. */
  function EventParts(desc: string, start: string, end: string): (r: Result<TaskValue>)
    ensures desc == [] || start == [] || end == [] ==> r == Err(InvalidCommand(EventPartsEmpty))
    ensures r.Ok? ==> r.value.kind.Event? && ValidValue(r.value) && !r.value.done
  {
    if desc == [] || start == [] || end == [] then Err(InvalidCommand(EventPartsEmpty))
    else NewEvent(desc, start, end)
  }

  /** The todo checks for the /by, /from and /to markers. */
  predicate HasMarker(desc: string) {
    Contains(desc, "/by") || Contains(desc, "/from") || Contains(desc, "/to")
  }

  /** The todo branch as written, on the text after "todo": the text is trimmed
      before its first character is compared with a space, so an empty text
      fails in charAt(0) and any other text fails the format check. The two
      later checks cannot be reached. */
  function ParseTodo(raw: string): (r: Result<TaskValue>)
    ensures r.Err? && r.error in {StringIndexOutOfBounds, InvalidCommand(TodoFormat)}
  {
    var desc := Trim(raw);
    if desc == [] then Err(StringIndexOutOfBounds)
    else if desc[0] != ' ' then Err(InvalidCommand(TodoFormat))
    else if desc == [] then Err(InvalidCommand(TodoEmpty))
    else if HasMarker(desc) then Err(InvalidCommand(TodoMarkers))
    else NewTodo(desc)
  }

  /** The todo branch with the space check made on the text before it is
      trimmed: "todo" must be followed by a space or by nothing, the trimmed
      description must not be empty and must not hold a marker. */
  function ParseTodoCorrected(raw: string): (r: Result<TaskValue>)
    ensures r.Ok? <==> (raw == [] || raw[0] == ' ') && !IsBlank(raw) && !HasMarker(Trim(raw))
    ensures raw != [] && raw[0] != ' ' ==> r == Err(InvalidCommand(TodoFormat))
    ensures (raw == [] || raw[0] == ' ') && IsBlank(raw) ==> r == Err(InvalidCommand(TodoEmpty))
    ensures r.Ok? ==> r.value == TaskValue(Todo, Trim(raw), false) && ValidValue(r.value)
  {
    if raw != [] && raw[0] != ' ' then Err(InvalidCommand(TodoFormat))
    else
      var desc := Trim(raw);
      if desc == [] then Err(InvalidCommand(TodoEmpty))
      else if HasMarker(desc) then Err(InvalidCommand(TodoMarkers))
      else NewTodo(desc)
  }

  /** addTask's choice of branch, as written: the keyword prefixes are tried in
      the order deadline, event, todo; anything else is an unknown command. */
  function ParseAddAsWritten(line: string): (r: Result<TaskValue>)
    ensures r.Ok? ==> ValidValue(r.value) && !r.value.done && !r.value.kind.Todo?
  {
    if StartsWith(line, "deadline") then ParseDeadline(Trim(line[8..]))
    else if StartsWith(line, "event") then ParseEvent(Trim(line[5..]))
    else if StartsWith(line, "todo") then ParseTodo(line[4..])
    else Err(InvalidCommand(UnknownCommand))
  }

  /** addTask's parse with both corrected branches, the parse of the corrected
      session operation AddTaskCorrected. */
  function ParseAdd(line: string): (r: Result<TaskValue>)
    ensures r.Ok? ==> ValidValue(r.value) && !r.value.done
  {
    if StartsWith(line, "deadline") then ParseDeadline(Trim(line[8..]))
    else if StartsWith(line, "event") then ParseEventCorrected(Trim(line[5..]))
    else if StartsWith(line, "todo") then ParseTodoCorrected(line[4..])
    else Err(InvalidCommand(UnknownCommand))
  }

  // ---- properties of the branches -------------------------------------------

  /** On trimmed text the halves around " /by " are never blank, so the
      deadline branch succeeds exactly when the marker is present. */
  lemma DeadlineBuiltIffMarker(rest: string)
    requires IsTrimmed(rest)
    ensures ParseDeadline(rest).Ok? <==> Contains(rest, ByMarker)
  {
    var parts := SplitFirst(rest, ByMarker);
    if |parts| == 2 {
      var k := IndexOf(rest, ByMarker);
      assert rest[k..k + 5] == ByMarker;
      assert rest[k] == ' ' == rest[k + 4] by {
        assert rest[k..k + 5][0] == rest[k] && rest[k..k + 5][4] == rest[k + 4];
      }
      assert parts[0] == rest[..k] && parts[0][0] == rest[0];
      assert parts[1] == rest[k + 5..];
      assert parts[1][|parts[1]| - 1] == rest[|rest| - 1];
      assert !IsBlank(parts[0]) && !IsBlank(parts[1]);
      TrimIdempotent(parts[0]);
      TrimIdempotent(parts[1]);
    }
  }

  /** Every todo command is refused as written: blank text raises a string
      index error, anything else the format error. */
  lemma TodoAlwaysRejected(raw: string)
    ensures IsBlank(raw) ==> ParseTodo(raw) == Err(StringIndexOutOfBounds)
    ensures !IsBlank(raw) ==> ParseTodo(raw) == Err(InvalidCommand(TodoFormat))
  {
  }

  /** The corrected event branch never raises a string index error, and it
      agrees with the branch as written wherever that one does not raise it. */
  lemma EventCorrectionAgrees(rest: string)
    ensures ParseEventCorrected(rest) != Err(StringIndexOutOfBounds)
    ensures ParseEvent(rest) != Err(StringIndexOutOfBounds) ==> ParseEvent(rest) == ParseEventCorrected(rest)
  {
  }

  /** On trimmed pieces the Event constructor can only refuse equal ends: the
      emptiness check has already refused a blank piece. */
  lemma EventPartsValidation(desc: string, start: string, end: string)
    requires IsTrimmed(desc) && IsTrimmed(start) && IsTrimmed(end)
    ensures EventParts(desc, start, end).Err? && EventParts(desc, start, end).error.IllegalArgument?
            ==> EventParts(desc, start, end).error == IllegalArgument(FromToMustDiffer)
  {
    if desc != [] && start != [] && end != [] {
      assert !IsBlank(desc) && !IsBlank(start) && !IsBlank(end) by {
        assert !IsTrimSpace(desc[0]) && !IsTrimSpace(start[0]) && !IsTrimSpace(end[0]);
      }
    }
  }

  /** A deadline line fails only with the format error. */
  lemma DeadlineErrors(rest: string)
    requires IsTrimmed(rest)
    ensures ParseDeadline(rest).Err? ==> ParseDeadline(rest).error == InvalidCommand(DeadlineFormat)
  {
    DeadlineBuiltIffMarker(rest);
  }

  /** An event line passes on no blank-field error of the constructor. */
  lemma EventValidation(rest: string)
    ensures ParseEventCorrected(rest).Err? && ParseEventCorrected(rest).error.IllegalArgument?
            ==> ParseEventCorrected(rest).error == IllegalArgument(FromToMustDiffer)
  {
    var fromPos := IndexOf(rest, FromMarker);
    var toPos := IndexOf(rest, ToMarker);
    ParseEventAt(rest, fromPos, toPos);
    if fromPos != -1 && toPos != -1 && fromPos <= toPos {
      var start := if fromPos + 7 <= toPos then Trim(rest[fromPos + 7..toPos]) else [];
      EventPartsValidation(Trim(rest[..fromPos]), start, Trim(rest[toPos + 5..]));
    }
  }

  /** A todo line that gets past its checks is always constructed. */
  lemma TodoValidation(raw: string)
    ensures ParseTodoCorrected(raw).Err? ==> !ParseTodoCorrected(raw).error.IllegalArgument?
  {
  }

  /** The only constructor failure addTask can pass on is an event whose start
      and end are equal: the parser's own checks leave no blank field. */
  lemma AddValidationErrors(line: string)
    ensures ParseAddAsWritten(line).Err? && ParseAddAsWritten(line).error.IllegalArgument?
            ==> ParseAddAsWritten(line).error == IllegalArgument(FromToMustDiffer)
    ensures ParseAdd(line).Err? && ParseAdd(line).error.IllegalArgument?
            ==> ParseAdd(line).error == IllegalArgument(FromToMustDiffer)
  {
    if StartsWith(line, "deadline") {
      DeadlineErrors(Trim(line[8..]));
    } else if StartsWith(line, "event") {
      EventValidation(Trim(line[5..]));
      EventCorrectionAgrees(Trim(line[5..]));
    } else if StartsWith(line, "todo") {
      TodoValidation(line[4..]);
    }
  }

  /** A successful add is the variant its keyword names; as written, only the
      deadline and event keywords can succeed. */
  lemma AddedKind(line: string)
    ensures ParseAddAsWritten(line).Ok? && StartsWith(line, "deadline") ==> ParseAddAsWritten(line).value.kind.Deadline?
    ensures ParseAddAsWritten(line).Ok? && !StartsWith(line, "deadline") ==> StartsWith(line, "event") && ParseAddAsWritten(line).value.kind.Event?
    ensures ParseAdd(line).Ok? && StartsWith(line, "deadline") ==> ParseAdd(line).value.kind.Deadline?
    ensures ParseAdd(line).Ok? && !StartsWith(line, "deadline") && StartsWith(line, "event") ==> ParseAdd(line).value.kind.Event?
    ensures ParseAdd(line).Ok? && !StartsWith(line, "deadline") && !StartsWith(line, "event") ==> StartsWith(line, "todo") && ParseAdd(line).value.kind.Todo?
  {
  }

  /** A line starting with none of the three keywords is an unknown command. */
  lemma UnknownKeyword(line: string)
    requires !StartsWith(line, "deadline") && !StartsWith(line, "event") && !StartsWith(line, "todo")
    ensures ParseAdd(line) == Err(InvalidCommand(UnknownCommand))
    ensures ParseAddAsWritten(line) == Err(InvalidCommand(UnknownCommand))
  {
  }

  // ---- the command that adds a task ------------------------------------------

  /** The command a user types to add a task with the fields of v, in the
      formats addTask documents. */
  function CommandOf(v: TaskValue): string {
    match v.kind
    case Todo => "todo " + v.description
    case Deadline(due) => "deadline " + v.description + ByMarker + due
    case Event(from, to) => "event " + v.description + FromMarker + from + ToMarker + to
  }

  predicate NoSlash(s: string) {
    '/' !in s
  }

  /** The fields of a task hold no '/', so none of them can look like a marker. */
  predicate NoSlashFields(v: TaskValue) {
    && NoSlash(v.description)
    && match v.kind
       case Todo => true
       case Deadline(due) => NoSlash(due)
       case Event(from, to) => NoSlash(from) && NoSlash(to)
  }

  lemma SplitDeadlineText(d: string, due: string)
    requires NoSlash(d)
    ensures SplitFirst(d + ByMarker + due, ByMarker) == [d, due]
  {
    var s := d + ByMarker + due;
    assert ByMarker[0] == ' ' && ByMarker[1] == '/';
    FirstMarkerAfter(d, ByMarker, due);
    assert s[..|d|] == d && s[|d| + 5..] == due;
  }

  lemma ParseDeadlineCommand(d: string, due: string)
    requires IsField(d) && IsField(due) && NoSlash(d)
    ensures ParseDeadline(Trim(" " + d + ByMarker + due)) == Ok(TaskValue(Deadline(due), d, false))
  {
    var s := d + ByMarker + due;
    assert " " + d + ByMarker + due == " " + s;
    assert s[0] == d[0] && s[|s| - 1] == due[|due| - 1];
    TrimPadded(s);
    SplitDeadlineText(d, due);
    TrimOfTrimmed(d);
    TrimOfTrimmed(due);
    NewDeadlineOfFields(d, due);
  }

  /** Where the markers sit in the text of an event command. */
  lemma EventMarkers(d: string, from: string, rest: string)
    requires NoSlash(d) && NoSlash(from)
    ensures IndexOf(d + FromMarker + from + ToMarker + rest, FromMarker) == |d|
    ensures IndexOf(d + FromMarker + from + ToMarker + rest, ToMarker) == |d| + 7 + |from|
  {
    var x := d + FromMarker + from;
    var s := x + ToMarker + rest;
    assert s == d + FromMarker + (from + ToMarker + rest);
    FirstMarkerAfter(d, FromMarker, from + ToMarker + rest);
    assert s[|x|..|x| + 5] == ToMarker;
    forall j | 0 <= j < |x|
      ensures !OccursAt(s, ToMarker, j)
    {
      if j == |d| {
        assert s[j..j + 5][2] == s[j + 2] == 'f';
      } else {
        assert s[j + 1] != '/' by {
          if j + 1 < |d| {
            assert s[j + 1] == d[j + 1];
          } else if j + 1 < |d| + 7 {
            assert s[j + 1] == FromMarker[j + 1 - |d|];
          } else if j + 1 < |x| {
            assert s[j + 1] == from[j + 1 - |d| - 7];
          } else {
            assert s[j + 1] == ToMarker[0];
          }
        }
        assert s[j..j + 5][1] == s[j + 1];
      }
    }
    IndexOfIs(s, ToMarker, |x|);
  }

  /** The three pieces an event command's text is cut into. */
  lemma EventPieces(s: string, d: string, from: string, to: string)
    requires s == d + FromMarker + from + ToMarker + to
    ensures |s| == |d| + 7 + |from| + 5 + |to|
    ensures s[..|d|] == d && s[|d| + 7..|d| + 7 + |from|] == from && s[|d| + 7 + |from| + 5..] == to
  {
  }

  /** Both event branches in terms of the marker positions. */
  lemma ParseEventAt(rest: string, fromPos: int, toPos: int)
    requires IndexOf(rest, FromMarker) == fromPos && IndexOf(rest, ToMarker) == toPos
    ensures MarkerPos(rest, 7, fromPos) && MarkerPos(rest, 5, toPos)
    ensures ParseEvent(rest) == EventAt(rest, fromPos, toPos)
    ensures ParseEventCorrected(rest) == EventAtCorrected(rest, fromPos, toPos)
  {
  }

  /** With the markers in order and apart, both branches pass the three
      trimmed pieces between them on. */
  lemma EventAtSlices(rest: string, fromPos: int, toPos: int)
    requires 0 <= fromPos && fromPos + 7 <= toPos && toPos + 5 <= |rest|
    ensures EventAt(rest, fromPos, toPos) == EventParts(Trim(rest[..fromPos]), Trim(rest[fromPos + 7..toPos]), Trim(rest[toPos + 5..]))
    ensures EventAtCorrected(rest, fromPos, toPos) == EventAt(rest, fromPos, toPos)
  {
  }

  lemma ParseEventSlices(rest: string, fromPos: int, toPos: int)
    requires IndexOf(rest, FromMarker) == fromPos && IndexOf(rest, ToMarker) == toPos
    requires 0 <= fromPos && fromPos + 7 <= toPos
    ensures ParseEvent(rest) == EventParts(Trim(rest[..fromPos]), Trim(rest[fromPos + 7..toPos]), Trim(rest[toPos + 5..]))
    ensures ParseEventCorrected(rest) == ParseEvent(rest)
  {
    ParseEventAt(rest, fromPos, toPos);
    EventAtSlices(rest, fromPos, toPos);
  }

  /** The same, with the three pieces named. */
  lemma ParseEventPieces(rest: string, fromPos: int, toPos: int, x: string, y: string, z: string)
    requires IndexOf(rest, FromMarker) == fromPos && IndexOf(rest, ToMarker) == toPos
    requires 0 <= fromPos && fromPos + 7 <= toPos && toPos + 5 <= |rest|
    requires x == rest[..fromPos] && y == rest[fromPos + 7..toPos] && z == rest[toPos + 5..]
    ensures ParseEvent(rest) == EventParts(Trim(x), Trim(y), Trim(z))
    ensures ParseEventCorrected(rest) == ParseEvent(rest)
  {
    ParseEventSlices(rest, fromPos, toPos);
  }

  /** What the text of an event command tells about its markers and pieces. */
  lemma EventFacts(s: string, d: string, from: string, to: string)
    requires s == d + FromMarker + from + ToMarker + to
    requires NoSlash(d) && NoSlash(from)
    ensures IndexOf(s, FromMarker) == |d| && IndexOf(s, ToMarker) == |d| + 7 + |from|
    ensures |s| == |d| + 7 + |from| + 5 + |to|
    ensures s[..|d|] == d && s[|d| + 7..|d| + 7 + |from|] == from && s[|d| + 7 + |from| + 5..] == to
  {
    EventMarkers(d, from, to);
    EventPieces(s, d, from, to);
  }

  lemma ParseEventOfFacts(s: string, d: string, from: string, to: string)
    requires IndexOf(s, FromMarker) == |d| && IndexOf(s, ToMarker) == |d| + 7 + |from|
    requires |s| == |d| + 7 + |from| + 5 + |to|
    requires s[..|d|] == d && s[|d| + 7..|d| + 7 + |from|] == from && s[|d| + 7 + |from| + 5..] == to
    ensures ParseEvent(s) == EventParts(Trim(d), Trim(from), Trim(to))
    ensures ParseEventCorrected(s) == ParseEvent(s)
  {
    ParseEventPieces(s, |d|, |d| + 7 + |from|, d, from, to);
  }

  /** The pieces of a valid event pass the emptiness check and the
      constructor unchanged. */
  lemma EventPartsOfFields(d: string, from: string, to: string)
    requires IsField(d) && IsField(from) && IsField(to) && from != to
    ensures EventParts(Trim(d), Trim(from), Trim(to)) == Ok(TaskValue(Event(from, to), d, false))
  {
    TrimOfTrimmed(d);
    TrimOfTrimmed(from);
    TrimOfTrimmed(to);
    NewEventOfFields(d, from, to);
  }

  lemma EventCommandText(s: string, d: string, from: string, to: string)
    requires s == d + FromMarker + from + ToMarker + to
    requires IsField(d) && IsField(to)
    ensures Trim(" " + d + FromMarker + from + ToMarker + to) == s
  {
    assert " " + d + FromMarker + from + ToMarker + to == " " + s;
    assert s[0] == d[0] && s[|s| - 1] == to[|to| - 1];
    TrimPadded(s);
  }

  /** The text of an event command, once trimmed, is cut back into its three
      pieces. */
  lemma ParseEventText(d: string, from: string, to: string)
    requires IsField(d) && IsField(to) && NoSlash(d) && NoSlash(from)
    ensures ParseEvent(Trim(" " + d + FromMarker + from + ToMarker + to)) == EventParts(Trim(d), Trim(from), Trim(to))
    ensures ParseEventCorrected(Trim(" " + d + FromMarker + from + ToMarker + to)) == EventParts(Trim(d), Trim(from), Trim(to))
  {
    var s := d + FromMarker + from + ToMarker + to;
    EventCommandText(s, d, from, to);
    EventFacts(s, d, from, to);
    ParseEventOfFacts(s, d, from, to);
  }

  lemma ParseEventCommand(d: string, from: string, to: string)
    requires IsField(d) && IsField(from) && IsField(to) && from != to
    requires NoSlash(d) && NoSlash(from)
    ensures ParseEvent(Trim(" " + d + FromMarker + from + ToMarker + to)) == Ok(TaskValue(Event(from, to), d, false))
    ensures ParseEventCorrected(Trim(" " + d + FromMarker + from + ToMarker + to)) == Ok(TaskValue(Event(from, to), d, false))
  {
    ParseEventText(d, from, to);
    EventPartsOfFields(d, from, to);
  }

  lemma TodoCommand(d: string)
    requires IsField(d) && NoSlash(d)
    ensures ParseTodoCorrected(" " + d) == Ok(TaskValue(Todo, d, false))
  {
    TrimPadded(d);
    NotContainsChar(d, "/by", '/', 0);
    NotContainsChar(d, "/from", '/', 0);
    NotContainsChar(d, "/to", '/', 0);
  }

  /** Which keyword a line starting "deadline ", "event " or "todo " has. */
  lemma KeywordOf(line: string, key: string, x: string)
    requires key in ["deadline", "event", "todo"] && line == key + " " + x
    ensures StartsWith(line, "deadline") <==> key == "deadline"
    ensures StartsWith(line, "event") <==> key == "event"
    ensures StartsWith(line, "todo") <==> key == "todo"
    ensures line[|key|..] == " " + x
  {
    assert line[0] == key[0];
    assert line[..|key|] == key;
    if key != "deadline" {
      assert "deadline"[0] != key[0];
    }
    if key != "event" {
      assert "event"[0] != key[0];
    }
    if key != "todo" {
      assert "todo"[0] != key[0];
    }
  }

  /** A line "deadline ..." takes the deadline branch. */
  lemma DeadlineLine(line: string, x: string)
    requires line == "deadline " + x
    ensures ParseAdd(line) == ParseDeadline(Trim(" " + x))
    ensures ParseAddAsWritten(line) == ParseDeadline(Trim(" " + x))
  {
    KeywordOf(line, "deadline", x);
  }

  /** A line "event ..." takes the event branch. */
  lemma EventLine(line: string, x: string)
    requires line == "event " + x
    ensures ParseAdd(line) == ParseEventCorrected(Trim(" " + x))
    ensures ParseAddAsWritten(line) == ParseEvent(Trim(" " + x))
  {
    KeywordOf(line, "event", x);
  }

  /** A line "todo ..." takes the todo branch. */
  lemma TodoLine(line: string, x: string)
    requires line == "todo " + x
    ensures ParseAdd(line) == ParseTodoCorrected(" " + x)
    ensures ParseAddAsWritten(line) == ParseTodo(" " + x)
  {
    KeywordOf(line, "todo", x);
  }

  /** The todo command: accepted by the corrected parse, refused as written. */
  lemma TodoLineOf(d: string)
    requires IsField(d) && NoSlash(d)
    ensures ParseAdd("todo " + d) == Ok(TaskValue(Todo, d, false))
    ensures ParseAddAsWritten("todo " + d) == Err(InvalidCommand(TodoFormat))
  {
    TodoLine("todo " + d, d);
    TodoCommand(d);
    TodoAlwaysRejected(" " + d);
    assert !IsTrimSpace((" " + d)[1]);
  }

  /** The deadline command parses back to its task. */
  lemma DeadlineLineOf(d: string, due: string)
    requires IsField(d) && IsField(due) && NoSlash(d)
    ensures ParseAdd("deadline " + d + ByMarker + due) == Ok(TaskValue(Deadline(due), d, false))
    ensures ParseAddAsWritten("deadline " + d + ByMarker + due) == Ok(TaskValue(Deadline(due), d, false))
  {
    var x := d + ByMarker + due;
    assert "deadline " + d + ByMarker + due == "deadline " + x;
    assert " " + x == " " + d + ByMarker + due;
    DeadlineLine("deadline " + x, x);
    ParseDeadlineCommand(d, due);
  }

  /** The event command parses back to its task. */
  lemma EventLineOf(d: string, from: string, to: string)
    requires IsField(d) && IsField(from) && IsField(to) && from != to
    requires NoSlash(d) && NoSlash(from)
    ensures ParseAdd("event " + d + FromMarker + from + ToMarker + to) == Ok(TaskValue(Event(from, to), d, false))
    ensures ParseAddAsWritten("event " + d + FromMarker + from + ToMarker + to) == Ok(TaskValue(Event(from, to), d, false))
  {
    var x := d + FromMarker + from + ToMarker + to;
    assert "event " + d + FromMarker + from + ToMarker + to == "event " + x;
    assert " " + x == " " + d + FromMarker + from + ToMarker + to;
    EventLine("event " + x, x);
    ParseEventCommand(d, from, to);
  }

  /** Round trip: the command for a new task without '/' in its fields parses
      back to that task. As written, the same holds for deadlines and events,
      and a todo command is refused. */
  lemma ParseCommandOf(v: TaskValue)
    requires ValidValue(v) && !v.done && NoSlashFields(v)
    ensures ParseAdd(CommandOf(v)) == Ok(v)
    ensures !v.kind.Todo? ==> ParseAddAsWritten(CommandOf(v)) == Ok(v)
    ensures v.kind.Todo? ==> ParseAddAsWritten(CommandOf(v)) == Err(InvalidCommand(TodoFormat))
  {
    match v.kind
    case Todo => TodoLineOf(v.description);
    case Deadline(due) => DeadlineLineOf(v.description, due);
    case Event(from, to) => EventLineOf(v.description, from, to);
  }

  /** Pieces whose start and end are equal reach the constructor, which
      refuses them. */
  lemma EventPartsSame(d: string, x: string)
    requires IsField(d) && IsField(x)
    ensures EventParts(Trim(d), Trim(x), Trim(x)) == Err(IllegalArgument(FromToMustDiffer))
  {
    TrimOfTrimmed(d);
    TrimOfTrimmed(x);
    assert !IsBlank(d) && !IsBlank(x) by {
      assert !IsTrimSpace(d[0]) && !IsTrimSpace(x[0]);
    }
  }

  /** An event command whose start and end are the same text is refused by
      the Event constructor. */
  lemma EventSameEnds(d: string, x: string)
    requires IsField(d) && IsField(x) && NoSlash(d) && NoSlash(x)
    ensures ParseAddAsWritten("event " + d + FromMarker + x + ToMarker + x) == Err(IllegalArgument(FromToMustDiffer))
    ensures ParseAdd("event " + d + FromMarker + x + ToMarker + x) == Err(IllegalArgument(FromToMustDiffer))
  {
    var s := d + FromMarker + x + ToMarker + x;
    assert "event " + d + FromMarker + x + ToMarker + x == "event " + s;
    assert " " + s == " " + d + FromMarker + x + ToMarker + x;
    EventLine("event " + s, s);
    ParseEventText(d, x, x);
    EventPartsSame(d, x);
  }

  /** "deadline submit report /by friday" adds the deadline "submit report"
      due "friday". */
  lemma DeadlineExample()
    ensures ParseAdd("deadline submit report /by friday") == Ok(TaskValue(Deadline("friday"), "submit report", false))
    ensures ParseAddAsWritten("deadline submit report /by friday") == Ok(TaskValue(Deadline("friday"), "submit report", false))
  {
    assert "deadline submit report /by friday" == "deadline " + "submit report" + ByMarker + "friday";
    DeadlineLineOf("submit report", "friday");
  }

  /** "event trip /from mon /to mon" is refused: start and end must differ. */
  lemma EventSameEndsExample()
    ensures ParseAddAsWritten("event trip /from mon /to mon") == Err(IllegalArgument(FromToMustDiffer))
    ensures ParseAdd("event trip /from mon /to mon") == Err(IllegalArgument(FromToMustDiffer))
  {
    assert "event trip /from mon /to mon" == "event " + "trip" + FromMarker + "mon" + ToMarker + "mon";
    EventSameEnds("trip", "mon");
  }

  // ---- the two discrepancies, on concrete commands ----------------------------

  /** "todo read book" is refused as written and accepted once corrected. */
  lemma TodoFinding()
    ensures ParseAddAsWritten("todo read book") == Err(InvalidCommand(TodoFormat))
    ensures ParseAdd("todo read book") == Ok(TaskValue(Todo, "read book", false))
  {
    var v := TaskValue(Todo, "read book", false);
    assert CommandOf(v) == "todo read book";
    ParseCommandOf(v);
  }

  /** Where the markers sit when " /to " starts on the last character of
      " /from ". */
  lemma OverlapMarkers(s: string, d: string, rest: string)
    requires s == d + FromMarker + "/to " + rest && NoSlash(d)
    ensures IndexOf(s, FromMarker) == |d| && IndexOf(s, ToMarker) == |d| + 6
  {
    FirstMarkerAfter(d, FromMarker, "/to " + rest);
    assert s == d + FromMarker + ("/to " + rest);
    assert s[|d| + 6..|d| + 11] == ToMarker;
    forall j | 0 <= j < |d| + 6
      ensures !OccursAt(s, ToMarker, j)
    {
      if j == |d| {
        assert s[j..j + 5][2] == s[j + 2] == 'f';
      } else {
        assert s[j + 1] != '/' by {
          if j + 1 < |d| {
            assert s[j + 1] == d[j + 1];
          } else {
            assert s[j + 1] == FromMarker[j + 1 - |d|];
          }
        }
        assert s[j..j + 5][1] == s[j + 1];
      }
    }
    IndexOfIs(s, ToMarker, |d| + 6);
  }

  /** Overlapping markers: as written the middle substring raises a string
      index error; corrected, the empty start is refused. */
  lemma EventOverlap(d: string, rest: string)
    requires NoSlash(d)
    ensures ParseEvent(d + FromMarker + "/to " + rest) == Err(StringIndexOutOfBounds)
    ensures ParseEventCorrected(d + FromMarker + "/to " + rest) == Err(InvalidCommand(EventPartsEmpty))
  {
    var s := d + FromMarker + "/to " + rest;
    OverlapMarkers(s, d, rest);
    ParseEventAt(s, |d|, |d| + 6);
  }

  /** Any event line whose " /to " starts on the last character of " /from "
      is refused: as written with a string index error, corrected with the
      parts-empty message. */
  lemma OverlapLine(line: string, d: string, t: string)
    requires line == "event " + d + FromMarker + "/to " + t
    requires IsField(d) && IsField(t) && NoSlash(d)
    ensures ParseAddAsWritten(line) == Err(StringIndexOutOfBounds)
    ensures ParseAdd(line) == Err(InvalidCommand(EventPartsEmpty))
  {
    var s := d + FromMarker + "/to " + t;
    assert line == "event " + s;
    EventLine(line, s);
    assert s[0] == d[0] && s[|s| - 1] == t[|t| - 1];
    TrimPadded(s);
    EventOverlap(d, t);
  }

  /** In "event x /from /to y" the " /to " marker starts on the last character
      of " /from ": as written substring raises a string index error; corrected,
      the empty start is refused with the parts-empty message. */
  lemma EventOverlapFinding()
    ensures ParseAddAsWritten("event x /from /to y") == Err(StringIndexOutOfBounds)
    ensures ParseAdd("event x /from /to y") == Err(InvalidCommand(EventPartsEmpty))
  {
    assert "event x /from /to y" == "event " + "x" + FromMarker + "/to " + "y";
    OverlapLine("event x /from /to y", "x", "y");
  }
}
