/** The task domain: the base class Task (description, completion flag, strict
    done/undone transitions, the checkbox rendering) and its three variants
    Todo, Deadline and Event (their validated extra fields and renderings).

    The variants are one closed sum type, Kind. A task object is the class Task,
    whose only mutable field is done; its description and its Kind are
    constants, fixed when the constructor runs, as the Java fields are final.
    The model validates before it allocates: NewTodo, NewDeadline and NewEvent
    do the validation and return the value of the new task, and the
    constructor of Task allocates an object holding it. In Java the object is
    allocated first and discarded when validation throws. */
module Model {
  import opened Errors
  import opened JavaStrings

  datatype Kind =
    | Todo
    | Deadline(due: string)  // the field `by` of Deadline.java
    | Event(from: string, to: string)

  /** A snapshot of one task: what is stored, rendered and compared. */
  datatype TaskValue = TaskValue(kind: Kind, description: string, done: bool)

  /** What requireNonBlank returns on success: not empty and already trimmed. */
  predicate IsField(s: string) {
    s != [] && IsTrimmed(s)
  }

  /** The invariant every constructed task keeps. */
  predicate WellFormed(kind: Kind, description: string) {
    && IsField(description)
    && match kind
       case Todo => true
       case Deadline(due) => IsField(due)
       case Event(from, to) => IsField(from) && IsField(to) && from != to
  }

  predicate ValidValue(v: TaskValue) {
    WellFormed(v.kind, v.description)
  }

  // ---- Task.java ----------------------------------------------------------

  /** Task.requireNonBlank: null and blank input fail with a message naming the
      field; anything else comes back trimmed, and is then a non-empty field. */
  function RequireNonBlank(s: Option<string>, field: string): (r: Result<string>)
    ensures r.Ok? <==> s.Some? && !IsBlank(s.value)
    ensures s.None? ==> r == Err(IllegalArgument(MustNotBeNull(field)))
    ensures s.Some? && IsBlank(s.value) ==> r == Err(IllegalArgument(MustNotBeEmpty(field)))
    ensures r.Ok? ==> r.value == Trim(s.value) && IsField(r.value)
  {
    if s.None? then Err(IllegalArgument(MustNotBeNull(field)))
    else
      var t := Trim(s.value);
      if t == [] then Err(IllegalArgument(MustNotBeEmpty(field))) else Ok(t)
  }

  /** Task.markTaskAsDone on a value: strict, a done task refuses. */
  function MarkDoneSpec(v: TaskValue): (r: Result<TaskValue>)
    ensures r.Ok? <==> !v.done
    ensures r.Err? ==> r.error == IllegalState(true)
    ensures r.Ok? ==> r.value.done && r.value.kind == v.kind && r.value.description == v.description
  {
    if v.done then Err(IllegalState(true)) else Ok(v.(done := true))
  }

  /** Task.markTaskAsUndone on a value: strict, a task not done refuses. */
  function MarkUndoneSpec(v: TaskValue): (r: Result<TaskValue>)
    ensures r.Ok? <==> v.done
    ensures r.Err? ==> r.error == IllegalState(false)
    ensures r.Ok? ==> !r.value.done && r.value.kind == v.kind && r.value.description == v.description
  {
    if !v.done then Err(IllegalState(false)) else Ok(v.(done := false))
  }

  /** Marking done twice fails the second time; so does marking undone twice. */
  lemma MarkTwiceFails(v: TaskValue)
    ensures MarkDoneSpec(v).Ok? ==> MarkDoneSpec(MarkDoneSpec(v).value) == Err(IllegalState(true))
    ensures MarkUndoneSpec(v).Ok? ==> MarkUndoneSpec(MarkUndoneSpec(v).value) == Err(IllegalState(false))
  {
  }

  /** Done followed by undone gives back the task as it was, and a transition
      changes nothing but the flag. */
  lemma DoneThenUndoneRestores(v: TaskValue)
    requires !v.done
    ensures MarkDoneSpec(v).Ok? && MarkUndoneSpec(MarkDoneSpec(v).value) == Ok(v)
    ensures MarkDoneSpec(v).value.kind == v.kind && MarkDoneSpec(v).value.description == v.description
  {
  }

  /** The checkbox of Task.toString. */
  function Checkbox(done: bool): string {
    if done then "[X] " else "[ ] "
  }

  /** Task.toString: the checkbox followed by the description. */
  function RenderBase(v: TaskValue): string {
    Checkbox(v.done) + v.description
  }

  // ---- Todo.java ----------------------------------------------------------

  /** new Todo(description): the base constructor's check and trim. */
  function NewTodo(description: string): (r: Result<TaskValue>)
    ensures r.Ok? <==> !IsBlank(description)
    ensures r.Err? ==> r.error == IllegalArgument(MustNotBeEmpty("description"))
    ensures r.Ok? ==> r.value == TaskValue(Todo, Trim(description), false) && ValidValue(r.value)
  {
    var d :- RequireNonBlank(Some(description), "description");
    Ok(TaskValue(Todo, d, false))
  }

  // ---- Deadline.java ------------------------------------------------------

  /** new Deadline(description, by): the description is checked first, then by. */
  function NewDeadline(description: string, due: string): (r: Result<TaskValue>)
    ensures r.Ok? <==> !IsBlank(description) && !IsBlank(due)
    ensures IsBlank(description) ==> r == Err(IllegalArgument(MustNotBeEmpty("description")))
    ensures !IsBlank(description) && IsBlank(due) ==> r == Err(IllegalArgument(MustNotBeEmpty("deadline (/by)")))
    ensures r.Ok? ==> r.value == TaskValue(Deadline(Trim(due)), Trim(description), false) && ValidValue(r.value)
  {
    var d :- RequireNonBlank(Some(description), "description");
    var b :- RequireNonBlank(Some(due), "deadline (/by)");
    Ok(TaskValue(Deadline(b), d, false))
  }

  // ---- Event.java ---------------------------------------------------------

  /** new Event(description, from, to): description, from and to are checked in
      that order, then the trimmed from and to must differ. */
  function NewEvent(description: string, from: string, to: string): (r: Result<TaskValue>)
    ensures r.Ok? <==> !IsBlank(description) && !IsBlank(from) && !IsBlank(to) && Trim(from) != Trim(to)
    ensures IsBlank(description) ==> r == Err(IllegalArgument(MustNotBeEmpty("description")))
    ensures !IsBlank(description) && IsBlank(from) ==> r == Err(IllegalArgument(MustNotBeEmpty("event (/from)")))
    ensures !IsBlank(description) && !IsBlank(from) && IsBlank(to) ==> r == Err(IllegalArgument(MustNotBeEmpty("event (/to)")))
    ensures !IsBlank(description) && !IsBlank(from) && !IsBlank(to) && Trim(from) == Trim(to) ==> r == Err(IllegalArgument(FromToMustDiffer))
    ensures r.Ok? ==> r.value == TaskValue(Event(Trim(from), Trim(to)), Trim(description), false) && ValidValue(r.value)
  {
    var d :- RequireNonBlank(Some(description), "description");
    var f :- RequireNonBlank(Some(from), "event (/from)");
    var t :- RequireNonBlank(Some(to), "event (/to)");
    if f == t then Err(IllegalArgument(FromToMustDiffer)) else Ok(TaskValue(Event(f, t), d, false))
  }

  /** Constructing from fields that are already trimmed and valid keeps them
      exactly: construction is the identity on what it accepts. */
  lemma NewTodoOfField(description: string)
    requires IsField(description)
    ensures NewTodo(description) == Ok(TaskValue(Todo, description, false))
  {
    TrimOfTrimmed(description);
  }

  lemma NewDeadlineOfFields(description: string, due: string)
    requires IsField(description) && IsField(due)
    ensures NewDeadline(description, due) == Ok(TaskValue(Deadline(due), description, false))
  {
    TrimOfTrimmed(description);
    TrimOfTrimmed(due);
  }

  lemma NewEventOfFields(description: string, from: string, to: string)
    requires IsField(description) && IsField(from) && IsField(to) && from != to
    ensures NewEvent(description, from, to) == Ok(TaskValue(Event(from, to), description, false))
  {
    TrimOfTrimmed(description);
    TrimOfTrimmed(from);
    TrimOfTrimmed(to);
  }

  // ---- toString of the three variants -------------------------------------

  /** Todo.toString, Deadline.toString and Event.toString: after the tag and
      the checkbox (seven characters) come the description and then the
      variant's own fields. */
  function Render(v: TaskValue): (r: string)
    ensures |r| == 7 + |v.description| + |Suffix(v.kind)|
  {
    match v.kind
    case Todo => "[T]" + RenderBase(v)
    case Deadline(due) => "[D]" + RenderBase(v) + " (by: " + due + ")"
    case Event(from, to) => "[E]" + RenderBase(v) + " (from: " + from + " to: " + to + ")"
  }

  /** After a tag of three characters and a checkbox of four come the
      description and the suffix. */
  lemma TailOf(tag: string, box: string, desc: string, suffix: string)
    requires |tag| == 3 && |box| == 4
    ensures |tag + box + (desc + suffix)| >= 7 + |desc|
    ensures (tag + box + (desc + suffix))[7..7 + |desc|] == desc
    ensures (tag + box + (desc + suffix))[7 + |desc|..] == suffix
  {
    var t := tag + box + (desc + suffix);
    assert t[7..] == desc + suffix;
  }

  function Tag(kind: Kind): string {
    match kind
    case Todo => "[T]"
    case Deadline(_) => "[D]"
    case Event(_, _) => "[E]"
  }

  function Suffix(kind: Kind): string {
    match kind
    case Todo => ""
    case Deadline(due) => " (by: " + due + ")"
    case Event(from, to) => " (from: " + from + " to: " + to + ")"
  }

  /** Every rendering is the variant's tag, the checkbox, the description and
      the variant's suffix, in that order. */
  lemma RenderLayout(v: TaskValue)
    ensures Render(v) == Tag(v.kind) + Checkbox(v.done) + (v.description + Suffix(v.kind))
  {
  }

  /** A tag of three characters and a checkbox of four open a rendering. */
  lemma PrefixOf(tag: string, box: string, rest: string)
    requires |tag| == 3 && |box| == 4
    ensures |tag + box + rest| >= 7
    ensures (tag + box + rest)[..3] == tag && (tag + box + rest)[3..7] == box
  {
    assert (tag + box + rest)[..3] == tag;
    assert (tag + box + rest)[3..7] == box;
  }

  /** Two renderings that differ only in their checkbox, whose boxes differ
      only in their second character, differ only at position 4. */
  lemma BoxChange(tag: string, box: string, box2: string, rest: string)
    requires |tag| == 3 && |box| == 4 && |box2| == 4
    requires box[0] == box2[0] && box[2] == box2[2] && box[3] == box2[3]
    ensures |tag + box2 + rest| == |tag + box + rest|
    ensures (tag + box2 + rest)[4] == box2[1]
    ensures forall i :: 0 <= i < |tag + box + rest| && i != 4 ==> (tag + box2 + rest)[i] == (tag + box + rest)[i]
  {
  }

  /** The rendering starts with the variant's tag, then "[X]" when done and
      "[ ]" otherwise. */
  lemma RenderPrefix(v: TaskValue)
    ensures |Render(v)| >= 7
    ensures Render(v)[..3] == Tag(v.kind)
    ensures Render(v)[3..7] == (if v.done then "[X] " else "[ ] ")
  {
    RenderLayout(v);
    PrefixOf(Tag(v.kind), Checkbox(v.done), v.description + Suffix(v.kind));
  }

  /** A transition changes the rendering in the checkbox character (position 4)
      and nowhere else. */
  lemma RenderAfterMark(v: TaskValue, done: bool)
    ensures |Render(v.(done := done))| == |Render(v)|
    ensures Render(v.(done := done))[4] == (if done then 'X' else ' ')
    ensures forall i :: 0 <= i < |Render(v)| && i != 4 ==> Render(v.(done := done))[i] == Render(v)[i]
  {
    var w := v.(done := done);
    RenderLayout(v);
    RenderLayout(w);
    BoxChange(Tag(v.kind), Checkbox(v.done), Checkbox(done), v.description + Suffix(v.kind));
  }

  // ---- the task object -----------------------------------------------------

  /** A task object. The constructor stands for the allocation that follows a
      successful NewTodo, NewDeadline or NewEvent: a new task is not done. */
  class Task {
    const kind: Kind
    const description: string
    var done: bool

    predicate Valid() {
      WellFormed(kind, description)
    }

    constructor (kind: Kind, description: string)
      requires WellFormed(kind, description)
      ensures Valid()
      ensures this.kind == kind && this.description == description && !done
    {
      this.kind := kind;
      this.description := description;
      done := false;
    }

    function Value(): TaskValue
      reads this
    {
      TaskValue(kind, description, done)
    }

    /** toString of whichever variant this task is. */
    function ToString(): (r: string)
      reads this
      ensures |r| >= 7 + |description|
      ensures r[..3] == Tag(kind) && r[3..7] == Checkbox(done)
      ensures r[7..7 + |description|] == description
    {
      RenderPrefix(Value());
      RenderLayout(Value());
      TailOf(Tag(kind), Checkbox(done), description, Suffix(kind));
      Render(Value())
    }

    /** Task.markTaskAsDone: on a task not done sets done; on a done task raises
        the state error and changes nothing. */
    method MarkTaskAsDone() returns (r: Outcome)
      modifies this
      ensures r == (if old(done) then Fail(IllegalState(true)) else Pass)
      ensures done
      ensures match MarkDoneSpec(old(Value()))
              case Ok(w) => r == Pass && Value() == w
              case Err(e) => r == Fail(e) && Value() == old(Value())
    {
      if done {
        return Fail(IllegalState(true));
      }
      done := true;
      return Pass;
    }

    /** Task.markTaskAsUndone: on a done task clears done; on a task not done
        raises the state error and changes nothing. */
    method MarkTaskAsUndone() returns (r: Outcome)
      modifies this
      ensures r == (if !old(done) then Fail(IllegalState(false)) else Pass)
      ensures !done
      ensures match MarkUndoneSpec(old(Value()))
              case Ok(w) => r == Pass && Value() == w
              case Err(e) => r == Fail(e) && Value() == old(Value())
    {
      if !done {
        return Fail(IllegalState(false));
      }
      done := false;
      return Pass;
    }
  }

  /** The snapshots of a list of task objects, position by position. */
  function Values(ts: seq<Task>): (vs: seq<TaskValue>)
    reads ts
    ensures |vs| == |ts|
    ensures forall i :: 0 <= i < |ts| ==> vs[i] == ts[i].Value()
  {
    seq(|ts|, i reads ts requires 0 <= i < |ts| => ts[i].Value())
  }

  /** No task object occurs twice in the list. */
  predicate Distinct(ts: seq<Task>) {
    forall i, j :: 0 <= i < j < |ts| ==> ts[i] != ts[j]
  }
}
