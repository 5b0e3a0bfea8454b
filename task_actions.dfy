/** TaskActions: the in-memory task list of one session, the one-time load
    from storage, the add, delete, mark and unmark commands with their autosave,
    and the list and find queries. Console output is left out; listTasks
    returns the lines it would print. */
module Logic {
  import opened Errors
  import opened JavaStrings
  import opened Model
  import opened Persistence
  import opened Parser

  /** findTask's test: the lower-cased description contains the lower-cased
      keyword. */
  predicate Matches(description: string, keyword: string) {
    Contains(ToLower(description), ToLower(keyword))
  }

  /** A description matches exactly when the lower-cased keyword occurs
      somewhere in it, lower-cased. */
  lemma MatchesIff(description: string, keyword: string)
    ensures Matches(description, keyword) <==> exists j :: OccursAt(ToLower(description), ToLower(keyword), j)
  {
    ContainsIff(ToLower(description), ToLower(keyword));
  }

  /** findTask's keyword after its null check and trim: a missing keyword
      counts as empty. */
  function SearchKey(keyword: Option<string>): (k: string)
    ensures IsTrimmed(k)
    ensures keyword.None? ==> k == []
    ensures keyword.Some? ==> (k == [] <==> IsBlank(keyword.value)) && |k| <= |keyword.value|
  {
    if keyword.None? then "" else Trim(keyword.value)
  }

  /** The descriptions of a list of task objects, in order. */
  function Descriptions(ts: seq<Task>): (ds: seq<string>)
    ensures |ds| == |ts|
    ensures forall i :: 0 <= i < |ts| ==> ds[i] == ts[i].description
  {
    seq(|ts|, i requires 0 <= i < |ts| => ts[i].description)
  }

  /** The numbers (1-based, ascending) of the descriptions that match the
      keyword: what findTask reports. */
  function MatchNumbers(ds: seq<string>, keyword: string): seq<nat>
    decreases |ds|
  {
    if ds == [] then []
    else
      var n := |ds|;
      MatchNumbers(ds[..n - 1], keyword) + (if Matches(ds[n - 1], keyword) then [n] else [])
  }

  /** The reported numbers ascend strictly and are numbers of tasks. */
  lemma {:induction false} MatchNumbersAscend(ds: seq<string>, keyword: string)
    ensures forall j :: 0 <= j < |MatchNumbers(ds, keyword)| ==> 1 <= MatchNumbers(ds, keyword)[j] <= |ds|
    ensures forall j, l :: 0 <= j < l < |MatchNumbers(ds, keyword)| ==> MatchNumbers(ds, keyword)[j] < MatchNumbers(ds, keyword)[l]
    decreases |ds|
  {
    if ds != [] {
      MatchNumbersAscend(ds[..|ds| - 1], keyword);
    }
  }

  /** Number i+1 is reported exactly when description i matches. */
  lemma {:induction false} MatchNumbersExact(ds: seq<string>, keyword: string)
    ensures forall i :: 0 <= i < |ds| ==> (i + 1 in MatchNumbers(ds, keyword) <==> Matches(ds[i], keyword))
    decreases |ds|
  {
    if ds != [] {
      var n := |ds|;
      var p := ds[..n - 1];
      MatchNumbersExact(p, keyword);
      MatchNumbersAscend(p, keyword);
      var a := MatchNumbers(p, keyword);
      assert n !in a;
      forall i | 0 <= i < n - 1
        ensures (i + 1 in MatchNumbers(ds, keyword) <==> Matches(ds[i], keyword))
      {
        assert p[i] == ds[i];
      }
    }
  }

  /** The list after removing task number n (1-based): the tasks before it
      stay where they were and the ones after it move up by one. */
  function Removed(vs: seq<TaskValue>, n: int): (r: seq<TaskValue>)
    requires 1 <= n <= |vs|
    ensures |r| == |vs| - 1
    ensures forall i :: 0 <= i < n - 1 ==> r[i] == vs[i]
    ensures forall i :: n - 1 <= i < |r| ==> r[i] == vs[i + 1]
    ensures multiset(r) + multiset{vs[n - 1]} == multiset(vs)
  {
    assert vs == vs[..n - 1] + [vs[n - 1]] + vs[n..];
    vs[..n - 1] + vs[n..]
  }

  /** The list after setting the flag of task number n (1-based): that task
      keeps its variant and fields, every other task is untouched. */
  function WithFlag(vs: seq<TaskValue>, n: int, done: bool): (r: seq<TaskValue>)
    requires 1 <= n <= |vs|
    ensures |r| == |vs|
    ensures r[n - 1].kind == vs[n - 1].kind && r[n - 1].description == vs[n - 1].description
    ensures r[n - 1].done == done
    ensures forall i :: 0 <= i < |vs| && i != n - 1 ==> r[i] == vs[i]
  {
    vs[n - 1 := vs[n - 1].(done := done)]
  }

  /** markDone followed by markUndone on the same task, not done before, gives
      the list back; the first step is the transition MarkDoneSpec allows. */
  lemma MarkThenUnmark(vs: seq<TaskValue>, n: int)
    requires 1 <= n <= |vs| && !vs[n - 1].done
    ensures MarkDoneSpec(vs[n - 1]) == Ok(WithFlag(vs, n, true)[n - 1])
    ensures MarkUndoneSpec(WithFlag(vs, n, true)[n - 1]) == Ok(vs[n - 1])
    ensures WithFlag(WithFlag(vs, n, true), n, false) == vs
  {
    DoneThenUndoneRestores(vs[n - 1]);
    var w := WithFlag(WithFlag(vs, n, true), n, false);
    assert forall i :: 0 <= i < |vs| ==> w[i] == vs[i];
  }

  /** Removing a task leaves the other tasks in their order: what is left,
      read past position n-1, is what was there before. */
  lemma RemovedKeepsOrder(vs: seq<TaskValue>, n: int)
    requires 1 <= n <= |vs|
    ensures Removed(vs, n)[..n - 1] + [vs[n - 1]] + Removed(vs, n)[n - 1..] == vs
  {
    var r := Removed(vs, n);
    assert r[..n - 1] == vs[..n - 1];
    assert r[n - 1..] == vs[n..];
    assert vs == vs[..n - 1] + [vs[n - 1]] + vs[n..];
  }

  /** The keyword "book" matches "read a book" but not "cook dinner", and the
      match ignores case. */
  lemma MatchExample()
    ensures Matches("read a book", "book")
    ensures Matches("Read A BOOK", "Book")
    ensures !Matches("cook dinner", "book")
  {
    assert ToLower("read a book") == "read a book";
    assert ToLower("Read A BOOK") == "read a book";
    assert ToLower("book") == "book" && ToLower("Book") == "book";
    assert ToLower("cook dinner") == "cook dinner";
    assert OccursAt("read a book", "book", 7);
    NotContainsChar("cook dinner", "book", 'b', 0);
  }

  const EmptyListMessage: string := "You have no tasks in your list."
  const ListHeader: string := "Here are the tasks in your list, \"X\" means it is marked done: "

  /** One numbered line of the listing: a tab, the number, ". " and the text. */
  function ListLine(number: nat, text: string): string {
    "\t" + Decimal(number) + ". " + text
  }

  /** The task operations of one session. The list is owned by this object;
      storage stands for the tasks file. */
  class TaskActions {
    var tasks: seq<Task>
    var loaded: bool
    const storage: Storage
    const lineSep: string

    /** Every task in the list was built by a validating constructor. */
    predicate Valid()
      reads this, tasks
    {
      forall t :: t in tasks ==> t.Valid()
    }

    /** The snapshots of the tasks in list order. */
    function Contents(): seq<TaskValue>
      reads this, tasks
    {
      Values(tasks)
    }

    /** Valid tasks have valid snapshots. */
    lemma ContentsValid()
      requires Valid()
      ensures forall i :: 0 <= i < |Contents()| ==> ValidValue(Contents()[i])
    {
      forall i | 0 <= i < |Contents()|
        ensures ValidValue(Contents()[i])
      {
        assert tasks[i] in tasks;
      }
    }

    constructor (tasks: seq<Task>, storage: Storage, lineSep: string)
      requires forall t :: t in tasks ==> t.Valid()
      ensures Valid() && !loaded
      ensures this.tasks == tasks && this.storage == storage && this.lineSep == lineSep
    {
      this.tasks := tasks;
      this.storage := storage;
      this.lineSep := lineSep;
      loaded := false;
    }

    /** loadFromFile: the first call clears the list and fills it from
        storage; when the load throws, the list stays empty and the next call
        tries again. Later calls change nothing. */
    method LoadFromFile() returns (r: Outcome)
      requires Valid()
      modifies this
      ensures Valid()
      ensures old(loaded) ==> r == Pass && loaded && tasks == old(tasks)
      ensures !old(loaded) ==>
        match LoadSpec(storage.file)
        case Ok(vs) => r == Pass && loaded && Contents() == vs && Distinct(tasks)
        case Err(e) => r == Fail(e) && !loaded && tasks == []
    {
      if !loaded {
        tasks := [];
        var read := storage.Load();
        if read.Err? {
          return Fail(read.error);
        }
        tasks := read.value;
        loaded := true;
      }
      return Pass;
    }

    /** saveToFile: the file now holds one line per task, in list order. */
    method SaveToFile()
      modifies storage
      ensures storage.file == Some(EncodeAll(Contents()))
    {
      storage.Save(tasks);
    }

    /** Once saved, the file loads back as the list, when no field holds '|' or a line terminator. */
    lemma SavedListLoads()
      requires Valid() && storage.file == Some(EncodeAll(Contents()))
      requires forall i :: 0 <= i < |Contents()| ==> StorableFields(Contents()[i])
      ensures LoadSpec(storage.file) == Ok(Contents())
    {
      ContentsValid();
      LoadEncodeAll(Contents());
    }

    /** listTasks: the lines it prints. An empty list gives the empty-list
        message; otherwise the header, one numbered line per task in order
        and the separator. */
    method ListTasks() returns (lines: seq<string>)
      ensures tasks == [] ==> lines == [EmptyListMessage, lineSep]
      ensures tasks != [] ==>
        && |lines| == |tasks| + 2
        && lines[0] == ListHeader
        && lines[|tasks| + 1] == lineSep
        && forall i :: 0 <= i < |tasks| ==> lines[i + 1] == ListLine(i + 1, tasks[i].ToString())
    {
      if tasks == [] {
        return [EmptyListMessage, lineSep];
      }
      lines := [ListHeader];
      for i := 0 to |tasks|
        invariant |lines| == i + 1 && lines[0] == ListHeader
        invariant forall k :: 0 <= k < i ==> lines[k + 1] == ListLine(k + 1, tasks[k].ToString())
      {
        lines := lines + [ListLine(i + 1, tasks[i].ToString())];
      }
      lines := lines + [lineSep];
    }

    /** addTask: on a line the parser accepts, one new task is appended and
        the list saved; otherwise the parser's error with nothing changed. */
    method AddTask(line: string) returns (r: Outcome)
      requires Valid()
      modifies this, storage
      ensures Valid() && loaded == old(loaded)
      ensures old(Distinct(tasks)) ==> Distinct(tasks)
      ensures match ParseAddAsWritten(line)
        case Ok(v) =>
          && r == Pass
          && |tasks| == |old(tasks)| + 1 && tasks[..|old(tasks)|] == old(tasks)
          && fresh(tasks[|old(tasks)|])
          && Contents() == old(Contents()) + [v]
          && storage.file == Some(EncodeAll(Contents()))
        case Err(e) => r == Fail(e) && tasks == old(tasks) && storage.file == old(storage.file)
    {
      var parsed := ParseAddAsWritten(line);
      r := Commit(parsed);
    }

    /** addTask with both branches of its parse corrected: a todo command is
        accepted, and an event whose markers overlap is refused with the
        parts-empty error instead of an index error. */
    method AddTaskCorrected(line: string) returns (r: Outcome)
      requires Valid()
      modifies this, storage
      ensures Valid() && loaded == old(loaded)
      ensures old(Distinct(tasks)) ==> Distinct(tasks)
      ensures match ParseAdd(line)
        case Ok(v) =>
          && r == Pass
          && |tasks| == |old(tasks)| + 1 && tasks[..|old(tasks)|] == old(tasks)
          && fresh(tasks[|old(tasks)|])
          && Contents() == old(Contents()) + [v]
          && storage.file == Some(EncodeAll(Contents()))
        case Err(e) => r == Fail(e) && tasks == old(tasks) && storage.file == old(storage.file)
    {
      var parsed := ParseAdd(line);
      r := Commit(parsed);
    }

    /** What addTask does with the parse: raise its error, or append the new
        task, then save. */
    method Commit(parsed: Result<TaskValue>) returns (r: Outcome)
      requires Valid()
      requires parsed.Ok? ==> ValidValue(parsed.value) && !parsed.value.done
      modifies this, storage
      ensures Valid() && loaded == old(loaded)
      ensures old(Distinct(tasks)) ==> Distinct(tasks)
      ensures match parsed
        case Ok(v) =>
          && r == Pass
          && |tasks| == |old(tasks)| + 1 && tasks[..|old(tasks)|] == old(tasks)
          && fresh(tasks[|old(tasks)|])
          && Contents() == old(Contents()) + [v]
          && storage.file == Some(EncodeAll(Contents()))
        case Err(e) => r == Fail(e) && tasks == old(tasks) && storage.file == old(storage.file)
    {
      if parsed.Err? {
        return Fail(parsed.error);
      }
      var t := new Task(parsed.value.kind, parsed.value.description);
      ghost var before := Values(tasks);
      tasks := tasks + [t];
      ghost var after := Values(tasks);
      assert after == before + [parsed.value];
      SaveToFile();
      assert Contents() == after;
      return Pass;
    }

    /** deleteTask(n): a number outside 1..size raises the index error with
        nothing changed; otherwise task n-1 is removed and the list saved. */
    method DeleteTask(n: int) returns (r: Outcome)
      requires Valid()
      modifies this, storage
      ensures Valid() && loaded == old(loaded)
      ensures old(Distinct(tasks)) ==> Distinct(tasks)
      ensures if 1 <= n <= |old(tasks)| then
                && r == Pass
                && tasks == old(tasks[..n - 1] + tasks[n..])
                && Contents() == Removed(old(Contents()), n)
                && storage.file == Some(EncodeAll(Contents()))
              else
                && r == Fail(TaskIndexOutOfBounds(n, |old(tasks)|))
                && tasks == old(tasks) && storage.file == old(storage.file)
    {
      if n < 1 || n > |tasks| {
        return Fail(TaskIndexOutOfBounds(n, |tasks|));
      }
      ghost var before := Values(tasks);
      tasks := tasks[..n - 1] + tasks[n..];
      assert Values(tasks) == Removed(before, n);
      SaveToFile();
      return Pass;
    }

    /** markDone(n): bounds-checked like deleteTask; then the task at n-1 is
        marked done. Only that task object changes, and only its flag. A task
        already done raises the state error and nothing is saved. */
    method MarkDone(n: int) returns (r: Outcome)
      requires Valid()
      modifies tasks, storage
      ensures Valid()
      ensures !(1 <= n <= |tasks|) ==>
        r == Fail(TaskIndexOutOfBounds(n, |tasks|)) && Contents() == old(Contents()) && storage.file == old(storage.file)
      ensures 1 <= n <= |tasks| ==>
        && r == (if old(tasks[n - 1].done) then Fail(IllegalState(true)) else Pass)
        && (forall i :: 0 <= i < |tasks| ==>
              Contents()[i] == if tasks[i] == tasks[n - 1] then old(Contents()[i]).(done := true) else old(Contents()[i]))
        && (r.Pass? ==> storage.file == Some(EncodeAll(Contents())))
        && (r.Fail? ==> storage.file == old(storage.file))
      ensures 1 <= n <= |tasks| && Distinct(tasks) ==> Contents() == WithFlag(old(Contents()), n, true)
    {
      if n < 1 || n > |tasks| {
        return Fail(TaskIndexOutOfBounds(n, |tasks|));
      }
      var t := tasks[n - 1];
      r := t.MarkTaskAsDone();
      if r.Fail? {
        Untouched(n);
        return;
      }
      SaveToFile();
      Untouched(n);
    }

    /** markUndone(n): as markDone, clearing the flag; a task not done raises
        the state error and nothing is saved. */
    method MarkUndone(n: int) returns (r: Outcome)
      requires Valid()
      modifies tasks, storage
      ensures Valid()
      ensures !(1 <= n <= |tasks|) ==>
        r == Fail(TaskIndexOutOfBounds(n, |tasks|)) && Contents() == old(Contents()) && storage.file == old(storage.file)
      ensures 1 <= n <= |tasks| ==>
        && r == (if !old(tasks[n - 1].done) then Fail(IllegalState(false)) else Pass)
        && (forall i :: 0 <= i < |tasks| ==>
              Contents()[i] == if tasks[i] == tasks[n - 1] then old(Contents()[i]).(done := false) else old(Contents()[i]))
        && (r.Pass? ==> storage.file == Some(EncodeAll(Contents())))
        && (r.Fail? ==> storage.file == old(storage.file))
      ensures 1 <= n <= |tasks| && Distinct(tasks) ==> Contents() == WithFlag(old(Contents()), n, false)
    {
      if n < 1 || n > |tasks| {
        return Fail(TaskIndexOutOfBounds(n, |tasks|));
      }
      var t := tasks[n - 1];
      r := t.MarkTaskAsUndone();
      if r.Fail? {
        Untouched(n);
        return;
      }
      SaveToFile();
      Untouched(n);
    }

    /** After a change to task object n-1 alone, every other object keeps its
        snapshot, and with distinct objects the list is WithFlag of the old
        one. */
    twostate lemma Untouched(n: int)
      requires 1 <= n <= |tasks| && tasks == old(tasks)
      requires forall t :: t in tasks && t != tasks[n - 1] ==> unchanged(t)
      requires tasks[n - 1].kind == old(tasks[n - 1].kind) && tasks[n - 1].description == old(tasks[n - 1].description)
      ensures forall i :: 0 <= i < |tasks| ==>
        Contents()[i] == if tasks[i] == tasks[n - 1] then old(Contents()[i]).(done := tasks[n - 1].done) else old(Contents()[i])
      ensures Distinct(tasks) ==> Contents() == WithFlag(old(Contents()), n, tasks[n - 1].done)
    {
      forall i | 0 <= i < |tasks| && tasks[i] != tasks[n - 1]
        ensures Contents()[i] == old(Contents()[i])
      {
        assert tasks[i] in tasks;
      }
      if Distinct(tasks) {
        assert forall i :: 0 <= i < |tasks| ==> Contents()[i] == WithFlag(old(Contents()), n, tasks[n - 1].done)[i];
      }
    }

    /** findTask: the keyword, trimmed, must be one run of non-whitespace;
        the result is the numbers i+1, in ascending order, of exactly the
        tasks whose description matches it. Nothing changes. */
    method FindTask(keyword: Option<string>) returns (r: Result<seq<nat>>)
      ensures r.Err? <==> !IsToken(SearchKey(keyword))
      ensures r.Err? ==> r.error == InvalidCommand(KeywordNotSingleWord)
      ensures r.Ok? ==> r.value == MatchNumbers(Descriptions(tasks), SearchKey(keyword))
      ensures r.Ok? ==>
        && (forall j, l :: 0 <= j < l < |r.value| ==> r.value[j] < r.value[l])
        && (forall m :: m in r.value ==> 1 <= m <= |tasks|)
        && (forall i :: 0 <= i < |tasks| ==> (i + 1 in r.value <==> Matches(tasks[i].description, SearchKey(keyword))))
    {
      var key := SearchKey(keyword);
      if !IsToken(key) {
        return Err(InvalidCommand(KeywordNotSingleWord));
      }
      ghost var ds := Descriptions(tasks);
      var found: seq<nat> := [];
      for i := 0 to |tasks|
        invariant found == MatchNumbers(ds[..i], key)
      {
        assert ds[..i + 1][..i] == ds[..i];
        if Matches(tasks[i].description, key) {
          found := found + [i + 1];
        }
      }
      assert ds[..|tasks|] == ds;
      MatchNumbersAscend(ds, key);
      MatchNumbersExact(ds, key);
      return Ok(found);
    }
  }
}
