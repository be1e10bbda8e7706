/** The task-list component in `src/components/TaskQueue.tsx`: the status filter that
    decides which tasks are shown, and `addTask`, which appends a trimmed,
    non-blank pending task and clears the name input. The component's state
    cells become the fields of a class; `Date.now()` is a parameter. */
module TaskQueue {
  import opened Wrappers
  import Decimal

  datatype TaskStatus = Pending | InProgress | Completed

  /** A task; the assignee is optional. */
  datatype Task = Task(id: string, name: string, status: TaskStatus, assignee: Option<string>)

  /** The filter selector: every task, or the tasks of one status. */
  datatype Filter = All | Only(status: TaskStatus)

  // ---------------------------------------------------------------------------
  // The filter

  /** The tasks of `tasks` whose status is `status`, in their original order. */
  function WithStatus(tasks: seq<Task>, status: TaskStatus): (r: seq<Task>)
    ensures |r| <= |tasks|
  {
    if tasks == [] then []
    else (if tasks[0].status == status then [tasks[0]] else []) + WithStatus(tasks[1..], status)
  }

  /** The filtered list holds exactly the tasks of the status. */
  lemma {:induction false} WithStatusMembers(tasks: seq<Task>, status: TaskStatus)
    ensures forall t :: t in WithStatus(tasks, status) <==> t in tasks && t.status == status
    decreases |tasks|
  {
    if tasks != [] {
      WithStatusMembers(tasks[1..], status);
      assert tasks == [tasks[0]] + tasks[1..];
    }
  }

  /** The tasks on screen under a filter. */
  function VisibleTasks(tasks: seq<Task>, filter: Filter): (r: seq<Task>)
    ensures filter.All? ==> r == tasks
    ensures filter.Only? ==> forall t :: t in r <==> t in tasks && t.status == filter.status
  {
    match filter
    case All => tasks
    case Only(status) => WithStatusMembers(tasks, status); WithStatus(tasks, status)
  }

  /** `a` is `b` with some elements left out, the rest kept in order. */
  predicate IsSubsequence<T(==)>(a: seq<T>, b: seq<T>)
    decreases |b|
  {
    if a == [] then true
    else if b == [] then false
    else if a[0] == b[0] then IsSubsequence(a[1..], b[1..])
    else IsSubsequence(a, b[1..])
  }

  /** The filtered list keeps the original order. */
  lemma {:induction false} WithStatusIsSubsequence(tasks: seq<Task>, status: TaskStatus)
    ensures IsSubsequence(WithStatus(tasks, status), tasks)
    decreases |tasks|
  {
    if tasks != [] {
      var r, rest := WithStatus(tasks, status), WithStatus(tasks[1..], status);
      WithStatusIsSubsequence(tasks[1..], status);
      WithStatusMembers(tasks[1..], status);
      if tasks[0].status == status {
        assert r == [tasks[0]] + rest;
        assert r[0] == tasks[0] && r[1..] == rest;
      } else {
        assert r == rest;
        if rest != [] {
          assert rest[0] in rest;
          assert rest[0] != tasks[0];
        }
      }
    }
  }

  /** The filtered list keeps every task of the status as often as it occurs. */
  lemma {:induction false} WithStatusCounts(tasks: seq<Task>, status: TaskStatus, t: Task)
    ensures multiset(WithStatus(tasks, status))[t] == if t.status == status then multiset(tasks)[t] else 0
    decreases |tasks|
  {
    if tasks != [] {
      WithStatusCounts(tasks[1..], status, t);
      assert tasks == [tasks[0]] + tasks[1..];
    }
  }

  /** Filtering distributes over concatenation. */
  lemma {:induction false} WithStatusAppend(a: seq<Task>, b: seq<Task>, status: TaskStatus)
    ensures WithStatus(a + b, status) == WithStatus(a, status) + WithStatus(b, status)
    decreases |a|
  {
    if a != [] {
      WithStatusAppend(a[1..], b, status);
      assert (a + b)[0] == a[0] && (a + b)[1..] == a[1..] + b;
      var head := if a[0].status == status then [a[0]] else [];
      assert WithStatus(a + b, status) == head + WithStatus(a[1..] + b, status);
      assert WithStatus(a, status) == head + WithStatus(a[1..], status);
      assert head + (WithStatus(a[1..], status) + WithStatus(b, status))
          == (head + WithStatus(a[1..], status)) + WithStatus(b, status);
    } else {
      assert a + b == b;
    }
  }

  // ---------------------------------------------------------------------------
  // String.prototype.trim

  /** The characters JavaScript's `trim` removes: the WhiteSpace and
      LineTerminator code points of the ECMAScript standard. */
  predicate IsJsWhitespace(c: char) {
    c == '\t' || c == '\n' || c == '\U{000B}' || c == '\U{000C}' || c == '\r'
    || c == ' ' || c == '\U{00A0}' || c == '\U{1680}' || '\U{2000}' <= c <= '\U{200A}'
    || c == '\U{2028}' || c == '\U{2029}' || c == '\U{202F}' || c == '\U{205F}'
    || c == '\U{3000}' || c == '\U{FEFF}'
  }

  predicate AllWhitespace(s: string) {
    forall k :: 0 <= k < |s| ==> IsJsWhitespace(s[k])
  }

  /** The length of the whitespace run that starts `s`. */
  function LeadingWhitespace(s: string): (n: nat)
    ensures n <= |s| && AllWhitespace(s[..n])
    ensures n < |s| ==> !IsJsWhitespace(s[n])
  {
    if s == [] || !IsJsWhitespace(s[0]) then 0
    else
      var n := 1 + LeadingWhitespace(s[1..]);
      assert forall k :: 1 <= k < n ==> s[k] == s[1..][k - 1];
      n
  }

  /** The length of the whitespace run that ends `s`. */
  function TrailingWhitespace(s: string): (n: nat)
    ensures n <= |s| && AllWhitespace(s[|s| - n..])
    ensures n < |s| ==> !IsJsWhitespace(s[|s| - 1 - n])
  {
    if s == [] || !IsJsWhitespace(s[|s| - 1]) then 0
    else
      var n := 1 + TrailingWhitespace(s[..|s| - 1]);
      assert forall k :: |s| - n <= k < |s| - 1 ==> s[k] == s[..|s| - 1][k];
      n
  }

  /** `s` without its leading and trailing whitespace: the slice that starts
      after the leading run, whose ends are not whitespace and beyond which
      only whitespace remains; empty exactly for an all-whitespace string. */
  function Trim(s: string): (r: string)
    ensures var i := LeadingWhitespace(s);
      i + |r| <= |s| && r == s[i..i + |r|] && AllWhitespace(s[i + |r|..])
    ensures r == [] <==> AllWhitespace(s)
    ensures r != [] ==> !IsJsWhitespace(r[0]) && !IsJsWhitespace(r[|r| - 1])
  {
    var i := LeadingWhitespace(s);
    var rest := s[i..];
    var r := rest[..|rest| - TrailingWhitespace(rest)];
    assert r == [] ==> AllWhitespace(s) by {
      if r == [] {
        assert rest[|rest| - TrailingWhitespace(rest)..] == rest;
        assert i == |s|;
        assert s[..i] == s;
      }
    }
    r
  }

  lemma WhitespaceBefore(s: string, upto: nat, k: int)
    requires upto <= |s| && AllWhitespace(s[..upto])
    ensures 0 <= k < upto ==> IsJsWhitespace(s[k])
  {
    if 0 <= k < upto {
      assert s[..upto][k] == s[k];
    }
  }

  lemma WhitespaceFrom(s: string, from: nat, k: int)
    requires from <= |s| && AllWhitespace(s[from..])
    ensures from <= k < |s| ==> IsJsWhitespace(s[k])
  {
    if from <= k < |s| {
      assert s[from..][k - from] == s[k];
    }
  }

  /** When `s[i..j]` is non-empty, neither starts nor ends with whitespace
      and only whitespace lies around it, it is what trimming leaves. */
  lemma TrimSlice(s: string, i: nat, j: nat)
    requires i < j <= |s| && AllWhitespace(s[..i]) && AllWhitespace(s[j..])
    requires !IsJsWhitespace(s[i]) && !IsJsWhitespace(s[j - 1])
    ensures Trim(s) == s[i..j]
  {
    var lead := LeadingWhitespace(s);
    WhitespaceBefore(s, i, lead);
    WhitespaceBefore(s, lead, i);
    assert lead == i;
    var r := Trim(s);
    WhitespaceFrom(s, i + |r|, j - 1);
    assert r != [];
    assert r[|r| - 1] == s[i + |r| - 1];
    WhitespaceFrom(s, j, i + |r| - 1);
    assert i + |r| == j;
  }

  /** Trimming a string made of whitespace, a core that neither starts nor
      ends with whitespace, and whitespace again gives back the core. */
  lemma TrimExact(w1: string, core: string, w2: string)
    requires AllWhitespace(w1) && AllWhitespace(w2)
    requires core != [] && !IsJsWhitespace(core[0]) && !IsJsWhitespace(core[|core| - 1])
    ensures Trim(w1 + core + w2) == core
  {
    var s := w1 + core + w2;
    var i, j := |w1|, |w1| + |core|;
    assert s[..i] == w1 && s[i..j] == core && s[j..] == w2;
    assert s[i] == core[0] && s[j - 1] == core[|core| - 1];
    TrimSlice(s, i, j);
  }

  /** Trimming twice trims nothing more. */
  lemma TrimIdempotent(s: string)
    ensures Trim(Trim(s)) == Trim(s)
  {
    var r := Trim(s);
    if r != [] {
      assert r == [] + r + [];
      TrimExact([], r, []);
    }
  }

  // ---------------------------------------------------------------------------
  // addTask

  /** What `addTask` creates at time `now` under a (trimmed) name: the id is
      "task-" followed by the time in base ten. */
  function NewTask(now: int, name: string): (t: Task)
    ensures |t.id| > 5 && t.id[..5] == "task-" && t.status == Pending && t.assignee == None
    ensures t.name == name
    ensures t.id[5..] == Decimal.IntToString(now)
    ensures now >= 0 ==> Decimal.AllDigits(t.id[5..]) && Decimal.ParseDigits(t.id[5..]) == now
  {
    var digits := Decimal.IntToString(now);
    var id := "task-" + digits;
    assert id[5..] == digits;
    Decimal.ParseNatToString(if now >= 0 then now else -now);
    Task(id, name, Pending, None)
  }

  /** The list after `addTask` with input `name` at time `now`: unchanged
      for a blank name; otherwise the old list followed by one new pending
      task, unassigned, named by the trimmed input. */
  function AfterAdd(tasks: seq<Task>, name: string, now: int): (r: seq<Task>)
    ensures AllWhitespace(name) ==> r == tasks
    ensures !AllWhitespace(name) ==>
      && |r| == |tasks| + 1 && r[..|tasks|] == tasks
      && r[|tasks|].name == Trim(name) && r[|tasks|].name != []
      && r[|tasks|].status == Pending && r[|tasks|].assignee == None
      && r[|tasks|] == NewTask(now, Trim(name))
  {
    var trimmed := Trim(name);
    if trimmed == [] then tasks else tasks + [NewTask(now, trimmed)]
  }

  /** Tasks added at different times get different ids. */
  lemma NewTaskIdsDistinct(now1: int, now2: int, name1: string, name2: string)
    requires now1 != now2
    ensures NewTask(now1, name1).id != NewTask(now2, name2).id
  {
    var s1, s2 := Decimal.IntToString(now1), Decimal.IntToString(now2);
    Decimal.IntToStringInjective(now1, now2);
    assert NewTask(now1, name1).id[5..] == s1;
    assert NewTask(now2, name2).id[5..] == s2;
  }

  /** A name as stored is its own trim, so adding it again stores it unchanged. */
  lemma AddedNameIsTrimmed(tasks: seq<Task>, name: string, now: int)
    requires !AllWhitespace(name)
    ensures var r := AfterAdd(tasks, name, now); Trim(r[|tasks|].name) == r[|tasks|].name
  {
    TrimIdempotent(name);
  }

  /** After an add the new task shows at the end of the Pending view and of
      the full view, and no other status's view changes. */
  lemma AddShowsUnderPending(tasks: seq<Task>, name: string, now: int, status: TaskStatus)
    requires !AllWhitespace(name)
    ensures var r := AfterAdd(tasks, name, now);
      VisibleTasks(r, Only(status))
        == VisibleTasks(tasks, Only(status)) + (if status == Pending then [r[|tasks|]] else [])
  {
    var r := AfterAdd(tasks, name, now);
    assert r == tasks + [r[|tasks|]];
    WithStatusAppend(tasks, [r[|tasks|]], status);
  }

  // ---------------------------------------------------------------------------
  // The component's state

  class TaskBoard {
    var allTasks: seq<Task>
    var filter: Filter
    var newTaskName: string

    /** The board starts with the given tasks, the All filter and an empty input. */
    constructor(tasks: seq<Task>)
      ensures allTasks == tasks && filter == All && newTaskName == ""
    {
      allTasks := tasks;
      filter := All;
      newTaskName := "";
    }

    /** The tasks on screen. */
    function Visible(): seq<Task>
      reads this
    {
      VisibleTasks(allTasks, filter)
    }

    /** Choosing an option of the filter selector. */
    method SetFilter(f: Filter)
      modifies this
      ensures filter == f && allTasks == old(allTasks) && newTaskName == old(newTaskName)
    {
      filter := f;
    }

    /** Typing into the name input. */
    method SetNewTaskName(name: string)
      modifies this
      ensures newTaskName == name && allTasks == old(allTasks) && filter == old(filter)
    {
      newTaskName := name;
    }

    /** Does nothing for a blank input; otherwise appends the new task and
        clears the input. The filter never changes, so the tasks on screen
        gain the new task at their end under the All and Pending filters and
        stay as they were under the other two. */
    method AddTask(now: int)
      modifies this
      ensures allTasks == AfterAdd(old(allTasks), old(newTaskName), now)
      ensures newTaskName == if AllWhitespace(old(newTaskName)) then old(newTaskName) else ""
      ensures filter == old(filter)
      ensures AllWhitespace(old(newTaskName)) ==> Visible() == old(Visible())
      ensures !AllWhitespace(old(newTaskName)) ==>
        Visible() == old(Visible()) +
          (if filter == All || filter == Only(Pending) then [NewTask(now, Trim(old(newTaskName)))] else [])
    {
      var trimmed := Trim(newTaskName);
      if trimmed == [] {
        return;
      }
      ghost var before, name := allTasks, newTaskName;
      allTasks := allTasks + [NewTask(now, trimmed)];
      newTaskName := "";
      if filter.Only? {
        AddShowsUnderPending(before, name, now, filter.status);
      }
    }
  }

  /** The filter case the component's tests check: the in-progress view of
      the three demo tasks holds only "Implement backend". */
  lemma FilterExample()
    ensures var demo := [
        Task("t1", "Design UI", Pending, Some("Agent 1")),
        Task("t2", "Implement backend", InProgress, Some("Agent 2")),
        Task("t3", "Write tests", Completed, Some("Agent 3"))];
      VisibleTasks(demo, Only(InProgress)) == [demo[1]] && VisibleTasks(demo, All) == demo
  {
    var demo := [
        Task("t1", "Design UI", Pending, Some("Agent 1")),
        Task("t2", "Implement backend", InProgress, Some("Agent 2")),
        Task("t3", "Write tests", Completed, Some("Agent 3"))];
    assert demo[1..][1..] == [demo[2]];
  }

  /** The add case the component's tests check, with surrounding blanks. */
  lemma AddExample()
    ensures AfterAdd([], "  New Task ", 7) == [Task("task-7", "New Task", Pending, None)]
  {
    TrimExample();
    assert Decimal.IntToString(7) == "7" by {
      assert Decimal.DigitChar(7) == '7';
    }
    assert "task-" + "7" == "task-7";
    var t := NewTask(7, "New Task");
    assert t == Task("task-7", "New Task", Pending, None);
    assert AfterAdd([], "  New Task ", 7) == [] + [t];
  }

  lemma TrimExample()
    ensures Trim("  New Task ") == "New Task"
  {
    var w1, core, w2 := "  ", "New Task", " ";
    assert AllWhitespace(w1) && AllWhitespace(w2);
    assert w1 + core + w2 == "  New Task ";
    TrimExact(w1, core, w2);
  }

  /** A name of blanks adds nothing. */
  lemma AddBlankExample()
    ensures AfterAdd([], " \t ", 7) == []
  {
    assert AllWhitespace(" \t ");
  }
}
