/** The task list as a value: the `Task` record, lookup by id, and the
    effect of each command on the list, with the properties the command
    loop relies on. The class in store.dfy changes its list as these
    functions say. */
module Tasks {
  import opened Wrappers
  import opened Decimal

  /** One to-do item. */
  datatype Task = Task(id: int, title: string, done: bool)

  /** What a command reports about a lookup: the task it changed (its
      title), that it found the task but changed nothing (already in the
      requested state), that the user declined, or that no id matched. */
  datatype Outcome = Changed(title: string) | Unchanged | Cancelled | NotFound

  /** The list invariant: ids run 1..N in list order, so they are unique
      and the last one is the length of the list. */
  predicate Dense(ts: seq<Task>)
    ensures Dense(ts) ==> forall i, j :: 0 <= i < j < |ts| ==> ts[i].id != ts[j].id
    ensures Dense(ts) && ts != [] ==> ts[|ts| - 1].id == |ts|
  {
    forall i :: 0 <= i < |ts| ==> ts[i].id == i + 1
  }

  /** Ids are compared as text: the `%d` rendering of the id against the
      argument typed by the user. That holds exactly when the argument is
      the canonical decimal text of the id. */
  predicate Matches(t: Task, arg: string)
    ensures Matches(t, arg) <==> ParseInt(arg) == Some(t.id)
  {
    MatchesIffParses(arg, t.id);
    IntToString(t.id) == arg
  }

  /** The index of the first task whose id matches `arg`. */
  function Find(ts: seq<Task>, arg: string): (r: Option<nat>)
    ensures r.Some? ==> r.value < |ts| && Matches(ts[r.value], arg)
    ensures r.Some? ==> forall j :: 0 <= j < r.value ==> !Matches(ts[j], arg)
    ensures r.None? ==> forall j :: 0 <= j < |ts| ==> !Matches(ts[j], arg)
  {
    FindFrom(ts, arg, 0)
  }

  /** Continues the scan at index `k`, nothing before it matching. */
  function FindFrom(ts: seq<Task>, arg: string, k: nat): (r: Option<nat>)
    requires k <= |ts|
    requires forall j :: 0 <= j < k ==> !Matches(ts[j], arg)
    ensures r.Some? ==> k <= r.value < |ts| && Matches(ts[r.value], arg)
    ensures r.Some? ==> forall j :: 0 <= j < r.value ==> !Matches(ts[j], arg)
    ensures r.None? ==> forall j :: 0 <= j < |ts| ==> !Matches(ts[j], arg)
    decreases |ts| - k
  {
    if k == |ts| then None
    else if Matches(ts[k], arg) then Some(k)
    else FindFrom(ts, arg, k + 1)
  }

  /** In a list whose ids are 1..N, the text comparison finds the task at
      position n - 1 exactly when the argument is the canonical decimal
      text of some n in 1..N; "01", "+1" or "1.0" find nothing. */
  lemma FindDense(ts: seq<Task>, arg: string)
    requires Dense(ts)
    ensures Find(ts, arg).Some? <==>
              ParseInt(arg).Some? && 1 <= ParseInt(arg).value <= |ts|
    ensures Find(ts, arg).Some? ==> Find(ts, arg).value == ParseInt(arg).value - 1
  {
    match Find(ts, arg)
    case Some(i) =>
      MatchesIffParses(arg, ts[i].id);
    case None =>
      if ParseInt(arg).Some? && 1 <= ParseInt(arg).value <= |ts| {
        var n := ParseInt(arg).value;
        MatchesIffParses(arg, n);
        assert Matches(ts[n - 1], arg);
      }
  }

  /** Lookup depends on the ids alone. */
  lemma FindSameIds(ts: seq<Task>, us: seq<Task>, arg: string)
    requires |ts| == |us|
    requires forall i :: 0 <= i < |ts| ==> ts[i].id == us[i].id
    ensures Find(ts, arg) == Find(us, arg)
  {
    var a, b := Find(ts, arg), Find(us, arg);
    if a.Some? {
      assert Matches(us[a.value], arg);
    }
    if b.Some? {
      assert Matches(ts[b.value], arg);
    }
  }

  // ---------------------------------------------------------------------
  // add

  /** `add`: a new undone task with id N + 1 goes at the end. */
  function Appended(ts: seq<Task>, title: string): (r: seq<Task>)
    ensures |r| == |ts| + 1 && r[..|ts|] == ts
    ensures r[|ts|] == Task(|ts| + 1, title, false)
  {
    ts + [Task(|ts| + 1, title, false)]
  }

  lemma AppendedDense(ts: seq<Task>, title: string)
    requires Dense(ts)
    ensures Dense(Appended(ts, title))
  {
    var r := Appended(ts, title);
    forall i | 0 <= i < |r| ensures r[i].id == i + 1 {
      if i < |ts| { assert r[i] == r[..|ts|][i]; }
    }
  }

  /** A series of `add` commands, one per title, in order. */
  function AddAll(ts: seq<Task>, titles: seq<string>): seq<Task>
    decreases |titles|
  {
    if titles == [] then ts else AddAll(Appended(ts, titles[0]), titles[1..])
  }

  /** Adding titles keeps the earlier tasks and appends one undone task per
      title, numbered on from the current length. */
  lemma {:induction false} AddAllExtends(ts: seq<Task>, titles: seq<string>)
    ensures |AddAll(ts, titles)| == |ts| + |titles|
    ensures AddAll(ts, titles)[..|ts|] == ts
    ensures forall i :: 0 <= i < |titles| ==>
              AddAll(ts, titles)[|ts| + i] == Task(|ts| + i + 1, titles[i], false)
    decreases |titles|
  {
    if titles != [] {
      var next := Appended(ts, titles[0]);
      AddAllExtends(next, titles[1..]);
      var r := AddAll(ts, titles);
      assert r == AddAll(next, titles[1..]);
      assert r[..|ts|] == r[..|next|][..|ts|];
      forall i | 0 <= i < |titles|
        ensures r[|ts| + i] == Task(|ts| + i + 1, titles[i], false)
      {
        if i == 0 {
          assert r[|ts|] == r[..|next|][|ts|];
        } else {
          assert r[|next| + (i - 1)] == Task(|next| + (i - 1) + 1, titles[1..][i - 1], false);
        }
      }
    }
  }

  /** From an empty list, the ids of any series of adds are exactly 1..N in
      call order, each with its own title and not done. */
  lemma AddAllFromEmpty(titles: seq<string>)
    ensures Dense(AddAll([], titles))
    ensures |AddAll([], titles)| == |titles|
    ensures forall i :: 0 <= i < |titles| ==>
              AddAll([], titles)[i].title == titles[i] && !AddAll([], titles)[i].done
  {
    AddAllExtends([], titles);
    var r := AddAll([], titles);
    forall i | 0 <= i < |r| ensures r[i] == Task(i + 1, titles[i], false) {
      assert r[0 + i] == Task(0 + i + 1, titles[i], false);
    }
  }

  // ---------------------------------------------------------------------
  // done and uncheck

  /** `done` (value true) and `uncheck` (value false): the first matching
      task gets `done == value`; no match leaves the list as it is. */
  function Marked(ts: seq<Task>, arg: string, value: bool): seq<Task> {
    match Find(ts, arg)
    case Some(i) => ts[i := ts[i].(done := value)]
    case None => ts
  }

  /** What `done` / `uncheck` reports: the title when it changed the flag,
      Unchanged when the task already had that state. */
  function MarkOutcome(ts: seq<Task>, arg: string, value: bool): Outcome {
    match Find(ts, arg)
    case Some(i) => if ts[i].done == value then Unchanged else Changed(ts[i].title)
    case None => NotFound
  }

  /** Only the done flag of the matching task can change; its id, its title
      and every other task stay as they were. */
  lemma MarkedEffect(ts: seq<Task>, arg: string, value: bool)
    ensures |Marked(ts, arg, value)| == |ts|
    ensures forall j :: 0 <= j < |ts| ==>
              Marked(ts, arg, value)[j].id == ts[j].id &&
              Marked(ts, arg, value)[j].title == ts[j].title
    ensures forall j :: 0 <= j < |ts| && Find(ts, arg) != Some(j) ==>
              Marked(ts, arg, value)[j] == ts[j]
    ensures Find(ts, arg).Some? ==> Marked(ts, arg, value)[Find(ts, arg).value].done == value
  {
  }

  /** The report says Changed exactly when the list changed (the only case
      in which the list is saved). */
  lemma MarkChangesIff(ts: seq<Task>, arg: string, value: bool)
    ensures MarkOutcome(ts, arg, value).Changed? <==> Marked(ts, arg, value) != ts
  {
    match Find(ts, arg)
    case Some(i) =>
      if ts[i].done != value {
        assert Marked(ts, arg, value)[i] != ts[i];
      }
    case None =>
  }

  lemma MarkedDense(ts: seq<Task>, arg: string, value: bool)
    requires Dense(ts)
    ensures Dense(Marked(ts, arg, value))
  {
    MarkedEffect(ts, arg, value);
  }

  /** Repeating `done` (or `uncheck`) changes nothing more, and reports
      that nothing changed. */
  lemma MarkIdempotent(ts: seq<Task>, arg: string, value: bool)
    ensures Marked(Marked(ts, arg, value), arg, value) == Marked(ts, arg, value)
    ensures !MarkOutcome(Marked(ts, arg, value), arg, value).Changed?
  {
    MarkedEffect(ts, arg, value);
    FindSameIds(ts, Marked(ts, arg, value), arg);
  }

  /** `done` then `uncheck` (or the other way round) on a task that changed
      restores the original list. */
  lemma MarkThenUnmark(ts: seq<Task>, arg: string, value: bool)
    requires MarkOutcome(ts, arg, value).Changed?
    ensures Marked(Marked(ts, arg, value), arg, !value) == ts
  {
    MarkedEffect(ts, arg, value);
    FindSameIds(ts, Marked(ts, arg, value), arg);
    var i := Find(ts, arg).value;
    assert ts[i].done == !value;
  }

  // ---------------------------------------------------------------------
  // delete

  /** The renumbering loop: every id becomes its position + 1. */
  function Renumbered(s: seq<Task>): (r: seq<Task>)
    ensures |r| == |s| && Dense(r)
    ensures forall j :: 0 <= j < |s| ==> r[j].title == s[j].title && r[j].done == s[j].done
  {
    seq(|s|, j requires 0 <= j < |s| => s[j].(id := j + 1))
  }

  /** A confirmed delete of the task at index `i`: splice it out, then
      renumber. */
  function Removed(ts: seq<Task>, i: nat): (r: seq<Task>)
    requires i < |ts|
    ensures |r| == |ts| - 1 && Dense(r)
    ensures forall j :: 0 <= j < i ==> r[j].title == ts[j].title && r[j].done == ts[j].done
    ensures forall j :: i <= j < |r| ==> r[j].title == ts[j + 1].title && r[j].done == ts[j + 1].done
  {
    var spliced := ts[..i] + ts[i + 1..];
    assert forall j :: 0 <= j < i ==> spliced[j] == ts[j];
    assert forall j :: i <= j < |spliced| ==> spliced[j] == ts[j + 1];
    Renumbered(spliced)
  }

  /** In a list already numbered 1..N, deleting leaves the tasks before the
      deleted one exactly as they were and moves each later task down one
      place with its id one lower. */
  lemma RemovedFromDense(ts: seq<Task>, i: nat)
    requires i < |ts| && Dense(ts)
    ensures Removed(ts, i)[..i] == ts[..i]
    ensures forall j :: i <= j < |ts| - 1 ==> Removed(ts, i)[j] == ts[j + 1].(id := ts[j + 1].id - 1)
  {
    var r := Removed(ts, i);
    forall j | 0 <= j < i ensures r[j] == ts[j] {
    }
  }

  /** `delete`: with the user's yes/no answer already decided. */
  function Deleted(ts: seq<Task>, arg: string, yes: bool): seq<Task> {
    match Find(ts, arg)
    case Some(i) => if yes then Removed(ts, i) else ts
    case None => ts
  }

  function DeleteOutcome(ts: seq<Task>, arg: string, yes: bool): Outcome {
    match Find(ts, arg)
    case Some(i) => if yes then Changed(ts[i].title) else Cancelled
    case None => NotFound
  }

  /** Delete changes the list exactly when the id was found and the user
      confirmed; the list is then one shorter and numbered 1..N-1. */
  lemma DeleteChangesIff(ts: seq<Task>, arg: string, yes: bool)
    ensures Deleted(ts, arg, yes) != ts <==> DeleteOutcome(ts, arg, yes).Changed?
    ensures DeleteOutcome(ts, arg, yes).Changed? ==>
              |Deleted(ts, arg, yes)| == |ts| - 1 && Dense(Deleted(ts, arg, yes))
  {
  }

  lemma DeletedDense(ts: seq<Task>, arg: string, yes: bool)
    requires Dense(ts)
    ensures Dense(Deleted(ts, arg, yes))
  {
  }

  // ---------------------------------------------------------------------
  // list

  function StatusMarker(done: bool): string {
    if done then "[x]" else "[ ]"
  }

  /** One line of `list`: `<id>. [x] <title>` or `<id>. [ ] <title>`. */
  function ListLine(t: Task): string {
    IntToString(t.id) + ". " + StatusMarker(t.done) + " " + t.title
  }

  /** The lines `list` prints under its header, one per task, in order. */
  function Listing(ts: seq<Task>): (r: seq<string>)
    ensures |r| == |ts|
  {
    seq(|ts|, i requires 0 <= i < |ts| => ListLine(ts[i]))
  }

  /** The first position of `c` in `s`, or |s| when there is none. */
  function IndexOf(s: string, c: char): (r: nat)
    ensures r <= |s|
    ensures r < |s| ==> s[r] == c
    ensures forall j :: 0 <= j < r ==> s[j] != c
  {
    if s == [] then 0 else if s[0] == c then 0 else 1 + IndexOf(s[1..], c)
  }

  /** Reads a `list` line back into the task it shows. */
  function ParseListLine(line: string): Option<Task> {
    var k := IndexOf(line, '.');
    match ParseInt(line[..k])
    case None => None
    case Some(id) =>
      var rest := line[k..];
      if |rest| >= 6 && rest[..6] == ". [x] " then Some(Task(id, rest[6..], true))
      else if |rest| >= 6 && rest[..6] == ". [ ] " then Some(Task(id, rest[6..], false))
      else None
  }

  /** A `list` line shows the whole task: its id, its state and its title
      can all be read back from it. */
  lemma ListLineRoundTrip(t: Task)
    ensures ParseListLine(ListLine(t)) == Some(t)
  {
    var line := ListLine(t);
    var digits := IntToString(t.id);
    var rest := ". " + StatusMarker(t.done) + " " + t.title;
    assert line == digits + rest;
    assert IndexOf(line, '.') == |digits| by {
      assert line[|digits|] == '.';
      forall j | 0 <= j < |digits| ensures line[j] != '.' {
        assert line[j] == digits[j];
      }
    }
    assert line[..|digits|] == digits;
    assert line[|digits|..] == rest;
    ParseIntToString(t.id);
    assert ParseInt(line[..IndexOf(line, '.')]) == Some(t.id);
    assert rest[..6] == ". " + StatusMarker(t.done) + " ";
    assert rest[6..] == t.title;
    if t.done {
      assert rest[..6] == ". [x] ";
    } else {
      assert rest[..6] == ". [ ] ";
      assert rest[..6] != ". [x] ";
    }
  }

  /** Every line of the listing reads back as the task at that position. */
  lemma ListingRoundTrip(ts: seq<Task>)
    ensures forall i :: 0 <= i < |ts| ==> ParseListLine(Listing(ts)[i]) == Some(ts[i])
  {
    forall i | 0 <= i < |ts| ensures ParseListLine(Listing(ts)[i]) == Some(ts[i]) {
      ListLineRoundTrip(ts[i]);
    }
  }
}
