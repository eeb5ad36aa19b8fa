/** The in-memory task list the command loop works on, and one iteration
    of that loop. The list is held by a TaskStore object instead of a
    package-level variable; each method changes `tasks` as the matching
    function of module Tasks says. */
module Store {
  import opened Wrappers
  import opened Decimal
  import opened Text
  import opened Tasks
  import opened Commands

  /** What one line of input leads the loop to report. */
  datatype Response =
    | Goodbye                       // "exit": the loop ends
    | HelpText                      // the static command summary
    | Skipped                       // a blank line
    | Usage(command: string)        // a command given without its argument
    | UnknownCommand(command: string)
    | AddedTask(title: string)
    | NoTasks                       // `list` on an empty list
    | TaskList(lines: seq<string>)  // `list`: the lines under the header
    | MarkReply(value: bool, outcome: Outcome)
    | DeleteReply(outcome: Outcome)
    | ResetReply(cleared: bool)

  /** One iteration of the command loop: the list afterwards and the
      response, given the list before and the answer the user would type
      at a y/n prompt (read only by `delete` of an existing id and by
      `reset`). */
  function Step(ts: seq<Task>, cmd: Command, answer: string): (seq<Task>, Response) {
    match cmd
    case Exit => (ts, Goodbye)
    case Help => (ts, HelpText)
    case Blank => (ts, Skipped)
    case MissingArgument(name) => (ts, Usage(name))
    case Unknown(name) => (ts, UnknownCommand(name))
    case Add(title) => (Appended(ts, title), AddedTask(title))
    case List => (ts, if ts == [] then NoTasks else TaskList(Listing(ts)))
    case Reset => if Confirmed(answer) then ([], ResetReply(true)) else (ts, ResetReply(false))
    case Done(id) => (Marked(ts, id, true), MarkReply(true, MarkOutcome(ts, id, true)))
    case Uncheck(id) => (Marked(ts, id, false), MarkReply(false, MarkOutcome(ts, id, false)))
    case Delete(id) =>
      (Deleted(ts, id, Confirmed(answer)), DeleteReply(DeleteOutcome(ts, id, Confirmed(answer))))
  }

  /** `list` never changes the list. It reports "No tasks found." exactly
      when the list is empty, and otherwise one line per task, in order,
      each of which reads back as its task. */
  lemma StepList(ts: seq<Task>, answer: string)
    ensures Step(ts, List, answer).0 == ts
    ensures Step(ts, List, answer).1 == NoTasks <==> ts == []
    ensures ts != [] ==> Step(ts, List, answer).1.TaskList? && |Step(ts, List, answer).1.lines| == |ts|
    ensures ts != [] ==> forall i :: 0 <= i < |ts| ==>
              ParseListLine(Step(ts, List, answer).1.lines[i]) == Some(ts[i])
  {
    ListingRoundTrip(ts);
  }

  /** Every command keeps the ids 1..N in list order. */
  lemma StepKeepsDense(ts: seq<Task>, cmd: Command, answer: string)
    requires Dense(ts)
    ensures Dense(Step(ts, cmd, answer).0)
  {
    match cmd
    case Add(title) => AppendedDense(ts, title);
    case Done(id) => MarkedDense(ts, id, true);
    case Uncheck(id) => MarkedDense(ts, id, false);
    case Delete(id) => DeletedDense(ts, id, Confirmed(answer));
    case _ =>
  }

  /** Only add, done, uncheck, delete and reset can change the list; `add`
      always grows it by one task. */
  lemma StepReadOnly(ts: seq<Task>, line: string, answer: string)
    ensures var cmd := ParseCommand(line);
            !(cmd.Add? || cmd.Done? || cmd.Uncheck? || cmd.Delete? || cmd.Reset?) ==>
              Step(ts, cmd, answer).0 == ts
    ensures ParseCommand(line).Add? ==> |Step(ts, ParseCommand(line), answer).0| == |ts| + 1
  {
  }

  /** `add`, `done`, `uncheck` or `delete` typed alone only reports the
      missing argument. */
  lemma MissingArgumentKeeps(ts: seq<Task>, line: string, answer: string)
    requires |Fields(line)| == 1 && NeedsArgument(Fields(line)[0])
    ensures Step(ts, ParseCommand(line), answer) == (ts, Usage(Fields(line)[0]))
  {
    if line == "exit" || line == "help" {
      assert IsField(line);
      FieldsOfJoin([line]);
      assert false;
    }
  }

  /** `reset` empties the list on a yes and leaves it alone otherwise. */
  lemma ResetEffect(ts: seq<Task>, answer: string)
    ensures Step(ts, Reset, answer).0 == [] <==> Confirmed(answer) || ts == []
    ensures !Confirmed(answer) ==> Step(ts, Reset, answer).0 == ts
  {
    var yes := Confirmed(answer);
    assert Step(ts, Reset, answer).0 == if yes then [] else ts;
  }

  /** Argument "1" finds a first task numbered 1. */
  lemma FindFirstExample(ts: seq<Task>)
    requires |ts| >= 1 && ts[0].id == 1
    ensures Find(ts, "1") == Some(0)
  {
    assert IntToString(1) == "1";
  }

  lemma RemovedExample()
    ensures Removed([Task(1, "Buy milk", true), Task(2, "Walk dog", false)], 0) ==
              [Task(1, "Walk dog", false)]
  {
    var s3 := [Task(1, "Buy milk", true), Task(2, "Walk dog", false)];
    RemovedFromDense(s3, 0);
    var r := Removed(s3, 0);
    assert |r| == 1 && r[0] == Task(1, "Walk dog", false);
  }

  /** The confirmed delete of the session below. */
  lemma DeleteExample(answer: string)
    requires Confirmed(answer)
    ensures Step([Task(1, "Buy milk", true), Task(2, "Walk dog", false)], Delete("1"), answer).0 ==
              [Task(1, "Walk dog", false)]
  {
    var ts := [Task(1, "Buy milk", true), Task(2, "Walk dog", false)];
    DeletedExample();
    StepDelete(ts, "1", answer);
  }

  lemma StepDelete(ts: seq<Task>, id: string, answer: string)
    ensures Step(ts, Delete(id), answer).0 == Deleted(ts, id, Confirmed(answer))
  {
  }

  lemma DeletedExample()
    ensures Deleted([Task(1, "Buy milk", true), Task(2, "Walk dog", false)], "1", true) ==
              [Task(1, "Walk dog", false)]
  {
    var ts := [Task(1, "Buy milk", true), Task(2, "Walk dog", false)];
    FindFirstExample(ts);
    RemovedExample();
  }

  lemma FirstAddExample()
    ensures Step([], Add("Buy milk"), "").0 == [Task(1, "Buy milk", false)]
  {
  }

  lemma DoneExample()
    ensures Step([Task(1, "Buy milk", false)], Done("1"), "").0 == [Task(1, "Buy milk", true)]
  {
    FindFirstExample([Task(1, "Buy milk", false)]);
  }

  lemma SecondAddExample()
    ensures Step([Task(1, "Buy milk", true)], Add("Walk dog"), "").0 ==
              [Task(1, "Buy milk", true), Task(2, "Walk dog", false)]
  {
  }

  /** The four lines of the session below, read as commands. */
  lemma ParseAddBuyMilk()
    ensures ParseCommand("add Buy milk") == Add("Buy milk")
  {
    assert IsField("Buy") && IsField("milk");
    ParseAddWords(["Buy", "milk"]);
    assert Join(["Buy", "milk"], " ") == "Buy milk";
    assert Join(["add", "Buy", "milk"], " ") == "add Buy milk";
  }

  lemma ParseDoneOne()
    ensures ParseCommand("done 1") == Done("1")
  {
    assert IsField("1");
    ParseIdCommand("done", "1");
    assert "done" + " " + "1" == "done 1";
  }

  lemma ParseAddWalkDog()
    ensures ParseCommand("add Walk dog") == Add("Walk dog")
  {
    assert IsField("Walk") && IsField("dog");
    ParseAddWords(["Walk", "dog"]);
    assert Join(["Walk", "dog"], " ") == "Walk dog";
    assert Join(["add", "Walk", "dog"], " ") == "add Walk dog";
  }

  lemma ParseDeleteOne()
    ensures ParseCommand("delete 1") == Delete("1")
  {
    assert IsField("1");
    ParseIdCommand("delete", "1");
    assert "delete" + " " + "1" == "delete 1";
  }

  /** A short session typed at the prompt: "add Buy milk", "done 1",
      "add Walk dog", then "delete 1" answered with a yes ("y", "YES\n",
      ...). */
  lemma SessionExample(answer: string)
    requires Confirmed(answer)
    ensures Step([], ParseCommand("add Buy milk"), "").0 == [Task(1, "Buy milk", false)]
    ensures Step([Task(1, "Buy milk", false)], ParseCommand("done 1"), "").0 ==
              [Task(1, "Buy milk", true)]
    ensures Step([Task(1, "Buy milk", true)], ParseCommand("add Walk dog"), "").0 ==
              [Task(1, "Buy milk", true), Task(2, "Walk dog", false)]
    ensures Step([Task(1, "Buy milk", true), Task(2, "Walk dog", false)], ParseCommand("delete 1"), answer).0 ==
              [Task(1, "Walk dog", false)]
  {
    ParseAddBuyMilk();
    FirstAddExample();
    ParseDoneOne();
    DoneExample();
    ParseAddWalkDog();
    SecondAddExample();
    ParseDeleteOne();
    DeleteExample(answer);
  }

  /** `done 5` on a list of two tasks finds nothing and changes nothing. */
  lemma DoneMissingExample(ts: seq<Task>)
    requires Dense(ts) && |ts| == 2
    ensures Step(ts, ParseCommand("done 5"), "") == (ts, MarkReply(true, NotFound))
  {
    assert IsField("5");
    ParseIdCommand("done", "5");
    assert "done" + " " + "5" == "done 5";
    assert ParseInt("5") == Some(5);
    FindDense(ts, "5");
  }

  /** The store seen by the command loop. */
  class TaskStore {
    var tasks: seq<Task>

    /** Starts from the list read at start-up (empty when there is no
        file). */
    constructor (loaded: seq<Task>)
      ensures tasks == loaded
    {
      tasks := loaded;
    }

    /** addTask: append an undone task numbered one past the current
        length. */
    method AddTask(title: string)
      modifies this
      ensures tasks == Appended(old(tasks), title)
      ensures Dense(old(tasks)) ==> Dense(tasks)
    {
      var id := |tasks| + 1;
      tasks := tasks + [Task(id, title, false)];
      assert Dense(old(tasks)) ==> Dense(tasks) by {
        if Dense(old(tasks)) {
          AppendedDense(old(tasks), title);
        }
      }
    }

    /** The linear scan shared by done, uncheck and delete: the index of
        the first task whose id, written in decimal, equals `arg`. */
    method Lookup(arg: string) returns (r: Option<nat>)
      ensures r == Find(tasks, arg)
    {
      r := None;
      var i := 0;
      while i < |tasks|
        invariant 0 <= i <= |tasks|
        invariant forall j :: 0 <= j < i ==> !Matches(tasks[j], arg)
      {
        if IntToString(tasks[i].id) == arg {
          r := Some(i);
          break;
        }
        i := i + 1;
      }
    }

    /** `done` (value true) and `uncheck` (value false). */
    method Mark(arg: string, value: bool) returns (outcome: Outcome)
      modifies this
      ensures tasks == Marked(old(tasks), arg, value)
      ensures outcome == MarkOutcome(old(tasks), arg, value)
    {
      var found := Lookup(arg);
      match found
      case None =>
        outcome := NotFound;
      case Some(i) =>
        if tasks[i].done == value {
          outcome := Unchanged;
        } else {
          outcome := Changed(tasks[i].title);
          tasks := tasks[i := tasks[i].(done := value)];
        }
    }

    /** `delete`: splice the task out and renumber every remaining task to
        its position + 1, if the id exists and the answer is a yes. */
    method DeleteTask(arg: string, answer: string) returns (outcome: Outcome)
      modifies this
      ensures tasks == Deleted(old(tasks), arg, Confirmed(answer))
      ensures outcome == DeleteOutcome(old(tasks), arg, Confirmed(answer))
    {
      var found := Lookup(arg);
      match found
      case None =>
        outcome := NotFound;
      case Some(i) =>
        if Confirmed(answer) {
          outcome := Changed(tasks[i].title);
          tasks := tasks[..i] + tasks[i + 1..];
          Renumber();
        } else {
          outcome := Cancelled;
        }
    }

    /** The renumbering loop after a delete: every id becomes its
        position + 1. */
    method Renumber()
      modifies this
      ensures tasks == Renumbered(old(tasks))
    {
      var j := 0;
      while j < |tasks|
        invariant 0 <= j <= |tasks| == |old(tasks)|
        invariant forall k :: 0 <= k < j ==> tasks[k] == old(tasks)[k].(id := k + 1)
        invariant forall k :: j <= k < |tasks| ==> tasks[k] == old(tasks)[k]
      {
        tasks := tasks[j := tasks[j].(id := j + 1)];
        j := j + 1;
      }
    }

    /** resetTasks: clear the list on a yes. */
    method ResetTasks(answer: string) returns (cleared: bool)
      modifies this
      ensures cleared == Confirmed(answer)
      ensures tasks == if cleared then [] else old(tasks)
    {
      var input := TrimSpace(ToLower(answer));
      cleared := input == "y" || input == "yes";
      if cleared {
        tasks := [];
      }
    }

    /** The lines `list` prints under its header, in list order. */
    method ListTasks() returns (lines: seq<string>)
      ensures lines == Listing(tasks)
    {
      lines := [];
      for i := 0 to |tasks|
        invariant |lines| == i
        invariant forall k :: 0 <= k < i ==> lines[k] == ListLine(tasks[k])
      {
        var task := tasks[i];
        var status := "[ ]";
        if task.done {
          status := "[x]";
        }
        lines := lines + [IntToString(task.id) + ". " + status + " " + task.title];
      }
    }

    /** One iteration of the command loop on an input line. */
    method Execute(line: string, answer: string) returns (response: Response)
      modifies this
      ensures (tasks, response) == Step(old(tasks), ParseCommand(line), answer)
    {
      response := Dispatch(ParseCommand(line), answer);
    }

    /** The `switch` of the command loop on an already parsed line. */
    method Dispatch(cmd: Command, answer: string) returns (response: Response)
      modifies this
      ensures (tasks, response) == Step(old(tasks), cmd, answer)
    {
      match cmd
      case Exit => response := Goodbye;
      case Help => response := HelpText;
      case Blank => response := Skipped;
      case MissingArgument(name) => response := Usage(name);
      case Unknown(name) => response := UnknownCommand(name);
      case Add(title) =>
        AddTask(title);
        response := AddedTask(title);
      case List =>
        if |tasks| == 0 {
          response := NoTasks;
        } else {
          var lines := ListTasks();
          response := TaskList(lines);
        }
      case Reset =>
        var cleared := ResetTasks(answer);
        response := ResetReply(cleared);
      case Done(id) =>
        var outcome := Mark(id, true);
        response := MarkReply(true, outcome);
      case Uncheck(id) =>
        var outcome := Mark(id, false);
        response := MarkReply(false, outcome);
      case Delete(id) =>
        var outcome := DeleteTask(id, answer);
        response := DeleteReply(outcome);
    }
  }
}
