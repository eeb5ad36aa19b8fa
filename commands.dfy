/** How one input line of the command loop becomes a command, and how a
    yes/no answer is read. */
module Commands {
  import opened Text

  datatype Command =
    | Exit                          // the line is exactly "exit"
    | Help                          // the line is exactly "help"
    | Blank                         // no fields: the line is skipped
    | Add(title: string)
    | List
    | Reset
    | Done(id: string)
    | Uncheck(id: string)
    | Delete(id: string)
    | MissingArgument(name: string) // add/done/uncheck/delete alone
    | Unknown(name: string)

  /** Commands that need an argument; without one they only print a
      usage line. */
  predicate NeedsArgument(name: string) {
    name == "add" || name == "done" || name == "uncheck" || name == "delete"
  }

  /** One line of input. "exit" and "help" are compared with the whole,
      untrimmed line; everything else is split into fields first. Extra
      fields after the id, or after `list` and `reset`, are ignored. */
  function ParseCommand(line: string): (r: Command)
    ensures r == Exit <==> line == "exit"
    ensures r == Help <==> line == "help"
    ensures r.MissingArgument? ==> NeedsArgument(r.name) && Fields(line) == [r.name]
    ensures r.Unknown? ==> |Fields(line)| >= 1 && r.name == Fields(line)[0] && line != "exit" && line != "help"
  {
    if line == "exit" then Exit
    else if line == "help" then Help
    else
      var args := Fields(line);
      if |args| == 0 then Blank
      else
        var name := args[0];
        if NeedsArgument(name) && |args| < 2 then MissingArgument(name)
        else if name == "add" then Add(Join(args[1..], " "))
        else if name == "list" then List
        else if name == "reset" then Reset
        else if name == "done" then Done(args[1])
        else if name == "uncheck" then Uncheck(args[1])
        else if name == "delete" then Delete(args[1])
        else Unknown(name)
  }

  /** A line whose first field is `list` or `reset` is that command, with
      any further fields ignored; a first field that names no command is
      reported as unknown, and only such a field is. */
  lemma ParseHead(line: string)
    requires line != "exit" && line != "help" && |Fields(line)| >= 1
    ensures Fields(line)[0] == "list" ==> ParseCommand(line) == List
    ensures Fields(line)[0] == "reset" ==> ParseCommand(line) == Reset
    ensures ParseCommand(line).Unknown? <==>
              !(NeedsArgument(Fields(line)[0]) || Fields(line)[0] == "list" || Fields(line)[0] == "reset")
  {
  }

  /** A line is skipped exactly when it is all white space. */
  lemma BlankIff(line: string)
    ensures ParseCommand(line) == Blank <==> AllSpace(line)
  {
    FieldsEmptyIff(line);
    assert !AllSpace("exit") by { assert !IsSpace("exit"[0]); }
    assert !AllSpace("help") by { assert !IsSpace("help"[0]); }
  }

  /** The title of `add` is non-empty, starts and ends with a non-space
      character, and splits back into exactly the words typed after
      `add`. */
  lemma AddTitle(line: string)
    requires ParseCommand(line).Add?
    ensures ParseCommand(line).title != []
    ensures Trimmed(ParseCommand(line).title)
    ensures Fields(line)[0] == "add" && |Fields(line)| >= 2
    ensures Fields(ParseCommand(line).title) == Fields(line)[1..]
  {
    var args := Fields(line);
    JoinFieldsTrimmed(args[1..]);
    FieldsOfJoin(args[1..]);
  }

  /** The id argument of done/uncheck/delete is the second field. */
  lemma IdArgument(line: string)
    requires ParseCommand(line).Done? || ParseCommand(line).Uncheck? || ParseCommand(line).Delete?
    ensures |Fields(line)| >= 2 && ParseCommand(line).id == Fields(line)[1]
    ensures IsField(ParseCommand(line).id)
  {
  }

  /** How a line that is split into at least two fields is read. */
  lemma ParseFields(line: string)
    requires line != "exit" && line != "help" && |Fields(line)| >= 2
    ensures var args := Fields(line);
            (args[0] == "add" ==> ParseCommand(line) == Add(Join(args[1..], " "))) &&
            (args[0] == "done" ==> ParseCommand(line) == Done(args[1])) &&
            (args[0] == "uncheck" ==> ParseCommand(line) == Uncheck(args[1])) &&
            (args[0] == "delete" ==> ParseCommand(line) == Delete(args[1]))
  {
  }

  /** `add` and its words, separated by single spaces: the title is the
      words joined by single spaces. */
  lemma ParseAddWords(ws: seq<string>)
    requires |ws| >= 1 && forall k :: 0 <= k < |ws| ==> IsField(ws[k])
    ensures ParseCommand(Join(["add"] + ws, " ")) == Add(Join(ws, " "))
  {
    var all := ["add"] + ws;
    var line := Join(all, " ");
    JoinPrepend("add", ws);
    JoinFieldsTrimmed(ws);
    AddFieldsPrepend(ws);
    FieldsOfJoin(all);
    ParseAddFields(line, ws);
  }

  lemma AddFieldsPrepend(ws: seq<string>)
    requires forall k :: 0 <= k < |ws| ==> IsField(ws[k])
    ensures forall k :: 0 <= k < |["add"] + ws| ==> IsField((["add"] + ws)[k])
  {
    var all := ["add"] + ws;
    assert IsField("add");
    forall k | 0 <= k < |all| ensures IsField(all[k]) {
      if k > 0 { assert all[k] == ws[k - 1]; }
    }
  }

  lemma ParseAddFields(line: string, ws: seq<string>)
    requires line != "exit" && line != "help"
    requires |ws| >= 1 && Fields(line) == ["add"] + ws
    ensures ParseCommand(line) == Add(Join(ws, " "))
  {
    assert Fields(line)[1..] == ws;
  }

  /** `done`, `uncheck` or `delete`, a space and an id. */
  lemma ParseIdCommand(name: string, id: string)
    requires name == "done" || name == "uncheck" || name == "delete"
    requires IsField(id)
    ensures ParseCommand(name + " " + id) ==
              if name == "done" then Done(id) else if name == "uncheck" then Uncheck(id) else Delete(id)
  {
    var line := name + " " + id;
    assert Join([name, id], " ") == line;
    assert IsField(name) by {
      forall i | 0 <= i < |name| ensures !IsSpace(name[i]) {
      }
    }
    FieldsOfJoin([name, id]);
    assert |line| >= 6;
    ParseFields(line);
  }

  /** The answer to a y/n prompt is a yes when, lower-cased and trimmed,
      it is "y" or "yes". */
  predicate Confirmed(answer: string) {
    var a := TrimSpace(ToLower(answer));
    a == "y" || a == "yes"
  }

  /** Surrounding white space (the newline included) never matters, and
      of the rest only "y" and "yes" in any mix of cases say yes. */
  lemma ConfirmedPadded(pre: string, core: string, post: string)
    requires AllSpace(pre) && AllSpace(post) && Trimmed(core)
    ensures Confirmed(pre + core + post) <==> ToLower(core) == "y" || ToLower(core) == "yes"
  {
    ToLowerConcat(pre + core, post);
    ToLowerConcat(pre, core);
    ToLowerSpaces(pre);
    ToLowerSpaces(post);
    ToLowerTrimmed(core);
    TrimSpacePadded(pre, ToLower(core), post);
  }
}
