# Todo CLI task list: a Dafny model

This project models the in-memory task list of a small interactive to-do
program. The user types commands at a prompt: `add <title...>`, `list`,
`done <id>`, `uncheck <id>`, `delete <id>` (asks y/n), `reset` (asks y/n),
`help` and `exit`. The program keeps an ordered list of tasks
`{id, title, done}`. Its invariant is that ids run `1..N` in list order:
`add` numbers the new task `N + 1`, and a confirmed `delete` renumbers
every remaining task to its position + 1.

Modules, in dependency order:

- `wrappers.dfy`, module `Wrappers`: the `Option` type shared by the
  decimal parser and the id lookup.
- `text.dfy`, module `Text`: the Go library behaviour the command loop
  depends on. This is `unicode.IsSpace`, `strings.Fields`, `strings.Join`,
  `strings.TrimSpace` and `strings.ToLower`. It proves that `Fields` splits
  any line around runs of white space, and the round trip between `Fields`
  and a single-space `Join`.
- `decimal.dfy`, module `Decimal`: the `%d` rendering of an id
  (`fmt.Sprintf("%d", id)`). It also has a canonical decimal parser, with
  proofs that the two invert each other.
- `tasks.dfy`, module `Tasks`: the `Task` record and lookup by id. It gives
  the effect of add, done/uncheck, delete and list as functions on a
  sequence of tasks, with lemmas about each.
- `commands.dfy`, module `Commands`: how an input line becomes a command,
  and how a y/n answer is decided.
- `store.dfy`, module `Store`: class `TaskStore`. It owns the list as a
  field `tasks: seq<Task>`, which its methods reassign in place. Methods:
  `AddTask`, `Lookup`, `Mark`, `DeleteTask`, `Renumber`, `ResetTasks`,
  `ListTasks`, `Dispatch` for the command `switch`, and `Execute` for one
  loop iteration. `Step` is the
  specification function for one iteration. Lemmas cover the dense-id
  invariant and the example session.

The original keeps the list in a package-level variable. Here it is a
field of one object, and the stdin answer to a confirmation prompt is a
string parameter. The three linear scans (done, uncheck, delete) are one
method, `Lookup`, because their loops are identical. It returns the index
of the first task whose id, rendered in decimal, equals the argument
text. So `"01"` or `"+1"` matches no task, and when duplicate ids are
loaded from a file the first one wins.

Three consequences of the code are easy to miss:

- `exit` and `help` are recognised only when they are the whole line, not
  trimmed. Any other line is split into fields first, so `" exit"` is an
  unknown command named `exit`.
- `done` followed by `uncheck` restores the original list only when the
  `done` actually changed the task. On an already-done task, `done` is a
  no-op and `uncheck` then clears the flag. `MarkThenUnmark` states this.
- The title of `add` is never empty, and it has no leading or trailing
  white space (`AddTitle`). This is because the words come from
  `strings.Fields`. There is no separate check in the code.

## Model

| member | source | states |
|---|---|---|
| Text.IsSpace | main.go:54 | Go's `unicode.IsSpace`: `\t`..`\r`, space, U+0085, U+00A0 and the Unicode space separators (Zs, Zl, Zp), the white space that both `strings.Fields` and `strings.TrimSpace` use |
| Text.Fields | main.go:83 | every element of the result is a non-empty run of non-space characters; with FieldsOfSpaced, the result is exactly the words of the line in order |
| Text.FieldsFrom | main.go:83 | while scanning, every field emitted is non-empty and space-free |
| Text.FieldsOfSpaced | main.go:83 | for any words, any white space before and after them and any non-empty white space between them, `strings.Fields` of the line gives exactly those words in order: leading, trailing and repeated blanks and tabs are ignored |
| Text.Join | main.go:95 | `strings.Join(args[1:], " ")`: the words with one separator between neighbours; its round trip with Fields is FieldsOfJoin |
| Text.FieldsEmptyIff | main.go:83-86 | a line has zero fields exactly when it is all white space, which is when the loop skips it |
| Text.FieldsOfJoin | main.go:95 | splitting a single-space join of fields gives back exactly those fields |
| Text.JoinFieldsTrimmed | main.go:95 | joining one or more fields gives a non-empty string whose first and last characters are not white space |
| Text.TrimLeft | main.go:54 | the result is a suffix of the input; what was dropped is all white space; the result does not start with white space |
| Text.TrimRight | main.go:54 | the result is a prefix of the input; what was dropped is all white space; the result does not end with white space |
| Text.TrimSpace | main.go:54 | the result has no leading or trailing white space and is no longer than the input |
| Text.TrimSpacePadded | main.go:54 | trimming a trimmed core padded with any white space on both sides gives exactly that core |
| Text.LowerChar | main.go:54 | the result is never an ASCII capital, is white space iff the input is, and differs from the input only by mapping a capital to its small letter |
| Text.ToLower | main.go:54 | keeps the length, leaves no ASCII capital, and keeps every position's white space status, so trimming after lower-casing removes the same characters |
| Decimal.NatToString | main.go:121 | `%d` of a non-negative number is a non-empty digit string with no leading zero, except "0" itself |
| Decimal.IntToString | main.go:121 | `%d` of an id is non-empty and uses only digits and the minus sign |
| Decimal.ParseIntToString | main.go:121 | parsing the `%d` text of any integer gives that integer back |
| Decimal.ToStringParseInt | main.go:121 | every string the parser accepts is the `%d` text of the number it yields |
| Decimal.MatchesIffParses | main.go:121 | the text comparison of an id with an argument holds iff the argument parses to that id |
| Decimal.IntToStringInjective | main.go:121 | two ids have the same decimal text iff they are equal |
| Tasks.Dense | main.go:174-177 | the ids run 1..N in list order; then they are unique and the last one equals the length, which is what `add` numbering relies on |
| Tasks.Matches | main.go:121 | `fmt.Sprintf("%d", task.ID) == id` holds exactly when the argument parses canonically to the task's id |
| Tasks.Find | main.go:119-132 | returns the index of the first task whose id text equals the argument, or None when no task matches |
| Tasks.FindFrom | main.go:119-132 | the scan from index k returns the first match at or after k, or None when no task matches |
| Tasks.FindDense | main.go:121 | in a list numbered 1..N, an argument finds the task at n-1 iff it parses canonically to some n in 1..N |
| Tasks.FindSameIds | main.go:119-132 | lookup depends only on the ids, so changing done flags does not change what it finds |
| Tasks.Appended | main.go:42-45 | add keeps every earlier task and appends exactly {id: N+1, title, done: false} |
| Tasks.AppendedDense | main.go:43-45 | if ids are 1..N in order before add, they are 1..N+1 in order after it |
| Tasks.AddAllExtends | main.go:42-45 | a series of adds keeps the existing tasks and appends one undone task per title, in call order, numbered on from the current length |
| Tasks.AddAllFromEmpty | main.go:42-45 | from an empty list, any series of adds gives ids exactly 1..N in call order, with the titles given and nothing done |
| Tasks.Marked | main.go:118-132 | done/uncheck sets the flag of the first matching task; with MarkedEffect, nothing else changes, and no match leaves the list as it was |
| Tasks.MarkOutcome | main.go:122-135 | the report: the title when the flag changed, Unchanged when the task already had it ("already marked as done" / "not marked as done"), NotFound when no id matched; with MarkChangesIff, Changed iff the list changed |
| Tasks.MarkedEffect | main.go:118-135 | done/uncheck keeps the length, every id and every title; it leaves every task except the matching one equal; the matching task gets the requested flag |
| Tasks.MarkChangesIff | main.go:122-128 | the reported outcome is Changed exactly when the list changed: a matching task that did not already have the requested flag |
| Tasks.MarkedDense | main.go:113-158 | done and uncheck keep the ids 1..N |
| Tasks.MarkIdempotent | main.go:113-158 | repeating done (or uncheck) leaves the list as the first call did and reports no change |
| Tasks.MarkThenUnmark | main.go:113-158 | done then uncheck (or the reverse) on a task the first call changed restores the original list |
| Tasks.Renumbered | main.go:175-177 | the renumbered list has the same length, ids 1..N, and the same titles and flags at each position |
| Tasks.Removed | main.go:173-177 | a confirmed delete at index i gives a list one shorter and numbered 1..N-1; tasks before i keep their titles and flags, and tasks after i move down one place |
| Tasks.RemovedFromDense | main.go:173-177 | in a list numbered 1..N, tasks before the deleted one stay equal, and each later task moves down one place with its id one lower |
| Tasks.Deleted | main.go:164-189 | delete removes the first matching task and renumbers only when the answer is a yes; a declined or unmatched delete leaves the list as it was |
| Tasks.DeleteOutcome | main.go:172-188 | the report: the deleted task's title on a yes, Cancelled on any other answer, NotFound when no id matched |
| Tasks.DeleteChangesIff | main.go:166-189 | delete changes the list iff the id was found and the answer is yes; the list is then one shorter and numbered 1..N-1 |
| Tasks.DeletedDense | main.go:159-189 | delete, confirmed, declined or not found, keeps the ids 1..N |
| Tasks.ListLine | main.go:104-108 | one line of `list`: the `%d` text of the id, `. `, `[x]` or `[ ]`, a space and the title; ListLineRoundTrip shows the line determines the task |
| Tasks.Listing | main.go:103-109 | `list` prints one line per task |
| Tasks.ListLineRoundTrip | main.go:104-108 | a `<id>. [x] <title>` line shows the whole task: id, done flag and title read back from it |
| Tasks.ListingRoundTrip | main.go:103-109 | each listed line reads back as the task at that position, in list order |
| Commands.ParseCommand | main.go:75-191 | exit and help are recognised iff the line is exactly that word; a missing argument is reported only for add/done/uncheck/delete given alone; an unknown command is named by the first field; ParseHead, ParseFields and BlankIff fix the other cases |
| Commands.ParseHead | main.go:87-191 | a line whose first field is `list` or `reset` is that command, further fields ignored; the command is Unknown exactly when the first field is none of add, list, reset, done, uncheck and delete |
| Commands.ParseAddWords | main.go:90-96 | `add` followed by words separated by single spaces is an add of those words joined by single spaces |
| Commands.ParseIdCommand | main.go:113-118 | `done`, `uncheck` or `delete`, a space and an id read as that command with that id |
| Commands.BlankIff | main.go:83-86 | a line is skipped exactly when it is all white space |
| Commands.AddTitle | main.go:90-96 | the add title is non-empty, trimmed, and splits back into exactly the words after `add` |
| Commands.IdArgument | main.go:113-118 | the id of done/uncheck/delete is the second field, a non-empty run of non-space characters |
| Commands.ParseFields | main.go:87-164 | a line of two or more fields starting with add/done/uncheck/delete reads as that command, with its title or id |
| Commands.Confirmed | main.go:53-55 | the y/n answer is a yes iff `strings.TrimSpace(strings.ToLower(input))` is "y" or "yes", the same test in resetTasks and in delete (main.go:171-172) |
| Commands.ConfirmedPadded | main.go:53-55 | an answer is a yes iff, with the surrounding white space (the newline too) removed and lower-cased, it is "y" or "yes" |
| Store.Step | main.go:74-192 | one loop iteration on a parsed command: the list afterwards and the message chosen; its properties are the lemmas below |
| Store.StepList | main.go:97-109 | `list` never changes the list, reports "No tasks found." exactly when the list is empty, and otherwise gives one line per task that reads back as that task |
| Store.StepKeepsDense | main.go:88-192 | every command keeps the ids 1..N in list order |
| Store.StepReadOnly | main.go:75-112 | help, exit, blank, unknown, list and missing-argument lines leave the list unchanged; add grows it by exactly one |
| Store.MissingArgumentKeeps | main.go:91-94 | add/done/uncheck/delete typed alone reports the usage line and changes nothing |
| Store.ResetEffect | main.go:50-62 | reset empties the list on a yes; on any other answer the list is unchanged |
| Store.SessionExample | main.go:88-189 | the typed lines "add Buy milk", "done 1", "add Walk dog", then "delete 1" answered with any yes (such as "y\n"), give the lists [{1,Buy milk,false}], [{1,Buy milk,true}], [{1,..,true},{2,Walk dog,false}], [{1,Walk dog,false}] |
| Store.DeleteExample | main.go:166-179 | a confirmed delete of task 1 from a list of two leaves only the second task, renumbered to 1 |
| Store.DoneMissingExample | main.go:113-135 | `done 5` on a list of two tasks reports "not found" and changes nothing |
| Store.TaskStore.constructor | main.go:19-35 | the store starts with the list read at start-up |
| Store.TaskStore.AddTask | main.go:42-45 | the new list is the old one with {N+1, title, false} appended, and ids 1..N become 1..N+1 |
| Store.TaskStore.Lookup | main.go:119-132 | the scan returns exactly the first index whose id text equals the argument, or None |
| Store.TaskStore.Mark | main.go:113-158 | done/uncheck: the list becomes Marked of the old list, and the outcome is Changed, Unchanged or NotFound as MarkOutcome says |
| Store.TaskStore.DeleteTask | main.go:159-189 | the list becomes Deleted of the old list under the answer's decision, and the outcome is Changed, Cancelled or NotFound |
| Store.TaskStore.Renumber | main.go:175-177 | the renumbering loop sets every id to its position + 1 and changes nothing else |
| Store.TaskStore.ResetTasks | main.go:50-62 | the answer is accepted iff it trims and lower-cases to y/yes; the list is then empty, and otherwise unchanged |
| Store.TaskStore.ListTasks | main.go:97-109 | the loop produces exactly the `<id>. [x] <title>` lines of the tasks in order |
| Store.TaskStore.Dispatch | main.go:88-192 | the `switch` on a parsed command changes the list and gives the response exactly as Step says |
| Store.TaskStore.Execute | main.go:74-192 | one loop iteration on a line gives the list and the response that Step gives for the parsed command |

## Left out

- Loading and saving (`loadTasks`, `saveTasks`, main.go:19-40) are left out. They are file I/O and `encoding/json` marshalling. The constructor takes the loaded list as a parameter, and saving is not modelled. The responses mark where the original saves: `AddedTask` for every add (main.go:46), `ResetReply(true)` for a confirmed reset (main.go:57), and an outcome `Changed` for done, uncheck and delete (main.go:126, 149, 178).
- Reading stdin is left out (`bufio.Scanner` for commands, a fresh `bufio.Reader` for each y/n prompt). A command line and an answer are string parameters. So the model does not capture that the scanner may already have buffered input that the prompt's reader then never sees.
- Printed messages, the help text and the `Task List:` header are not modelled. The `Response` and `Outcome` values record which message is printed, and `Listing` gives the task lines.
- The read loop itself is not modelled: ending on end-of-input, and ending after `exit`. `Execute` models one iteration, and `Goodbye` is the response to `exit`.
- Text.ToLower: lower-cases ASCII letters only, where Go maps all of Unicode. For the y/yes decision this is exact. No rune outside `Y`, `E`, `S` lower-cases to `y`, `e` or `s`, and lower-casing never turns a space into a non-space or back. The lower-cased text of other answers is not modelled.
- Strings are sequences of Unicode scalar values. Go's handling of invalid UTF-8 bytes (as U+FFFD runes) is not modelled.
- Ids are unbounded integers. Go's 64-bit `int` cannot overflow here in practice, since ids come from `len(tasks) + 1` or from the file.
