/** call/wrap.go: the wrapper that runs a chain of tasks on one repository
    and reports on the repository's channel. Every task is replaced by its
    outcome: the messages it sends and the error it returns, if any. The
    clone preamble runs when the repository is missing locally and has an
    outcome of the same kind. */
module CallWrap {
  import opened Wrappers

  /** What one step sent on the channel and the error it returned. */
  datatype Outcome = Outcome(lines: seq<string>, err: Option<string>)

  function Header(repo: string): string
  {
    "------ " + repo + " ------"
  }

  const CloneNotice := "Repository not found, cloning...\n"

  /** `fmt.Sprintln("ERROR:", err)`. */
  function ErrorLine(err: string): (line: string)
    ensures line != ""
  {
    "ERROR: " + err + "\n"
  }

  /** The messages of the task loop: each task's messages in order, stopping
      after the first failing task with its error line, or ending with the
      empty message when every task succeeded. */
  function Chain(tasks: seq<Outcome>): (r: seq<string>)
    ensures |r| >= 1
  {
    if tasks == [] then [""]
    else tasks[0].lines + (if tasks[0].err.Some? then [ErrorLine(tasks[0].err.value)] else Chain(tasks[1..]))
  }

  /** Everything the wrapper sends for a repository. */
  function WrapOutput(repo: string, missing: bool, clone: Outcome, tasks: seq<Outcome>): (r: seq<string>)
    ensures |r| >= 2 && r[0] == Header(repo)
  {
    [Header(repo)] +
    if missing then
      [CloneNotice] + clone.lines + (if clone.err.Some? then [ErrorLine(clone.err.value)] else Chain(tasks))
    else Chain(tasks)
  }

  /** The index of the first failing task, or the number of tasks. */
  function FirstFailing(tasks: seq<Outcome>): (k: nat)
    ensures k <= |tasks|
    ensures forall j :: 0 <= j < k ==> tasks[j].err.None?
    ensures k < |tasks| ==> tasks[k].err.Some?
  {
    if tasks == [] then 0
    else if tasks[0].err.Some? then 0
    else 1 + FirstFailing(tasks[1..])
  }

  lemma {:induction false} FirstFailingAt(tasks: seq<Outcome>, i: nat)
    requires i < |tasks| && tasks[i].err.Some?
    requires forall j :: 0 <= j < i ==> tasks[j].err.None?
    ensures FirstFailing(tasks) == i
  {
    if i > 0 {
      FirstFailingAt(tasks[1..], i - 1);
    }
  }

  /** The number of tasks the wrapper runs: none after a failed clone, up to
      and including the first failing task otherwise. */
  function TasksRun(missing: bool, clone: Outcome, tasks: seq<Outcome>): nat
  {
    if missing && clone.err.Some? then 0
    else if FirstFailing(tasks) < |tasks| then FirstFailing(tasks) + 1
    else |tasks|
  }

  /** The output channel: what was sent on it and whether it is closed.
      Sending after the close, or closing twice, is excluded by the
      preconditions. */
  class Channel {
    var sent: seq<string>
    var closed: bool

    constructor ()
      ensures sent == [] && !closed
    {
      sent := [];
      closed := false;
    }

    method Send(msg: string)
      requires !closed
      modifies this
      ensures sent == old(sent) + [msg] && !closed
    {
      sent := sent + [msg];
    }

    method Close()
      requires !closed
      modifies this
      ensures closed && sent == old(sent)
    {
      closed := true;
    }
  }

  /** A step sending its messages. */
  method SendAll(ch: Channel, lines: seq<string>)
    requires !ch.closed
    modifies ch
    ensures ch.sent == old(ch.sent) + lines && !ch.closed
  {
    for i := 0 to |lines|
      invariant ch.sent == old(ch.sent) + lines[..i] && !ch.closed
    {
      assert lines[..i + 1] == lines[..i] + [lines[i]];
      ch.Send(lines[i]);
    }
    assert lines[..|lines|] == lines;
  }

  lemma ChainStep(tasks: seq<Outcome>, i: nat)
    requires i < |tasks|
    ensures Chain(tasks[i..]) == tasks[i].lines +
      (if tasks[i].err.Some? then [ErrorLine(tasks[i].err.value)] else Chain(tasks[i + 1..]))
  {
    assert tasks[i..][1..] == tasks[i + 1..];
  }

  /** One call of the chain, task i: its messages, then on failure its
      error line and the close. What is still to be sent shrinks from
      Chain(tasks[i..]) to Chain(tasks[i + 1..]) unless the task fails. */
  method RunTask(ch: Channel, tasks: seq<Outcome>, i: nat, ghost target: seq<string>) returns (failed: bool)
    requires i < |tasks| && !ch.closed
    requires ch.sent + Chain(tasks[i..]) == target
    modifies ch
    ensures failed <==> tasks[i].err.Some?
    ensures failed ==> ch.closed && ch.sent == target
    ensures !failed ==> !ch.closed && ch.sent + Chain(tasks[i + 1..]) == target
  {
    ChainStep(tasks, i);
    ghost var before := ch.sent;
    var task := tasks[i];
    SendAll(ch, task.lines);
    failed := task.err.Some?;
    if failed {
      ch.Send(ErrorLine(task.err.value));
      ch.Close();
    } else {
      assert before + (task.lines + Chain(tasks[i + 1..])) == (before + task.lines) + Chain(tasks[i + 1..]);
    }
  }

  /** The task loop: runs the tasks in order until one fails, sends Chain,
      and closes the channel. */
  method RunTasks(ch: Channel, tasks: seq<Outcome>) returns (ran: nat)
    requires !ch.closed
    modifies ch
    ensures ch.closed
    ensures ch.sent == old(ch.sent) + Chain(tasks)
    ensures ran == if FirstFailing(tasks) < |tasks| then FirstFailing(tasks) + 1 else |tasks|
  {
    ghost var target := old(ch.sent) + Chain(tasks);
    assert tasks[0..] == tasks;
    for i := 0 to |tasks|
      invariant !ch.closed
      invariant forall j :: 0 <= j < i ==> tasks[j].err.None?
      invariant ch.sent + Chain(tasks[i..]) == target
    {
      var failed := RunTask(ch, tasks, i, target);
      if failed {
        FirstFailingAt(tasks, i);
        return i + 1;
      }
    }
    assert tasks[|tasks|..] == [];
    ch.Send("");
    ch.Close();
    ran := |tasks|;
  }

  /** The wrapper for one repository: it sends exactly WrapOutput, runs
      TasksRun tasks, and closes the channel on every path. */
  method Wrap(ch: Channel, repo: string, missing: bool, clone: Outcome, tasks: seq<Outcome>)
    returns (ran: nat)
    requires !ch.closed
    modifies ch
    ensures ch.closed
    ensures ch.sent == old(ch.sent) + WrapOutput(repo, missing, clone, tasks)
    ensures ran == TasksRun(missing, clone, tasks)
  {
    ch.Send(Header(repo));
    if missing {
      var failed := Clone(ch, clone);
      if failed {
        assert ch.sent == old(ch.sent) + ([Header(repo)] + ([CloneNotice] + clone.lines + [ErrorLine(clone.err.value)]));
        return 0;
      }
      ghost var afterClone := ch.sent;
      ran := RunTasks(ch, tasks);
      assert ch.sent == afterClone + Chain(tasks);
      assert ch.sent == old(ch.sent) + ([Header(repo)] + ([CloneNotice] + clone.lines + Chain(tasks)));
    } else {
      ran := RunTasks(ch, tasks);
      assert ch.sent == old(ch.sent) + ([Header(repo)] + Chain(tasks));
    }
  }

  /** The clone preamble: the notice and the clone's messages, then on
      failure its error line and the close. */
  method Clone(ch: Channel, clone: Outcome) returns (failed: bool)
    requires !ch.closed
    modifies ch
    ensures failed <==> clone.err.Some?
    ensures failed ==> ch.closed && ch.sent == old(ch.sent) + ([CloneNotice] + clone.lines + [ErrorLine(clone.err.value)])
    ensures !failed ==> !ch.closed && ch.sent == old(ch.sent) + ([CloneNotice] + clone.lines)
  {
    ch.Send(CloneNotice);
    SendAll(ch, clone.lines);
    failed := clone.err.Some?;
    if failed {
      ch.Send(ErrorLine(clone.err.value));
      ch.Close();
    }
  }

  /** The last message of the task loop is the empty message exactly when
      every task succeeded. */
  lemma {:induction false} ChainLast(tasks: seq<Outcome>)
    ensures var r := Chain(tasks);
      (r[|r| - 1] == "") <==> forall j :: 0 <= j < |tasks| ==> tasks[j].err.None?
  {
    if tasks != [] {
      ChainLast(tasks[1..]);
      if tasks[0].err.None? {
        assert forall j :: 1 <= j < |tasks| ==> tasks[j] == tasks[1..][j - 1];
      }
    }
  }

  /** The trailing empty message is sent exactly when the clone (if any) and
      every task succeeded; a failure always ends the output with its error
      line. */
  lemma WrapSucceeds(repo: string, missing: bool, clone: Outcome, tasks: seq<Outcome>)
    ensures var r := WrapOutput(repo, missing, clone, tasks);
      (r[|r| - 1] == "") <==>
        (!missing || clone.err.None?) && forall j :: 0 <= j < |tasks| ==> tasks[j].err.None?
  {
    ChainLast(tasks);
  }

  /** With the first failing task at k, the output is the header, the
      preamble, the messages of tasks 0..k, and the error line of task k:
      nothing of the later tasks. */
  lemma {:induction false} ChainStopsAt(tasks: seq<Outcome>, k: nat)
    requires k < |tasks| && FirstFailing(tasks) == k
    ensures Chain(tasks) == AllLines(tasks[..k + 1]) + [ErrorLine(tasks[k].err.value)]
  {
    var done := tasks[..k + 1];
    assert done[0] == tasks[0];
    if k == 0 {
      assert done[1..] == [];
    } else {
      var rest := tasks[1..];
      ChainStopsAt(rest, k - 1);
      assert done[1..] == rest[..k];
      assert rest[k - 1] == tasks[k];
    }
  }

  /** The messages of a run of steps, concatenated. */
  function AllLines(steps: seq<Outcome>): seq<string>
  {
    if steps == [] then [] else steps[0].lines + AllLines(steps[1..])
  }
}
