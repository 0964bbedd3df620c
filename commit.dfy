/** cmd/git/commit.go: the pre-run message requirement, the git arguments of
    the commit and push steps, and the order of the three steps (add, commit,
    push) on one repository. The git subprocesses are replaced by their
    outcomes: the output of a step that succeeded or the error of one that
    failed. */
module GitCommit {
  import opened Wrappers
  import Utils

  const CommitMessageKey := "commit.message"

  /** PreRunE: an amended commit needs no message; any other needs a
      non-empty `commit.message`. */
  method PreRun(cfg: Utils.Config, amend: bool) returns (err: Option<string>)
    ensures err.None? <==> amend || Utils.GetString(cfg, CommitMessageKey) != ""
    ensures err.Some? ==> err.value == Utils.RequiredMessage(CommitMessageKey)
  {
    if amend {
      return None;
    }
    err := Utils.ValidateRequiredConfig(cfg, [CommitMessageKey]);
    assert [CommitMessageKey][0] == CommitMessageKey;
    if err.Some? {
      Utils.FirstUnsetAt(cfg, [CommitMessageKey], 0);
    }
  }

  /** What a `git commit` invocation asks for. */
  datatype CommitOptions = CommitOptions(message: Option<string>, amend: bool, resetAuthor: bool, noEdit: bool)

  /** Reads the options after `commit`, as git would: `-m` takes the next
      argument as the message; an unknown flag or a `-m` with nothing after
      it is not understood. */
  function ParseOptions(args: seq<string>, acc: CommitOptions): Option<CommitOptions>
    decreases |args|
  {
    if args == [] then Some(acc)
    else if args[0] == "-m" then
      if |args| < 2 then None else ParseOptions(args[2..], acc.(message := Some(args[1])))
    else if args[0] == "--amend" then ParseOptions(args[1..], acc.(amend := true))
    else if args[0] == "--reset-author" then ParseOptions(args[1..], acc.(resetAuthor := true))
    else if args[0] == "--no-edit" then ParseOptions(args[1..], acc.(noEdit := true))
    else None
  }

  function ParseCommit(args: seq<string>): Option<CommitOptions>
  {
    if |args| >= 1 && args[0] == "commit" then ParseOptions(args[1..], CommitOptions(None, false, false, false))
    else None
  }

  /** The commit the tool intends: the message when there is one; amending
      with the author reset; and keeping the old message exactly when
      amending without a new one. */
  function Intended(msg: string, amend: bool): CommitOptions
  {
    CommitOptions(if msg != "" then Some(msg) else None, amend, amend, amend && msg == "")
  }

  /** The commit arguments are built by conditional appends. */
  method CommitArgs(msg: string, amend: bool) returns (args: seq<string>)
    ensures |args| >= 1 && args[0] == "commit"
    ensures ParseCommit(args) == Some(Intended(msg, amend))
  {
    args := ["commit"];
    if msg != "" {
      args := args + ["-m", msg];
    }
    if amend {
      args := args + ["--amend", "--reset-author"];
      if msg == "" {
        args := args + ["--no-edit"];
      }
    }
    CommitArgsMeaning(msg, amend, args);
  }

  /** Each of the four shapes the arguments can take reads back as the
      intended commit. */
  lemma CommitArgsMeaning(msg: string, amend: bool, args: seq<string>)
    requires args == ["commit"] + (if msg != "" then ["-m", msg] else [])
      + (if amend then ["--amend", "--reset-author"] + (if msg == "" then ["--no-edit"] else []) else [])
    ensures ParseCommit(args) == Some(Intended(msg, amend))
  {
    var none := CommitOptions(None, false, false, false);
    var tail := if amend then ["--amend", "--reset-author"] + (if msg == "" then ["--no-edit"] else []) else [];
    var withMsg := if msg != "" then none.(message := Some(msg)) else none;
    assert ParseOptions(tail, withMsg) == Some(Intended(msg, amend)) by {
      if amend {
        var amended := withMsg.(amend := true);
        var reset := amended.(resetAuthor := true);
        var last := if msg == "" then ["--no-edit"] else [];
        assert tail == ["--amend", "--reset-author"] + last;
        assert tail[1..] == ["--reset-author"] + last;
        assert ["--reset-author"] + last == tail[1..];
        assert (["--reset-author"] + last)[1..] == last;
        assert ParseOptions(last, reset) == Some(Intended(msg, amend)) by {
          if msg == "" {
            assert last[1..] == [];
          }
        }
        assert ParseOptions(tail[1..], amended) == ParseOptions(last, reset);
      }
    }
    if msg != "" {
      assert args[1..] == ["-m", msg] + tail;
      assert args[1..][2..] == tail;
    } else {
      assert args[1..] == tail;
    }
  }

  /** The push arguments: a forced push after an amend. */
  method PushArgs(amend: bool) returns (args: seq<string>)
    ensures |args| >= 1 && args[0] == "push"
    ensures ("-f" in args) <==> amend
    ensures |args| == (if amend then 2 else 1)
  {
    args := ["push"];
    if amend {
      args := args + ["-f"];
    }
  }

  /** What one gitCommit call did: the git commands it ran (without the
      leading `git`), what it sent on the channel, and its error. */
  datatype Run = Run(commands: seq<seq<string>>, sent: seq<string>, err: Option<string>)

  /** gitCommit: add, then commit, then push; each step runs only when the
      one before it succeeded, and the commit's output is sent before the
      push's. `addOut`, `commitOut` and `pushOut` are the outcomes of the
      three subprocesses. */
  method GitCommitStep(msg: string, amend: bool,
                       addOut: Result<string, string>,
                       commitOut: Result<string, string>,
                       pushOut: Result<string, string>) returns (run: Run)
    ensures |run.commands| >= 1 && run.commands[0] == ["add", "."]
    ensures addOut.Err? ==> run == Run([["add", "."]], [], Some(addOut.error))
    ensures addOut.Ok? ==> |run.commands| >= 2 && ParseCommit(run.commands[1]) == Some(Intended(msg, amend))
    ensures addOut.Ok? && commitOut.Err? ==>
      |run.commands| == 2 && run.sent == [] && run.err == Some(commitOut.error)
    ensures addOut.Ok? && commitOut.Ok? ==>
      |run.commands| == 3 && |run.commands[2]| >= 1 && run.commands[2][0] == "push" && ("-f" in run.commands[2] <==> amend)
    ensures addOut.Ok? && commitOut.Ok? && pushOut.Err? ==>
      run.sent == [commitOut.value] && run.err == Some(pushOut.error)
    ensures addOut.Ok? && commitOut.Ok? && pushOut.Ok? ==>
      run.sent == [commitOut.value, pushOut.value] && run.err == None
    ensures run.err.None? <==> addOut.Ok? && commitOut.Ok? && pushOut.Ok?
  {
    var commands := [["add", "."]];
    if addOut.Err? {
      return Run(commands, [], Some(addOut.error));
    }
    var args := CommitArgs(msg, amend);
    commands := commands + [args];
    if commitOut.Err? {
      return Run(commands, [], Some(commitOut.error));
    }
    var sent := [commitOut.value];
    var push := PushArgs(amend);
    commands := commands + [push];
    if pushOut.Err? {
      return Run(commands, sent, Some(pushOut.error));
    }
    sent := sent + [pushOut.value];
    return Run(commands, sent, None);
  }
}
