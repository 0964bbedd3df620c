/** call/do.go: resolving the command-line arguments to the repositories to
    work on, and running a wrapper on each of them with output printed in
    that order.

    The wrapper is represented by the messages it sends for each repository
    (`sends`, none for a repository it has no entry for). Each repository
    has its own bounded buffer; the workers run concurrently in the source,
    but the reader drains the buffers strictly one after the other, so the
    worker of each repository is simulated here in turn, interleaved with
    the reader whenever its buffer is full. */
module CallDo {
  import Order

  /** The default of `channels.buffer-size`, the capacity Do gives each
      repository's buffer. */
  const DefaultChannelBuffer := 100

  /** What one argument stands for: the members of its alias when the alias
      has any, in their listed order, otherwise the argument itself. */
  function Expansion(arg: string, aliases: map<string, seq<string>>): (r: seq<string>)
    ensures |r| >= 1
    ensures arg in aliases && |aliases[arg]| > 0 ==> r == aliases[arg]
    ensures !(arg in aliases && |aliases[arg]| > 0) ==> r == [arg]
  {
    if arg in aliases && |aliases[arg]| > 0 then aliases[arg] else [arg]
  }

  /** The arguments with every alias expanded one level deep. */
  function Expand(args: seq<string>, aliases: map<string, seq<string>>): seq<string>
  {
    if args == [] then [] else Expand(args[..|args| - 1], aliases) + Expansion(args[|args| - 1], aliases)
  }

  lemma {:induction false} ExpandAppend(a: seq<string>, b: seq<string>, aliases: map<string, seq<string>>)
    ensures Expand(a + b, aliases) == Expand(a, aliases) + Expand(b, aliases)
    decreases |b|
  {
    if b == [] {
      assert a + b == a;
    } else {
      var b' := b[..|b| - 1];
      assert (a + b)[..|a + b| - 1] == a + b';
      ExpandAppend(a, b', aliases);
    }
  }

  /** A name is in the expansion exactly when it is what one of the
      arguments stands for. */
  lemma {:induction false} ExpandMembers(args: seq<string>, aliases: map<string, seq<string>>, x: string)
    ensures x in Expand(args, aliases) <==> exists i :: 0 <= i < |args| && x in Expansion(args[i], aliases)
  {
    if args != [] {
      var init := args[..|args| - 1];
      ExpandMembers(init, aliases, x);
      assert forall i :: 0 <= i < |init| ==> init[i] == args[i];
      if x in Expansion(args[|args| - 1], aliases) {
        assert 0 <= |args| - 1 < |args|;
      }
    }
  }

  /** An alias with a non-empty list expands to exactly that list: its
      members are not expanded again, even when they are aliases too. */
  lemma ExpandOneLevel(a: string, aliases: map<string, seq<string>>)
    requires a in aliases && |aliases[a]| > 0
    ensures Expand([a], aliases) == aliases[a]
  {
    assert [a][..0] == [];
  }

  /** The alias-expansion loop. */
  method ExpandArguments(args: seq<string>, aliases: map<string, seq<string>>) returns (repos: seq<string>)
    ensures repos == Expand(args, aliases)
  {
    repos := [];
    for i := 0 to |args|
      invariant repos == Expand(args[..i], aliases)
    {
      assert args[..i + 1][..i] == args[..i];
      var list := if args[i] in aliases then aliases[args[i]] else [];
      if |list| > 0 {
        repos := repos + list;
      } else {
        repos := repos + [args[i]];
      }
    }
    assert args[..|args|] == args;
  }

  /** processArguments: the expanded arguments without duplicates, in the
      unspecified order of a map's keys, or sorted when `sortRepos` is on. */
  method ProcessArguments(args: seq<string>, aliases: map<string, seq<string>>, sortRepos: bool)
    returns (repos: seq<string>)
    ensures Order.Distinct(repos)
    ensures Order.Elements(repos) == Order.Elements(Expand(args, aliases))
    ensures |repos| <= |Expand(args, aliases)|
    ensures sortRepos ==> repos == Order.SortedElements(Order.Elements(Expand(args, aliases)))
  {
    var expanded := ExpandArguments(args, aliases);
    var repoMap := KeySet(expanded);
    repos := Order.ToSlice(repoMap);
    Order.ElementsBound(expanded);
    if sortRepos {
      Order.SortListing(repos, repoMap);
      Order.SortKeepsDistinct(repos);
      repos := Order.Sort(repos);
    }
  }

  /** The de-duplication map's keys: every repository once. */
  method KeySet(repos: seq<string>) returns (repoMap: set<string>)
    ensures repoMap == Order.Elements(repos)
  {
    repoMap := {};
    for i := 0 to |repos|
      invariant repoMap == Order.Elements(repos[..i])
    {
      assert Order.Elements(repos[..i + 1]) == Order.Elements(repos[..i]) + {repos[i]} by {
        assert repos[..i + 1] == repos[..i] + [repos[i]];
      }
      repoMap := repoMap + {repos[i]};
    }
    assert repos[..|repos|] == repos;
  }

  /** A buffered channel: a FIFO queue of at most `capacity` messages that
      is closed once. */
  class Buffer {
    const capacity: nat
    var contents: seq<string>
    var closed: bool

    ghost predicate Valid()
      reads this
    {
      |contents| <= capacity
    }

    constructor (capacity: nat)
      ensures this.capacity == capacity && contents == [] && !closed && Valid()
    {
      this.capacity := capacity;
      contents := [];
      closed := false;
    }

    /** A send: only while there is room and the channel is open. */
    method Push(msg: string)
      requires Valid() && !closed && |contents| < capacity
      modifies this`contents
      ensures Valid() && contents == old(contents) + [msg]
    {
      contents := contents + [msg];
    }

    /** A receive: the oldest message. */
    method Pop() returns (msg: string)
      requires Valid() && |contents| > 0
      modifies this`contents
      ensures Valid() && msg == old(contents)[0] && contents == old(contents)[1..]
    {
      msg := contents[0];
      contents := contents[1..];
    }

    method Close()
      requires !closed
      modifies this`closed
      ensures closed
    {
      closed := true;
    }
  }

  /** A worker that has been started: it has sent the first k of its
      messages, which all still sit in the buffer, and it has closed the
      buffer exactly when it sent them all. */
  ghost predicate Started(b: Buffer, msgs: seq<string>, k: nat)
    reads b
  {
    b.Valid() && k <= |msgs| && b.contents == msgs[..k] && (b.closed <==> k == |msgs|)
  }

  /** A worker running before anyone reads: it sends until its buffer is full
      (and blocks) or until it has sent everything (and closes). */
  method Prefill(b: Buffer, msgs: seq<string>) returns (k: nat)
    requires b.Valid() && b.contents == [] && !b.closed
    modifies b
    ensures k == if |msgs| <= b.capacity then |msgs| else b.capacity
    ensures Started(b, msgs, k)
  {
    k := 0;
    while k < |msgs| && |b.contents| < b.capacity
      invariant k <= |msgs| && b.Valid() && !b.closed && b.contents == msgs[..k] && |b.contents| == k
      decreases |msgs| - k
    {
      assert msgs[..k + 1] == msgs[..k] + [msgs[k]];
      b.Push(msgs[k]);
      k := k + 1;
    }
    if k == |msgs| {
      b.Close();
    }
  }

  /** The reader draining a started worker's buffer: it takes a message out
      whenever the buffer is full so that the worker can send its next one,
      and empties the buffer after the close. It gets every message once, in
      send order. */
  method Resume(b: Buffer, msgs: seq<string>, k: nat) returns (received: seq<string>)
    requires Started(b, msgs, k) && b.capacity >= 1
    modifies b
    ensures received == msgs
    ensures b.closed && b.contents == []
  {
    received := [];
    for i := k to |msgs|
      invariant b.Valid() && (b.closed <==> k == |msgs|)
      invariant received + b.contents == msgs[..i]
    {
      received := Handoff(b, msgs[..i], received, msgs[i]);
      assert msgs[..i + 1] == msgs[..i] + [msgs[i]];
    }
    if !b.closed {
      b.Close();
    }
    assert msgs[..|msgs|] == msgs;
    received := Drain(b, msgs, received);
  }

  /** One message handed over: the reader makes room if the buffer is full,
      then the worker sends `msg`. */
  method Handoff(b: Buffer, sent: seq<string>, received: seq<string>, msg: string)
    returns (received': seq<string>)
    requires b.Valid() && !b.closed && b.capacity >= 1 && received + b.contents == sent
    modifies b
    ensures b.Valid() && !b.closed && received' + b.contents == sent + [msg]
  {
    received' := received;
    if |b.contents| == b.capacity {
      ghost var before := b.contents;
      var m := b.Pop();
      assert [m] + b.contents == before;
      received' := received + [m];
    }
    b.Push(msg);
  }

  /** The reader emptying a closed buffer. */
  method Drain(b: Buffer, msgs: seq<string>, received: seq<string>) returns (received': seq<string>)
    requires b.Valid() && b.closed && received + b.contents == msgs
    modifies b
    ensures received' == msgs
    ensures b.closed && b.contents == []
  {
    received' := received;
    while |b.contents| > 0
      invariant b.Valid() && b.closed && received' + b.contents == msgs
      decreases |b.contents|
    {
      ghost var before := b.contents;
      var m := b.Pop();
      assert [m] + b.contents == before;
      received' := received' + [m];
    }
  }

  /** One worker started and then drained before the next one starts:
      the reader gets every message once, in send order. */
  method Transfer(b: Buffer, msgs: seq<string>) returns (received: seq<string>)
    requires b.Valid() && b.contents == [] && !b.closed && b.capacity >= 1
    modifies b
    ensures received == msgs
    ensures b.closed && b.contents == []
  {
    var k := Prefill(b, msgs);
    received := Resume(b, msgs, k);
  }

  /** The messages the wrapper sends for a repository. */
  function Sent(sends: map<string, seq<string>>, repo: string): seq<string>
  {
    if repo in sends then sends[repo] else []
  }

  /** `fmt.Println` of each message. */
  function Println(msgs: seq<string>): (r: seq<string>)
    ensures |r| == |msgs|
    ensures forall i :: 0 <= i < |msgs| ==> r[i] == msgs[i] + "\n"
  {
    if msgs == [] then [] else Println(msgs[..|msgs| - 1]) + [msgs[|msgs| - 1] + "\n"]
  }

  /** The printed output: each repository's messages, repository after
      repository. */
  function Output(repos: seq<string>, sends: map<string, seq<string>>): seq<string>
  {
    if repos == [] then [] else Output(repos[..|repos| - 1], sends) + Println(Sent(sends, repos[|repos| - 1]))
  }

  lemma OutputSnoc(repos: seq<string>, r: string, sends: map<string, seq<string>>)
    ensures Output(repos + [r], sends) == Output(repos, sends) + Println(Sent(sends, r))
  {
    assert (repos + [r])[..|repos|] == repos;
  }

  lemma {:induction false} OutputAppend(a: seq<string>, b: seq<string>, sends: map<string, seq<string>>)
    ensures Output(a + b, sends) == Output(a, sends) + Output(b, sends)
    decreases |b|
  {
    if b == [] {
      assert a + b == a;
    } else {
      var b', last := b[..|b| - 1], b[|b| - 1];
      assert b == b' + [last];
      assert a + b == (a + b') + [last];
      OutputAppend(a, b', sends);
      OutputAppendStep(a, b', last, sends);
    }
  }

  /** The inductive step of OutputAppend: one more repository at the end. */
  lemma OutputAppendStep(a: seq<string>, b: seq<string>, last: string, sends: map<string, seq<string>>)
    requires Output(a + b, sends) == Output(a, sends) + Output(b, sends)
    ensures Output((a + b) + [last], sends) == Output(a, sends) + Output(b + [last], sends)
  {
    OutputSnoc(a + b, last, sends);
    OutputSnoc(b, last, sends);
    Order.ConcatAssoc(Output(a, sends), Output(b, sends), Println(Sent(sends, last)));
  }

  /** The output of the repository at position i sits after that of every
      earlier repository and before that of every later one. */
  lemma OutputAt(repos: seq<string>, sends: map<string, seq<string>>, i: nat)
    requires i < |repos|
    ensures Output(repos, sends)
         == Output(repos[..i], sends) + Println(Sent(sends, repos[i])) + Output(repos[i + 1..], sends)
  {
    var head := repos[..i + 1];
    assert repos == head + repos[i + 1..];
    OutputAppend(head, repos[i + 1..], sends);
    assert head[..i] == repos[..i];
    assert Output(head, sends) == Output(repos[..i], sends) + Println(Sent(sends, repos[i]));
  }

  /** The `sync` setting, which DoAsync and DoSync overwrite. */
  class Settings {
    var useSync: bool

    constructor (useSync: bool)
      ensures this.useSync == useSync
    {
      this.useSync := useSync;
    }
  }

  /** Do: resolves the arguments, makes one buffer of `capacity` per
      repository, and prints every repository's messages in resolved order.
      With `sync` on, each worker is started and drained before the next
      one starts; with it off, every worker is started first and the reader
      then drains buffer 0, then buffer 1, and so on. Either way the printed
      sequence is the same. */
  method Do(settings: Settings, args: seq<string>, aliases: map<string, seq<string>>, sortRepos: bool,
            capacity: nat, sends: map<string, seq<string>>)
    returns (repos: seq<string>, buffers: seq<Buffer>, printed: seq<string>)
    requires capacity >= 1
    ensures Order.Distinct(repos) && Order.Elements(repos) == Order.Elements(Expand(args, aliases))
    ensures sortRepos ==> repos == Order.SortedElements(Order.Elements(Expand(args, aliases)))
    ensures |repos| <= |Expand(args, aliases)|
    ensures |buffers| == |repos|
    ensures forall j :: 0 <= j < |buffers| ==> buffers[j].capacity == capacity && buffers[j].closed
    ensures printed == Output(repos, sends)
  {
    repos := ProcessArguments(args, aliases, sortRepos);
    buffers := MakeBuffers(|repos|, capacity);
    if settings.useSync {
      printed := PrintSync(repos, buffers, sends);
    } else {
      var ks := StartWorkers(repos, buffers, sends);
      printed := PrintAsync(repos, buffers, sends, ks);
    }
  }

  /** One new, empty, open buffer of the given capacity per repository. */
  method MakeBuffers(n: nat, capacity: nat) returns (buffers: seq<Buffer>)
    ensures |buffers| == n
    ensures forall j :: 0 <= j < n ==> fresh(buffers[j])
    ensures forall j :: 0 <= j < n ==>
      buffers[j].capacity == capacity && buffers[j].Valid() && buffers[j].contents == [] && !buffers[j].closed
    ensures forall j, k :: 0 <= j < k < n ==> buffers[j] != buffers[k]
  {
    buffers := [];
    for i := 0 to n
      invariant |buffers| == i
      invariant forall j :: 0 <= j < i ==> fresh(buffers[j])
      invariant forall j :: 0 <= j < i ==>
        buffers[j].capacity == capacity && buffers[j].Valid() && buffers[j].contents == [] && !buffers[j].closed
      invariant forall j, k :: 0 <= j < k < i ==> buffers[j] != buffers[k]
    {
      var b := new Buffer(capacity);
      buffers := buffers + [b];
    }
  }

  /** The `sync` branch: start worker i, print everything it sends until it
      closes its buffer, then go on to worker i + 1. */
  method PrintSync(repos: seq<string>, buffers: seq<Buffer>, sends: map<string, seq<string>>)
    returns (printed: seq<string>)
    requires |buffers| == |repos|
    requires forall j :: 0 <= j < |buffers| ==>
      buffers[j].capacity >= 1 && buffers[j].Valid() && buffers[j].contents == [] && !buffers[j].closed
    requires forall j, k :: 0 <= j < k < |buffers| ==> buffers[j] != buffers[k]
    modifies set j | 0 <= j < |buffers| :: buffers[j]
    ensures forall j :: 0 <= j < |buffers| ==> buffers[j].closed
    ensures printed == Output(repos, sends)
  {
    printed := [];
    for i := 0 to |repos|
      invariant printed == Output(repos[..i], sends)
      invariant forall j :: 0 <= j < i ==> buffers[j].closed
      invariant forall j :: i <= j < |repos| ==>
        buffers[j].Valid() && buffers[j].contents == [] && !buffers[j].closed
    {
      var got := Transfer(buffers[i], Sent(sends, repos[i]));
      OutputStep(repos, sends, i, printed, got);
      printed := printed + Println(got);
    }
    assert repos[..|repos|] == repos;
  }

  /** The asynchronous branch, first half: every worker is started before
      anything is read, and each runs until its buffer is full or it has
      sent (and closed) everything. */
  method StartWorkers(repos: seq<string>, buffers: seq<Buffer>, sends: map<string, seq<string>>)
    returns (ks: seq<nat>)
    requires |buffers| == |repos|
    requires forall j :: 0 <= j < |buffers| ==>
      buffers[j].Valid() && buffers[j].contents == [] && !buffers[j].closed
    requires forall j, k :: 0 <= j < k < |buffers| ==> buffers[j] != buffers[k]
    modifies set j | 0 <= j < |buffers| :: buffers[j]
    ensures |ks| == |buffers|
    ensures forall j :: 0 <= j < |buffers| ==> Started(buffers[j], Sent(sends, repos[j]), ks[j])
  {
    ks := [];
    for i := 0 to |repos|
      invariant |ks| == i
      invariant forall j :: 0 <= j < i ==> Started(buffers[j], Sent(sends, repos[j]), ks[j])
      invariant forall j :: i <= j < |repos| ==>
        buffers[j].Valid() && buffers[j].contents == [] && !buffers[j].closed
    {
      var k := Prefill(buffers[i], Sent(sends, repos[i]));
      ks := ks + [k];
    }
  }

  /** The asynchronous branch, second half: the reader drains buffer 0 until
      it is closed, then buffer 1, and so on, and each waiting worker sends
      the rest of its messages as room frees up. */
  method PrintAsync(repos: seq<string>, buffers: seq<Buffer>, sends: map<string, seq<string>>, ks: seq<nat>)
    returns (printed: seq<string>)
    requires |buffers| == |repos| && |ks| == |buffers|
    requires forall j :: 0 <= j < |buffers| ==>
      buffers[j].capacity >= 1 && Started(buffers[j], Sent(sends, repos[j]), ks[j])
    requires forall j, k :: 0 <= j < k < |buffers| ==> buffers[j] != buffers[k]
    modifies set j | 0 <= j < |buffers| :: buffers[j]
    ensures forall j :: 0 <= j < |buffers| ==> buffers[j].closed
    ensures printed == Output(repos, sends)
  {
    printed := [];
    for i := 0 to |repos|
      invariant printed == Output(repos[..i], sends)
      invariant Reading(repos, buffers, sends, ks, i)
    {
      var got := ReadNext(repos, buffers, sends, ks, i);
      OutputStep(repos, sends, i, printed, got);
      printed := printed + Println(got);
    }
    assert repos[..|repos|] == repos;
  }

  /** The asynchronous reader before buffer i: the buffers before i are
      closed, and the workers from i on are started and waiting. */
  ghost predicate Reading(repos: seq<string>, buffers: seq<Buffer>, sends: map<string, seq<string>>, ks: seq<nat>, i: nat)
    reads set j | 0 <= j < |buffers| :: buffers[j]
  {
    |buffers| == |repos| && |ks| == |buffers| && i <= |buffers|
    && (forall j, k :: 0 <= j < k < |buffers| ==> buffers[j] != buffers[k])
    && (forall j :: 0 <= j < i ==> buffers[j].closed)
    && (forall j :: i <= j < |repos| ==> buffers[j].capacity >= 1 && Started(buffers[j], Sent(sends, repos[j]), ks[j]))
  }

  /** The asynchronous reader on buffer i: it gets all of worker i's
      messages, and leaves the other buffers as they were. */
  method ReadNext(repos: seq<string>, buffers: seq<Buffer>, sends: map<string, seq<string>>, ks: seq<nat>, i: nat)
    returns (got: seq<string>)
    requires i < |repos| && Reading(repos, buffers, sends, ks, i)
    modifies buffers[i]
    ensures got == Sent(sends, repos[i])
    ensures Reading(repos, buffers, sends, ks, i + 1)
  {
    got := Resume(buffers[i], Sent(sends, repos[i]), ks[i]);
  }

  /** One repository's messages are printed after those of the repositories
      before it. */
  lemma OutputStep(repos: seq<string>, sends: map<string, seq<string>>, i: nat, printed: seq<string>, got: seq<string>)
    requires i < |repos| && printed == Output(repos[..i], sends) && got == Sent(sends, repos[i])
    ensures printed + Println(got) == Output(repos[..i + 1], sends)
  {
    assert repos[..i + 1] == repos[..i] + [repos[i]];
    OutputSnoc(repos[..i], repos[i], sends);
  }

  /** DoAsync: switches `sync` off, then runs Do. */
  method DoAsync(settings: Settings, args: seq<string>, aliases: map<string, seq<string>>, sortRepos: bool,
                 capacity: nat, sends: map<string, seq<string>>)
    returns (repos: seq<string>, printed: seq<string>)
    requires capacity >= 1
    modifies settings
    ensures !settings.useSync
    ensures Order.Distinct(repos) && Order.Elements(repos) == Order.Elements(Expand(args, aliases))
    ensures sortRepos ==> repos == Order.SortedElements(Order.Elements(Expand(args, aliases)))
    ensures |repos| <= |Expand(args, aliases)|
    ensures printed == Output(repos, sends)
  {
    settings.useSync := false;
    var buffers;
    repos, buffers, printed := Do(settings, args, aliases, sortRepos, capacity, sends);
  }

  /** DoSync: switches `sync` on, then runs Do. */
  method DoSync(settings: Settings, args: seq<string>, aliases: map<string, seq<string>>, sortRepos: bool,
                capacity: nat, sends: map<string, seq<string>>)
    returns (repos: seq<string>, printed: seq<string>)
    requires capacity >= 1
    modifies settings
    ensures settings.useSync
    ensures Order.Distinct(repos) && Order.Elements(repos) == Order.Elements(Expand(args, aliases))
    ensures sortRepos ==> repos == Order.SortedElements(Order.Elements(Expand(args, aliases)))
    ensures |repos| <= |Expand(args, aliases)|
    ensures printed == Output(repos, sends)
  {
    settings.useSync := true;
    var buffers;
    repos, buffers, printed := Do(settings, args, aliases, sortRepos, capacity, sends);
  }
}
