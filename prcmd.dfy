/** cmd/pr/new.go and cmd/pr/edit.go: what `pr new` and `pr edit` do with
    one repository, given the outcomes of their I/O. The branch lookup, the
    current pull request, the HTTP reply and the decoded id of the created
    pull request are parameters; the `--title` and `--description` flags are
    package-level variables in the source, a `Flags` object here. */
module PrCmd {
  import opened Wrappers
  import Text
  import Http
  import Utils
  import PullRequest

  /** The package-level flag variables `prTitle` and `prDescription`. */
  class Flags {
    var title: string
    var description: string

    constructor (title: string, description: string)
      ensures this.title == title && this.description == description
    {
      this.title := title;
      this.description := description;
    }
  }

  /** The reviewers a new pull request asks for: the looked-up list with an
      empty placeholder when it is empty, cut to its first name unless all
      reviewers are wanted. */
  method SelectReviewers(looked: seq<string>, allReviewers: bool) returns (reviewers: seq<string>)
    ensures |reviewers| >= 1
    ensures looked == [] ==> reviewers == [""]
    ensures looked != [] ==> reviewers <= looked
    ensures looked != [] && allReviewers ==> reviewers == looked
    ensures looked != [] && !allReviewers ==> reviewers == [looked[0]]
  {
    reviewers := looked;
    if |reviewers| == 0 {
      reviewers := reviewers + [""];
    }
    if !allReviewers && |reviewers| > 1 {
      reviewers := reviewers[..1];
    }
  }

  /** The placeholder reviewer renders as an empty reviewer list in the
      payload. */
  lemma PlaceholderRendersEmpty()
    ensures Text.Join(PullRequest.Rendered(PullRequest.NonEmpty([""])), ",") == ""
  {
    assert PullRequest.NonEmpty([""]) == [];
  }

  function NewMessage(id: int, branch: string, reviewers: seq<string>): string
  {
    "New pull request (#" + Text.FormatInt(id) + ") " + branch + " " + Text.FormatList(reviewers) + "\n"
  }

  function UpdatedMessage(id: int, title: string, reviewers: seq<string>): string
  {
    "Updated pull request (#" + Text.FormatInt(id) + ") " + title + " " + Text.FormatList(reviewers) + "\n"
  }

  /** newPR on one repository. `branch` is the outcome of the branch lookup,
      `reply` the reply to the POST and `decoded` the id read from its body.
      Besides its messages and error it yields the reviewers it asked for and
      the reviewer field of the payload. */
  method NewPR(flags: Flags, cfg: Utils.Config, name: string, branch: Result<string, string>,
               explicit: seq<string>, defaults: map<string, seq<string>>, allReviewers: bool,
               reply: Http.Reply, decoded: Result<int, string>)
    returns (reviewers: seq<string>, field: string, target: string, sent: seq<string>, err: Option<string>)
    modifies flags
    ensures flags.description == old(flags.description)
    ensures branch.Err? ==> flags.title == old(flags.title) && sent == [] && err == Some(branch.error)
    ensures branch.Ok? ==> flags.title == (if old(flags.title) == "" then branch.value else old(flags.title))
    ensures branch.Ok? ==>
      var looked := Utils.LookupReviewers(explicit, defaults, name);
      (looked == [] ==> reviewers == [""]) &&
      (looked != [] ==> reviewers == if allReviewers then looked else [looked[0]])
    ensures branch.Ok? ==> field == Text.Join(PullRequest.Rendered(PullRequest.NonEmpty(reviewers)), ",")
    ensures branch.Ok? ==> target == Utils.ApiPath(cfg, name)
    ensures branch.Ok? && Http.ApiGet(reply).Err? ==> sent == [] && err == Some(Http.ApiGet(reply).error)
    ensures branch.Ok? && Http.ApiGet(reply).Ok? && decoded.Err? ==> sent == [] && err == Some(decoded.error)
    ensures err.None? <==> branch.Ok? && Http.ApiGet(reply).Ok? && decoded.Ok?
    ensures err.None? ==> sent == [NewMessage(decoded.value, branch.value, reviewers)]
  {
    reviewers, field, target, sent := [], "", "", [];
    if branch.Err? {
      return reviewers, field, target, sent, Some(branch.error);
    }
    if flags.title == "" {
      flags.title := branch.value;
    }
    reviewers, field := RequestedReviewers(explicit, defaults, name, allReviewers);
    target := Utils.ApiPath(cfg, name);
    sent, err := Created(reply, decoded, branch.value, reviewers);
  }

  /** The reviewers newPR asks for and the reviewer field of its payload. */
  method RequestedReviewers(explicit: seq<string>, defaults: map<string, seq<string>>, name: string, allReviewers: bool)
    returns (reviewers: seq<string>, field: string)
    ensures var looked := Utils.LookupReviewers(explicit, defaults, name);
      (looked == [] ==> reviewers == [""]) &&
      (looked != [] ==> reviewers == if allReviewers then looked else [looked[0]])
    ensures field == Text.Join(PullRequest.Rendered(PullRequest.NonEmpty(reviewers)), ",")
  {
    var looked := Utils.LookupReviewers(explicit, defaults, name);
    reviewers := SelectReviewers(looked, allReviewers);
    field := PullRequest.ReviewersField(reviewers);
  }

  /** The end of newPR: the reply's status check, then the id read from its
      body, then the message announcing the new pull request. */
  method Created(reply: Http.Reply, decoded: Result<int, string>, branch: string, reviewers: seq<string>)
    returns (sent: seq<string>, err: Option<string>)
    ensures Http.ApiGet(reply).Err? ==> sent == [] && err == Some(Http.ApiGet(reply).error)
    ensures Http.ApiGet(reply).Ok? && decoded.Err? ==> sent == [] && err == Some(decoded.error)
    ensures err.None? <==> Http.ApiGet(reply).Ok? && decoded.Ok?
    ensures err.None? ==> sent == [NewMessage(decoded.value, branch, reviewers)]
  {
    sent := [];
    var body := Http.ApiGet(reply);
    if body.Err? {
      return sent, Some(body.error);
    }
    if decoded.Err? {
      return sent, Some(decoded.error);
    }
    sent := [NewMessage(decoded.value, branch, reviewers)];
    err := None;
  }

  /** The field updates of editPR: the title and description flags when
      they are set, the reviewer rule, and the removal of `participants` and
      `author`. */
  method ApplyEdits(flags: Flags, name: string, pr: PullRequest.PR,
                    noAppend: bool, explicit: seq<string>, defaults: map<string, seq<string>>)
    modifies pr
    ensures pr.title == (if flags.title != "" then Some(flags.title) else old(pr.title))
    ensures pr.description == (if flags.description != "" then Some(flags.description) else old(pr.description))
    ensures pr.id == old(pr.id) && pr.version == old(pr.version)
    ensures pr.others == old(pr.others) - {"participants", "author"}
    ensures noAppend && explicit == [] ==> pr.reviewers == old(pr.reviewers)
    ensures noAppend && explicit != [] ==> pr.reviewers == PullRequest.Entries(explicit)
    ensures !noAppend ==> pr.reviewers == old(pr.reviewers) + PullRequest.Entries(Utils.LookupReviewers(explicit, defaults, name))
  {
    if flags.title != "" {
      pr.title := Some(flags.title);
    }
    if flags.description != "" {
      pr.description := Some(flags.description);
    }
    UpdateReviewers(pr, noAppend, explicit, defaults, name);
    pr.Delete("participants");
    pr.Delete("author");
  }

  /** The reviewer rule of editPR: with `--no-append`, explicit reviewers
      replace the list and no reviewers leave it; otherwise the looked-up
      reviewers are appended. */
  method UpdateReviewers(pr: PullRequest.PR, noAppend: bool, explicit: seq<string>,
                         defaults: map<string, seq<string>>, name: string)
    modifies pr`reviewers
    ensures noAppend && explicit == [] ==> pr.reviewers == old(pr.reviewers)
    ensures noAppend && explicit != [] ==> pr.reviewers == PullRequest.Entries(explicit)
    ensures !noAppend ==> pr.reviewers == old(pr.reviewers) + PullRequest.Entries(Utils.LookupReviewers(explicit, defaults, name))
  {
    if noAppend {
      if |explicit| > 0 {
        pr.SetReviewers(Utils.LookupReviewers(explicit, defaults, name));
      }
    } else {
      pr.AddReviewers(Utils.LookupReviewers(explicit, defaults, name));
    }
  }

  /** editPR on one repository. `pr` holds the pull request getPR fetched,
      `fetchErr` getPR's error, and `reply` the reply to the PUT. */
  method EditPR(flags: Flags, cfg: Utils.Config, name: string, pr: PullRequest.PR, fetchErr: Option<string>,
                noAppend: bool, explicit: seq<string>, defaults: map<string, seq<string>>, reply: Http.Reply)
    returns (target: string, sent: seq<string>, err: Option<string>)
    modifies pr
    ensures fetchErr.Some? ==> sent == [] && err == fetchErr && unchanged(pr)
    ensures fetchErr.None? ==>
      pr.title == (if flags.title != "" then Some(flags.title) else old(pr.title)) &&
      pr.description == (if flags.description != "" then Some(flags.description) else old(pr.description)) &&
      pr.id == old(pr.id) && pr.version == old(pr.version) &&
      pr.others == old(pr.others) - {"participants", "author"}
    ensures fetchErr.None? ==>
      (noAppend && explicit == [] ==> pr.reviewers == old(pr.reviewers)) &&
      (noAppend && explicit != [] ==> pr.reviewers == PullRequest.Entries(explicit)) &&
      (!noAppend ==> pr.reviewers == old(pr.reviewers) + PullRequest.Entries(Utils.LookupReviewers(explicit, defaults, name)))
    ensures fetchErr.None? ==> target == Utils.ApiPathID(cfg, name, pr.ID())
    ensures fetchErr.None? && Http.ApiGet(reply).Err? ==> sent == [] && err == Some(Http.ApiGet(reply).error)
    ensures err.None? <==> fetchErr.None? && Http.ApiGet(reply).Ok?
    ensures err.None? ==>
      sent == [UpdatedMessage(pr.ID(), if pr.title.Some? then pr.title.value else "", PullRequest.Names(pr.reviewers))]
  {
    target, sent := "", [];
    if fetchErr.Some? {
      return target, sent, fetchErr;
    }
    ApplyEdits(flags, name, pr, noAppend, explicit, defaults);
    target := Utils.ApiPathID(cfg, name, pr.ID());
    var body := Http.ApiGet(reply);
    if body.Err? {
      return target, sent, Some(body.error);
    }
    var names := pr.GetReviewers();
    var title := if pr.title.Some? then pr.title.value else "";
    sent := [UpdatedMessage(pr.ID(), title, names)];
    err := None;
  }

  /** After an edit that appends, the message lists the previous reviewers
      followed by the looked-up ones; after a replacing edit, exactly the
      explicit ones. */
  lemma EditedReviewerNames(before: seq<PullRequest.Reviewer>, noAppend: bool, explicit: seq<string>,
                            defaults: map<string, seq<string>>, name: string, after: seq<PullRequest.Reviewer>)
    requires var looked := Utils.LookupReviewers(explicit, defaults, name);
      (noAppend && explicit == [] ==> after == before) &&
      (noAppend && explicit != [] ==> after == PullRequest.Entries(explicit)) &&
      (!noAppend ==> after == before + PullRequest.Entries(looked))
    ensures noAppend && explicit == [] ==> PullRequest.Names(after) == PullRequest.Names(before)
    ensures noAppend && explicit != [] ==> PullRequest.Names(after) == explicit
    ensures !noAppend && explicit != [] ==> PullRequest.Names(after) == PullRequest.Names(before) + explicit
    ensures !noAppend && explicit == [] && name in defaults ==>
      PullRequest.Names(after) == PullRequest.Names(before) + defaults[name]
  {
    var looked := Utils.LookupReviewers(explicit, defaults, name);
    if noAppend && explicit != [] {
      PullRequest.NamesOfEntries(explicit);
    }
    if !noAppend {
      PullRequest.NamesAfterAdd(before, looked);
    }
  }
}
