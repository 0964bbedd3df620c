/** utils/pr.go: the pull-request record read from and written back to the
    Bitbucket API, and the reviewer part of the payload of a new pull request.

    The source keeps a pull request as a loosely typed JSON object. Here the
    entries the tool reads or writes are typed fields (an absent entry is
    `None`), the `reviewers` entry is a list of reviewer entries
    `{"user": {"name": ...}}`, and every other entry is represented by its key
    alone, in `others`. */
module PullRequest {
  import opened Wrappers
  import Text

  /** One entry of the `reviewers` list: `{"user": {"name": name}}`. */
  datatype Reviewer = Reviewer(name: string)

  /** The reviewer entries for a list of user names, in order. */
  function Entries(names: seq<string>): (r: seq<Reviewer>)
    ensures |r| == |names|
    ensures forall i :: 0 <= i < |names| ==> r[i] == Reviewer(names[i])
  {
    if names == [] then []
    else Entries(names[..|names| - 1]) + [Reviewer(names[|names| - 1])]
  }

  /** The user names of a list of reviewer entries, in entry order. */
  function Names(entries: seq<Reviewer>): (r: seq<string>)
    ensures |r| == |entries|
    ensures forall i :: 0 <= i < |entries| ==> r[i] == entries[i].name
  {
    if entries == [] then []
    else Names(entries[..|entries| - 1]) + [entries[|entries| - 1].name]
  }

  /** Reading the names back from freshly built entries gives the names. */
  lemma NamesOfEntries(names: seq<string>)
    ensures Names(Entries(names)) == names
  {
  }

  /** AddReviewers followed by GetReviewers: the previous names followed by
      the added ones, in order. */
  lemma NamesAfterAdd(entries: seq<Reviewer>, added: seq<string>)
    ensures Names(entries + Entries(added)) == Names(entries) + added
  {
  }

  class PR {
    var id: Option<int>
    var version: Option<int>
    var title: Option<string>
    var description: Option<string>
    var reviewers: seq<Reviewer>
    /** The keys of the entries the tool never reads (`author`, `participants`, ...). */
    var others: set<string>

    constructor (id: Option<int>, version: Option<int>, title: Option<string>,
                 description: Option<string>, reviewers: seq<Reviewer>, others: set<string>)
      ensures this.id == id && this.version == version && this.title == title
      ensures this.description == description && this.reviewers == reviewers && this.others == others
    {
      this.id := id;
      this.version := version;
      this.title := title;
      this.description := description;
      this.reviewers := reviewers;
      this.others := others;
    }

    /** ID: the `id` entry, 0 when there is none. */
    function ID(): (r: int)
      reads this
      ensures id.None? ==> r == 0
      ensures id.Some? ==> r == id.value
    {
      if id.Some? then id.value else 0
    }

    /** Version: the `version` entry, 0 when there is none. */
    function Version(): (r: int)
      reads this
      ensures version.None? ==> r == 0
      ensures version.Some? ==> r == version.value
    {
      if version.Some? then version.value else 0
    }

    /** AddReviewers: appends one entry per name, in order, and touches no
        other entry. */
    method AddReviewers(names: seq<string>)
      modifies this`reviewers
      ensures reviewers == old(reviewers) + Entries(names)
    {
      for i := 0 to |names|
        invariant reviewers == old(reviewers) + Entries(names[..i])
      {
        assert names[..i + 1][..i] == names[..i];
        reviewers := reviewers + [Reviewer(names[i])];
      }
      assert names[..|names|] == names;
    }

    /** SetReviewers: replaces the list by one entry per name. */
    method SetReviewers(names: seq<string>)
      modifies this`reviewers
      ensures reviewers == Entries(names)
    {
      reviewers := Entries(names);
    }

    /** GetReviewers: one name per reviewer entry, in entry order. */
    method GetReviewers() returns (output: seq<string>)
      ensures output == Names(reviewers)
    {
      var revs := reviewers;
      var names := new string[|revs|];
      for i := 0 to |revs|
        invariant forall j :: 0 <= j < i ==> names[j] == revs[j].name
      {
        names[i] := revs[i].name;
      }
      output := names[..];
    }

    /** Removing an entry: the typed entry with that key becomes absent, any
        other key leaves `others`; the reviewer list has no absent form
        here, so `reviewers` is not a key this removes. */
    method Delete(key: string)
      requires key != "reviewers"
      modifies this
      ensures id == (if key == "id" then None else old(id))
      ensures version == (if key == "version" then None else old(version))
      ensures title == (if key == "title" then None else old(title))
      ensures description == (if key == "description" then None else old(description))
      ensures reviewers == old(reviewers)
      ensures others == old(others) - {key}
    {
      if key == "id" {
        id := None;
      } else if key == "version" {
        version := None;
      } else if key == "title" {
        title := None;
      } else if key == "description" {
        description := None;
      }
      others := others - {key};
    }
  }

  /** The reviewer template of the payload, filled with one user name. */
  function ReviewerJson(name: string): string
  {
    "{\n\t\t\"user\": {\"name\": \"" + name + "\"}\n\t}"
  }

  const JsonPrefix := "{\n\t\t\"user\": {\"name\": \""
  const JsonSuffix := "\"}\n\t}"

  /** The name is recovered from its rendered entry, so distinct names give
      distinct entries. */
  lemma ReviewerJsonName(name: string)
    ensures var s := ReviewerJson(name);
      |s| == |JsonPrefix| + |name| + |JsonSuffix| &&
      s[|JsonPrefix|..|s| - |JsonSuffix|] == name
  {
    var s := ReviewerJson(name);
    assert s == JsonPrefix + name + JsonSuffix;
    assert s[|JsonPrefix|..|s| - |JsonSuffix|] == (JsonPrefix + name + JsonSuffix)[|JsonPrefix|..|JsonPrefix| + |name|];
  }

  lemma ReviewerJsonInjective(a: string, b: string)
    requires ReviewerJson(a) == ReviewerJson(b)
    ensures a == b
  {
    ReviewerJsonName(a);
    ReviewerJsonName(b);
  }

  /** The non-empty names, in their original order. */
  function NonEmpty(names: seq<string>): (r: seq<string>)
    ensures "" !in r
    ensures forall x :: x in r <==> x in names && x != ""
    ensures |r| <= |names|
  {
    if names == [] then []
    else
      var last := names[|names| - 1];
      NonEmpty(names[..|names| - 1]) + (if last == "" then [] else [last])
  }

  /** Dropping empty names works piece by piece, so the kept names keep their
      relative order. */
  lemma {:induction false} NonEmptyAppend(a: seq<string>, b: seq<string>)
    ensures NonEmpty(a + b) == NonEmpty(a) + NonEmpty(b)
    decreases |b|
  {
    if b == [] {
      assert a + b == a;
    } else {
      var b' := b[..|b| - 1];
      assert (a + b)[..|a + b| - 1] == a + b';
      NonEmptyAppend(a, b');
    }
  }

  /** A list with no empty name is kept whole. */
  lemma {:induction false} NonEmptyKeepsAll(names: seq<string>)
    requires "" !in names
    ensures NonEmpty(names) == names
  {
    if names != [] {
      NonEmptyKeepsAll(names[..|names| - 1]);
    }
  }

  /** One rendered entry per name, in order. */
  function Rendered(names: seq<string>): (r: seq<string>)
    ensures |r| == |names|
    ensures forall i :: 0 <= i < |names| ==> r[i] == ReviewerJson(names[i])
  {
    if names == [] then []
    else Rendered(names[..|names| - 1]) + [ReviewerJson(names[|names| - 1])]
  }

  /** GenPR's reviewer loop and join: the entries of the non-empty names, in
      order, joined with ",". */
  method ReviewersField(reviewers: seq<string>) returns (field: string)
    ensures field == Text.Join(Rendered(NonEmpty(reviewers)), ",")
  {
    var revs := [];
    for i := 0 to |reviewers|
      invariant revs == Rendered(NonEmpty(reviewers[..i]))
    {
      assert reviewers[..i + 1][..i] == reviewers[..i];
      if reviewers[i] != "" {
        revs := revs + [ReviewerJson(reviewers[i])];
      }
    }
    assert reviewers[..|reviewers|] == reviewers;
    field := Text.Join(revs, ",");
  }
}
