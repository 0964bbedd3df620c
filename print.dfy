/** catalog/print.go: the text the `catalog` command prints. Each printed
    chunk is one string of the returned sequence; nothing is written to a
    terminal here. */
module Print {
  import Text
  import Order
  import opened Catalog

  const UnionSign := " \U{222A} "
  const IncludedHeader := "\nIncluded labels:\n"
  const ExcludedHeader := "\nExcluded labels:\n"

  function EmptyLabelLine(l: string): string
  {
    "  ~ " + l + " ~ (empty label)\n"
  }

  function LabelLine(l: string, members: seq<string>): string
  {
    "  ~ " + l + " ~\n" + Text.Join(members, ", ") + "\n"
  }

  /** members lists the set once each, sorted when sorting is on and in
      mapset's unspecified order otherwise. */
  ghost predicate ListsSet(members: seq<string>, s: set<string>, sortRepos: bool)
  {
    Order.Distinct(members) && Order.Elements(members) == s && (sortRepos ==> Order.Sorted(members))
  }

  /** line is what PrintLabels prints for label l. */
  ghost predicate ShowsLabel(line: string, l: string, labels: Labels, sortRepos: bool)
  {
    if l !in labels || labels[l] == {} then line == EmptyLabelLine(l)
    else exists members :: ListsSet(members, labels[l], sortRepos) && line == LabelLine(l, members)
  }

  ghost predicate ShowsLabels(lines: seq<string>, selection: seq<string>, labels: Labels, sortRepos: bool)
  {
    |lines| == |selection| &&
    forall i :: 0 <= i < |selection| ==> ShowsLabel(lines[i], selection[i], labels, sortRepos)
  }

  /** The labels PrintLabels lists: every label but the superset one when
      none is named, otherwise the named ones; sorted either way. */
  ghost function Selection(labels: Labels, args: seq<string>): seq<string>
  {
    if args == [] then Order.SortedElements(labels.Keys - {SupersetLabel}) else Order.Sort(args)
  }

  /** With sorting on, a label's line is fully determined. */
  lemma ShowsLabelSorted(line: string, l: string, labels: Labels)
    requires l in labels && labels[l] != {}
    ensures ShowsLabel(line, l, labels, true) <==> line == LabelLine(l, Order.SortedElements(labels[l]))
  {
    var sorted := Order.SortedElements(labels[l]);
    assert ListsSet(sorted, labels[l], true);
    if ShowsLabel(line, l, labels, true) {
      var members :| ListsSet(members, labels[l], true) && line == LabelLine(l, members);
      Order.SortedSetUnique(members, sorted, labels[l]);
    }
  }

  /** PrintSet's normal form of a token: its name, marked `~` when the token
      references a label; the exclusion mark is dropped. */
  function Normalize(token: string): (n: string)
    ensures IsLabelRef(n) <==> IsLabelRef(token)
    ensures !IsExclude(n)
    ensures Text.RemoveAll(n, LabelKey) == TokenName(token)
  {
    var name := TokenName(token);
    Text.RemoveAllAbsent(name, LabelKey);
    if IsLabelRef(token) then [LabelKey] + name else name
  }

  lemma NormalizeIdempotent(token: string)
    ensures Normalize(Normalize(token)) == Normalize(token)
  {
    var n := Normalize(token);
    Text.RemoveAllAbsent(Text.RemoveAll(n, LabelKey), ExcludeKey);
  }

  /** The normalised tokens of the excluding tokens (exclude) or of the
      including ones (!exclude). */
  function Normalized(tokens: seq<string>, exclude: bool): set<string>
  {
    if tokens == [] then {}
    else
      var last := tokens[|tokens| - 1];
      Normalized(tokens[..|tokens| - 1], exclude) + (if IsExclude(last) == exclude then {Normalize(last)} else {})
  }

  /** A normalised token is listed among the excludes exactly when some raw
      token with that normal form contains `!`, and among the includes
      exactly when some raw token with that form does not. */
  lemma {:induction false} NormalizedMembers(tokens: seq<string>, exclude: bool, x: string)
    ensures x in Normalized(tokens, exclude)
        <==> exists t :: t in tokens && IsExclude(t) == exclude && Normalize(t) == x
  {
    if tokens != [] {
      var init := tokens[..|tokens| - 1];
      var last := tokens[|tokens| - 1];
      NormalizedMembers(init, exclude, x);
      assert tokens == init + [last];
      assert forall t :: t in tokens <==> t in init || t == last;
    }
  }

  /** Repeated and reordered tokens collapse in the rendered expression. */
  lemma NormalizedByTokenSet(fs: seq<string>, gs: seq<string>, exclude: bool)
    requires Order.Elements(fs) == Order.Elements(gs)
    ensures Normalized(fs, exclude) == Normalized(gs, exclude)
  {
    forall x ensures x in Normalized(fs, exclude) <==> x in Normalized(gs, exclude) {
      NormalizedMembers(fs, exclude, x);
      NormalizedMembers(gs, exclude, x);
      forall t ensures t in fs <==> t in gs {
        assert t in fs <==> t in Order.Elements(fs);
        assert t in gs <==> t in Order.Elements(gs);
      }
    }
  }

  /** The set expression: the includes, then the excludes when there are any. */
  function Expression(includes: seq<string>, excludes: seq<string>): string
  {
    "(" + Text.Join(includes, UnionSign) + ")"
      + (if |excludes| > 0 then " \U{2216} (" + Text.Join(excludes, UnionSign) + ")" else "")
  }

  function SelectedLine(expression: string): string
  {
    "You've selected the following set:\n" + expression + "\n\n"
  }

  /** The 0 / 1 / many match message. */
  function MatchMessage(list: seq<string>): string
  {
    if |list| == 0 then "This matches no known repositories\n"
    else if |list| == 1 then "This matches 1 repository: " + list[0] + "\n"
    else "This matches " + Text.FormatInt(|list|) + " repositories, listed below:\n" + Text.Join(list, ", ") + "\n"
  }

  /** The label names among normalised tokens, `~` stripped, in order. */
  function LabelNames(tokens: seq<string>): (names: seq<string>)
    ensures |names| <= |tokens|
    ensures forall i :: 0 <= i < |names| ==> LabelKey !in names[i]
  {
    if tokens == [] then []
    else
      var last := tokens[|tokens| - 1];
      LabelNames(tokens[..|tokens| - 1]) + (if IsLabelRef(last) then [Text.RemoveAll(last, LabelKey)] else [])
  }

  /** A verbose section: nothing when there are no label names, otherwise
      the header followed by PrintLabels of those names. */
  ghost predicate Section(lines: seq<string>, header: string, names: seq<string>, labels: Labels, sortRepos: bool)
  {
    if names == [] then lines == []
    else |lines| >= 1 && lines[0] == header && ShowsLabels(lines[1..], Order.Sort(names), labels, sortRepos)
  }

  /** A set's members as mapset's ToSlice gives them, sorted when asked. */
  method Listing(s: set<string>, sortRepos: bool) returns (members: seq<string>)
    ensures ListsSet(members, s, sortRepos)
    ensures sortRepos ==> members == Order.SortedElements(s)
  {
    members := Order.ToSlice(s);
    if sortRepos {
      Order.SortListing(members, s);
      members := Order.Sort(members);
    }
  }

  /** The labels PrintLabels lists. */
  method SelectLabels(store: Store, args: seq<string>) returns (selection: seq<string>)
    ensures selection == Selection(store.labels, args)
  {
    selection := args;
    if |args| == 0 {
      var rest := store.labels.Keys;
      while rest != {}
        invariant rest <= store.labels.Keys
        invariant Order.Distinct(selection)
        invariant Order.Elements(selection) == (store.labels.Keys - rest) - {SupersetLabel}
        decreases |rest|
      {
        var l :| l in rest;
        rest := rest - {l};
        if l == SupersetLabel {
          continue;
        }
        Order.DistinctSnoc(selection, l);
        selection := selection + [l];
      }
      Order.SortListing(selection, store.labels.Keys - {SupersetLabel});
    }
    selection := Order.Sort(selection);
  }

  /** PrintLabels: one chunk per selected label. */
  method PrintLabels(store: Store, args: seq<string>, sortRepos: bool) returns (out: seq<string>)
    ensures ShowsLabels(out, Selection(store.labels, args), store.labels, sortRepos)
  {
    var selection := SelectLabels(store, args);
    out := [];
    for i := 0 to |selection|
      invariant |out| == i
      invariant forall j :: 0 <= j < i ==> ShowsLabel(out[j], selection[j], store.labels, sortRepos)
    {
      var l := selection[i];
      var line;
      if l in store.labels && |store.labels[l]| > 0 {
        var members := Listing(store.labels[l], sortRepos);
        line := LabelLine(l, members);
        assert ShowsLabel(line, l, store.labels, sortRepos);
      } else {
        line := EmptyLabelLine(l);
      }
      out := out + [line];
    }
  }

  /** Collects the normalised includes and excludes of the tokens. */
  method NormalizeTokens(tokens: seq<string>) returns (includeSet: set<string>, excludeSet: set<string>)
    ensures includeSet == Normalized(tokens, false) && excludeSet == Normalized(tokens, true)
  {
    includeSet, excludeSet := {}, {};
    for i := 0 to |tokens|
      invariant includeSet == Normalized(tokens[..i], false)
      invariant excludeSet == Normalized(tokens[..i], true)
    {
      assert tokens[..i + 1][..i] == tokens[..i];
      var filter := tokens[i];
      var filterName := TokenName(filter);
      if LabelKey in filter {
        filterName := [LabelKey] + filterName;
      }
      if ExcludeKey in filter {
        excludeSet := excludeSet + {filterName};
      } else {
        includeSet := includeSet + {filterName};
      }
    }
    assert tokens[..|tokens|] == tokens;
  }

  /** The verbose loop: label names among the tokens, `~` stripped. */
  method CollectLabelNames(tokens: seq<string>) returns (names: seq<string>)
    ensures names == LabelNames(tokens)
  {
    names := [];
    for i := 0 to |tokens|
      invariant names == LabelNames(tokens[..i])
    {
      assert tokens[..i + 1][..i] == tokens[..i];
      if LabelKey in tokens[i] {
        names := names + [Text.RemoveAll(tokens[i], LabelKey)];
      }
    }
    assert tokens[..|tokens|] == tokens;
  }

  /** The selected-set line of PrintSet: both sides normalised, collected
      into sets and sorted. */
  method RenderSelection(tokens: seq<string>) returns (line: string, includes: seq<string>, excludes: seq<string>)
    ensures includes == Order.SortedElements(Normalized(tokens, false))
    ensures excludes == Order.SortedElements(Normalized(tokens, true))
    ensures line == SelectedLine(Expression(includes, excludes))
  {
    var includeSet, excludeSet := NormalizeTokens(tokens);
    includes := Listing(includeSet, true);
    excludes := Listing(excludeSet, true);
    var output := "(" + Text.Join(includes, UnionSign) + ")";
    if |excludes| > 0 {
      output := output + (" \U{2216} (" + Text.Join(excludes, UnionSign) + ")");
    }
    line := SelectedLine(output);
  }

  /** One verbose section of PrintSet. */
  method PrintSection(store: Store, header: string, tokens: seq<string>, sortRepos: bool)
    returns (lines: seq<string>)
    ensures Section(lines, header, LabelNames(tokens), store.labels, sortRepos)
  {
    var names := CollectLabelNames(tokens);
    lines := [];
    if |names| > 0 {
      var shown := PrintLabels(store, names, sortRepos);
      lines := [header] + shown;
      assert lines[1..] == shown;
    }
  }

  /** PrintSet: the set expression, the match message over the resolved
      repositories (those of the filters with the unwanted-label exclusions,
      however many times they are appended) and, when verbose, the label
      sections. */
  method PrintSet(store: Store, verbose: bool, filters: seq<string>, skipUnwanted: bool,
                  unwanted: seq<string>, sortRepos: bool) returns (out: seq<string>)
    ensures var fs := Filters(filters, skipUnwanted, unwanted);
      var includes := Order.SortedElements(Normalized(fs, false));
      var excludes := Order.SortedElements(Normalized(fs, true));
      |out| >= 2 &&
      out[0] == SelectedLine(Expression(includes, excludes)) &&
      (exists list :: ListsSet(list, Resolve(store.labels, fs), sortRepos) && out[1] == MatchMessage(list)) &&
      (!verbose ==> |out| == 2) &&
      (verbose ==> exists k :: (2 <= k <= |out| &&
        Section(out[2..k], IncludedHeader, LabelNames(includes), store.labels, sortRepos) &&
        Section(out[k..], ExcludedHeader, LabelNames(excludes), store.labels, sortRepos)))
  {
    var tokens := AppendUnwanted(filters, skipUnwanted, unwanted);
    var selected, includes, excludes := RenderSelection(tokens);
    var repoSet := store.RepositoryList(tokens, skipUnwanted, unwanted);
    UnwantedAppendedTwice(store.labels, filters, skipUnwanted, unwanted);
    var repoList := Listing(repoSet, sortRepos);
    out := [selected, MatchMessage(repoList)];
    if verbose {
      var included := PrintSection(store, IncludedHeader, includes, sortRepos);
      var excluded := PrintSection(store, ExcludedHeader, excludes, sortRepos);
      out := out + included + excluded;
      assert out[2..2 + |included|] == included && out[2 + |included|..] == excluded;
    }
  }
}
