/** catalog/catalog.go: the repository catalog, the label index built from it
    and from configured aliases, and the filter algebra that resolves filter
    tokens to a set of repository names.

    A filter token is a plain repository name or a label reference (it
    contains `~`), and either way may be an exclusion (it contains `!`); its
    name is the token with every `~` and `!` removed. The resolved set is the
    union of what the including tokens contribute minus the union of what the
    excluding tokens contribute. */
module Catalog {
  import opened Wrappers
  import Text
  import Order
  import opened Records

  const LabelKey := '~'
  const ExcludeKey := '!'
  const SupersetLabel := "all"

  type Labels = map<string, set<string>>

  predicate IsExclude(token: string)
  {
    ExcludeKey in token
  }

  predicate IsLabelRef(token: string)
  {
    LabelKey in token
  }

  /** The token with every `~` and `!` removed, wherever they occur. */
  function TokenName(token: string): (name: string)
    ensures LabelKey !in name && ExcludeKey !in name
    ensures forall c :: c != LabelKey && c != ExcludeKey ==> (c in name <==> c in token)
  {
    Text.RemoveAll(Text.RemoveAll(token, LabelKey), ExcludeKey)
  }

  /** The members of a label, empty when the label is not defined. */
  function Members(labels: Labels, key: string): set<string>
  {
    if key in labels then labels[key] else {}
  }

  /** What one token adds to its side: a label's members (nothing for an
      unknown label), or the literal name itself, known or not. */
  function Contribution(labels: Labels, token: string): set<string>
  {
    if IsLabelRef(token) then Members(labels, TokenName(token)) else {TokenName(token)}
  }

  /** The union of the contributions of the excluding tokens (exclude) or of
      the including ones (!exclude). */
  function Side(labels: Labels, tokens: seq<string>, exclude: bool): set<string>
  {
    if tokens == [] then {}
    else
      var last := tokens[|tokens| - 1];
      Side(labels, tokens[..|tokens| - 1], exclude)
        + (if IsExclude(last) == exclude then Contribution(labels, last) else {})
  }

  /** One more token adds its contribution to its own side only. */
  lemma SideStep(labels: Labels, tokens: seq<string>, i: nat)
    requires i < |tokens|
    ensures var c := Contribution(labels, tokens[i]);
      Side(labels, tokens[..i + 1], false) == Side(labels, tokens[..i], false) + (if IsExclude(tokens[i]) then {} else c) &&
      Side(labels, tokens[..i + 1], true) == Side(labels, tokens[..i], true) + (if IsExclude(tokens[i]) then c else {})
  {
    assert tokens[..i + 1][..i] == tokens[..i];
  }

  /** The resolved set of a token list: includes minus excludes. */
  function Resolve(labels: Labels, tokens: seq<string>): set<string>
  {
    Side(labels, tokens, false) - Side(labels, tokens, true)
  }

  /** One exclude-label token `<label>~!` per unwanted label. */
  function UnwantedTokens(unwanted: seq<string>): (tokens: seq<string>)
    ensures |tokens| == |unwanted|
    ensures forall i :: 0 <= i < |unwanted| ==> tokens[i] == unwanted[i] + [LabelKey, ExcludeKey]
  {
    if unwanted == [] then []
    else UnwantedTokens(unwanted[..|unwanted| - 1]) + [unwanted[|unwanted| - 1] + [LabelKey, ExcludeKey]]
  }

  /** The token list RepositoryList evaluates: the filters, followed by the
      unwanted-label exclusions when skipping unwanted labels. */
  function Filters(filters: seq<string>, skipUnwanted: bool, unwanted: seq<string>): seq<string>
  {
    if skipUnwanted then filters + UnwantedTokens(unwanted) else filters
  }

  /** The loop appending the unwanted-label exclusions to the filters. */
  method AppendUnwanted(filters: seq<string>, skipUnwanted: bool, unwanted: seq<string>)
    returns (tokens: seq<string>)
    ensures tokens == Filters(filters, skipUnwanted, unwanted)
  {
    tokens := filters;
    if skipUnwanted {
      for i := 0 to |unwanted|
        invariant tokens == filters + UnwantedTokens(unwanted[..i])
      {
        assert unwanted[..i + 1][..i] == unwanted[..i];
        tokens := tokens + [unwanted[i] + [LabelKey, ExcludeKey]];
      }
      assert unwanted[..|unwanted|] == unwanted;
    }
  }

  /** Membership in a side, without reference to token order. */
  lemma {:induction false} SideMembers(labels: Labels, tokens: seq<string>, exclude: bool, x: string)
    ensures x in Side(labels, tokens, exclude)
        <==> exists t :: t in tokens && IsExclude(t) == exclude && x in Contribution(labels, t)
  {
    if tokens != [] {
      var init := tokens[..|tokens| - 1];
      var last := tokens[|tokens| - 1];
      SideMembers(labels, init, exclude, x);
      assert tokens == init + [last];
      if x in Side(labels, tokens, exclude) {
        if x in Side(labels, init, exclude) {
          var t :| t in init && IsExclude(t) == exclude && x in Contribution(labels, t);
          assert t in tokens;
        } else {
          assert last in tokens;
        }
      }
      if exists t :: t in tokens && IsExclude(t) == exclude && x in Contribution(labels, t) {
        var t :| t in tokens && IsExclude(t) == exclude && x in Contribution(labels, t);
        if t != last {
          assert t in init;
        }
      }
    }
  }

  /** The resolved set depends only on which tokens occur: reordering the
      tokens or repeating any of them changes nothing. */
  lemma ResolveDependsOnTokenSet(labels: Labels, fs: seq<string>, gs: seq<string>)
    requires Order.Elements(fs) == Order.Elements(gs)
    ensures Resolve(labels, fs) == Resolve(labels, gs)
  {
    forall x, exclude: bool ensures x in Side(labels, fs, exclude) <==> x in Side(labels, gs, exclude) {
      SideMembers(labels, fs, exclude, x);
      SideMembers(labels, gs, exclude, x);
      forall t ensures t in fs <==> t in gs {
        assert t in fs <==> t in Order.Elements(fs);
        assert t in gs <==> t in Order.Elements(gs);
      }
    }
    assert Side(labels, fs, false) == Side(labels, gs, false);
    assert Side(labels, fs, true) == Side(labels, gs, true);
  }

  lemma ResolveIgnoresOrder(labels: Labels, fs: seq<string>, gs: seq<string>)
    requires multiset(fs) == multiset(gs)
    ensures Resolve(labels, fs) == Resolve(labels, gs)
  {
    forall t ensures t in Order.Elements(fs) <==> t in Order.Elements(gs) {
      assert t in fs <==> t in multiset(fs);
      assert t in gs <==> t in multiset(gs);
    }
    ResolveDependsOnTokenSet(labels, fs, gs);
  }

  lemma ResolveIgnoresDuplicate(labels: Labels, fs: seq<string>, i: nat)
    requires i < |fs|
    ensures Resolve(labels, fs + [fs[i]]) == Resolve(labels, fs)
  {
    forall t ensures t in Order.Elements(fs + [fs[i]]) <==> t in Order.Elements(fs) {
      assert t in fs + [fs[i]] <==> t in fs || t == fs[i];
    }
    ResolveDependsOnTokenSet(labels, fs + [fs[i]], fs);
  }

  /** Difference dominates: what an excluding token contributes is never in
      the result, whatever includes it. */
  lemma ExcludedNeverResolved(labels: Labels, fs: seq<string>, t: string)
    requires t in fs && IsExclude(t)
    ensures Contribution(labels, t) !! Resolve(labels, fs)
  {
    forall x | x in Contribution(labels, t) ensures x in Side(labels, fs, true) {
      SideMembers(labels, fs, true, x);
    }
  }

  /** A reference to a label that does not exist contributes nothing and is
      not an error, on either side. */
  lemma UnknownLabelInert(labels: Labels, fs: seq<string>, t: string)
    requires IsLabelRef(t) && TokenName(t) !in labels
    ensures Resolve(labels, fs + [t]) == Resolve(labels, fs)
  {
    assert (fs + [t])[..|fs|] == fs;
  }

  /** A literal include always contributes its name, whether or not the name
      is in the catalog, unless something excludes it. */
  lemma LiteralResolved(labels: Labels, fs: seq<string>, t: string)
    requires t in fs && !IsLabelRef(t) && !IsExclude(t)
    requires TokenName(t) !in Side(labels, fs, true)
    ensures TokenName(t) in Resolve(labels, fs)
  {
    SideMembers(labels, fs, false, TokenName(t));
  }

  /** The name of an unwanted-label token is the unwanted label's own name
      (with any `~` and `!` it contains removed). */
  lemma UnwantedTokenName(u: string)
    ensures var t := u + [LabelKey, ExcludeKey];
      IsExclude(t) && IsLabelRef(t) && TokenName(t) == TokenName(u)
  {
    var t := u + [LabelKey, ExcludeKey];
    assert t[|u|] == LabelKey && t[|u| + 1] == ExcludeKey;
    Text.RemoveAllAppend(u, [LabelKey, ExcludeKey], LabelKey);
    assert Text.RemoveAll([LabelKey, ExcludeKey], LabelKey) == [ExcludeKey];
    Text.RemoveAllAppend(Text.RemoveAll(u, LabelKey), [ExcludeKey], ExcludeKey);
    assert Text.RemoveAll([ExcludeKey], ExcludeKey) == [];
    assert Text.RemoveAll(u, LabelKey) + [ExcludeKey] == Text.RemoveAll(t, LabelKey);
  }

  /** With unwanted labels skipped, no member of an unwanted label that
      exists appears in the result, even when it is included explicitly. */
  lemma UnwantedExcluded(labels: Labels, fs: seq<string>, unwanted: seq<string>, i: nat)
    requires i < |unwanted| && TokenName(unwanted[i]) in labels
    ensures labels[TokenName(unwanted[i])] !! Resolve(labels, Filters(fs, true, unwanted))
  {
    var tokens := Filters(fs, true, unwanted);
    var t := unwanted[i] + [LabelKey, ExcludeKey];
    UnwantedTokenName(unwanted[i]);
    assert tokens[|fs| + i] == t;
    ExcludedNeverResolved(labels, tokens, t);
  }

  /** Appending the unwanted-label tokens a second time changes nothing. */
  lemma UnwantedAppendedTwice(labels: Labels, fs: seq<string>, skipUnwanted: bool, unwanted: seq<string>)
    ensures Resolve(labels, Filters(Filters(fs, skipUnwanted, unwanted), skipUnwanted, unwanted))
         == Resolve(labels, Filters(fs, skipUnwanted, unwanted))
  {
    if skipUnwanted {
      var extra := UnwantedTokens(unwanted);
      var once := fs + extra;
      var twice := once + extra;
      assert Order.Elements(twice) == Order.Elements(once);
      ResolveDependsOnTokenSet(labels, twice, once);
    }
  }

  // ---- The label index ----

  /** The catalog and the label index, taken together. */
  datatype Snapshot = Snapshot(repos: map<string, Repository>, labels: Labels)

  /** The index after adding `name` to each label in `ls`, creating labels on
      first reference. */
  function AddRepoLabels(labels: Labels, name: string, ls: seq<string>): (r: Labels)
    ensures r.Keys == labels.Keys + Order.Elements(ls)
  {
    map k | k in labels.Keys + Order.Elements(ls) :: Members(labels, k) + (if k in ls then {name} else {})
  }

  /** The labels some repository of a catalog carries. */
  function LabelsOf(repos: map<string, Repository>): set<string>
  {
    set n, l | n in repos && l in repos[n].labels :: l
  }

  /** The names of the repositories of a catalog that carry a label. */
  function Carriers(repos: map<string, Repository>, key: string): set<string>
  {
    set n | n in repos && key in repos[n].labels :: repos[n].name
  }

  /** The index after adding every repository of a catalog under each of its
      labels; independent of the order the catalog is visited in. */
  function CatalogIndex(labels: Labels, repos: map<string, Repository>): (r: Labels)
    ensures r.Keys == labels.Keys + LabelsOf(repos)
  {
    map k | k in labels.Keys + LabelsOf(repos) :: Members(labels, k) + Carriers(repos, k)
  }

  lemma AddRepoLabelsNone(labels: Labels, name: string)
    ensures AddRepoLabels(labels, name, []) == labels
  {
    var r := AddRepoLabels(labels, name, []);
    assert Order.Elements<string>([]) == {};
    assert r.Keys == labels.Keys;
    forall k | k in r ensures r[k] == labels[k] {
    }
  }

  lemma AddRepoLabelsStep(labels: Labels, name: string, ls: seq<string>, l: string)
    ensures AddRepoLabels(labels, name, ls + [l])
         == AddRepoLabels(labels, name, ls)[l := Members(AddRepoLabels(labels, name, ls), l) + {name}]
  {
    var a := AddRepoLabels(labels, name, ls + [l]);
    var b := AddRepoLabels(labels, name, ls)[l := Members(AddRepoLabels(labels, name, ls), l) + {name}];
    AddRepoLabelsKeys(labels, name, ls, l);
    forall k ensures Members(a, k) == Members(b, k) {
      AddRepoLabelsStepAt(labels, name, ls, l, k);
    }
    LabelsEqual(a, b);
  }

  lemma AddRepoLabelsKeys(labels: Labels, name: string, ls: seq<string>, l: string)
    ensures AddRepoLabels(labels, name, ls + [l]).Keys == AddRepoLabels(labels, name, ls).Keys + {l}
  {
    assert Order.Elements(ls + [l]) == Order.Elements(ls) + {l};
  }

  lemma AddRepoLabelsStepAt(labels: Labels, name: string, ls: seq<string>, l: string, k: string)
    ensures var prev := AddRepoLabels(labels, name, ls);
      Members(AddRepoLabels(labels, name, ls + [l]), k) == Members(prev[l := Members(prev, l) + {name}], k)
  {
    assert k in ls + [l] <==> k in ls || k == l;
    assert Order.Elements(ls + [l]) == Order.Elements(ls) + {l};
  }

  /** Two label maps with the same labels and the same members are equal. */
  lemma LabelsEqual(a: Labels, b: Labels)
    requires a.Keys == b.Keys
    requires forall k :: Members(a, k) == Members(b, k)
    ensures a == b
  {
    forall k | k in a ensures a[k] == b[k] {
      assert Members(a, k) == Members(b, k);
    }
  }

  lemma CatalogIndexEmpty(labels: Labels)
    ensures CatalogIndex(labels, map[]) == labels
  {
    var r := CatalogIndex(labels, map[]);
    assert LabelsOf(map[]) == {};
    assert r.Keys == labels.Keys;
    forall k | k in r ensures r[k] == labels[k] {
      assert Carriers(map[], k) == {};
    }
  }

  lemma LabelsOfGrow(repos: map<string, Repository>, n: string, r: Repository)
    requires n !in repos
    ensures LabelsOf(repos[n := r]) == LabelsOf(repos) + Order.Elements(r.labels)
  {
    var grown := repos[n := r];
    forall l | l in LabelsOf(grown) ensures l in LabelsOf(repos) + Order.Elements(r.labels) {
      var m :| m in grown && l in grown[m].labels;
      if m != n {
        assert m in repos && l in repos[m].labels;
      }
    }
    forall l | l in Order.Elements(r.labels) ensures l in LabelsOf(grown) {
      assert n in grown && l in grown[n].labels;
    }
    forall l | l in LabelsOf(repos) ensures l in LabelsOf(grown) {
      var m :| m in repos && l in repos[m].labels;
      assert m in grown && l in grown[m].labels;
    }
  }

  lemma CarriersGrow(repos: map<string, Repository>, n: string, r: Repository, k: string)
    requires n !in repos
    ensures Carriers(repos[n := r], k) == Carriers(repos, k) + (if k in r.labels then {r.name} else {})
  {
    var grown := repos[n := r];
    forall x | x in Carriers(grown, k)
      ensures x in Carriers(repos, k) + (if k in r.labels then {r.name} else {})
    {
      var m :| m in grown && k in grown[m].labels && grown[m].name == x;
      if m != n {
        assert m in repos && k in repos[m].labels;
      }
    }
    forall x | x in Carriers(repos, k) ensures x in Carriers(grown, k) {
      var m :| m in repos && k in repos[m].labels && repos[m].name == x;
      assert m in grown && k in grown[m].labels;
    }
    if k in r.labels {
      assert n in grown && k in grown[n].labels;
    }
  }

  lemma CarriersOutside(repos: map<string, Repository>, k: string)
    requires k !in LabelsOf(repos)
    ensures Carriers(repos, k) == {}
  {
  }

  lemma CatalogIndexAt(labels: Labels, repos: map<string, Repository>, k: string)
    ensures Members(CatalogIndex(labels, repos), k) == Members(labels, k) + Carriers(repos, k)
  {
    if k !in labels.Keys + LabelsOf(repos) {
      CarriersOutside(repos, k);
    }
  }

  lemma AddRepoLabelsAt(labels: Labels, name: string, ls: seq<string>, k: string)
    ensures Members(AddRepoLabels(labels, name, ls), k) == Members(labels, k) + (if k in ls then {name} else {})
  {
  }

  lemma CatalogIndexGrowKeys(labels: Labels, repos: map<string, Repository>, n: string, r: Repository)
    requires n !in repos
    ensures CatalogIndex(labels, repos[n := r]).Keys == AddRepoLabels(CatalogIndex(labels, repos), r.name, r.labels).Keys
  {
    LabelsOfGrow(repos, n, r);
  }

  lemma CatalogIndexGrowAt(labels: Labels, repos: map<string, Repository>, n: string, r: Repository, k: string)
    requires n !in repos
    ensures Members(CatalogIndex(labels, repos[n := r]), k)
         == Members(AddRepoLabels(CatalogIndex(labels, repos), r.name, r.labels), k)
  {
    CarriersGrow(repos, n, r, k);
    CatalogIndexAt(labels, repos[n := r], k);
    CatalogIndexAt(labels, repos, k);
    AddRepoLabelsAt(CatalogIndex(labels, repos), r.name, r.labels, k);
  }

  /** Visiting one more repository adds it under each of its labels. */
  lemma CatalogIndexGrow(labels: Labels, repos: map<string, Repository>, n: string, r: Repository)
    requires n !in repos
    ensures CatalogIndex(labels, repos[n := r]) == AddRepoLabels(CatalogIndex(labels, repos), r.name, r.labels)
  {
    var a := CatalogIndex(labels, repos[n := r]);
    var b := AddRepoLabels(CatalogIndex(labels, repos), r.name, r.labels);
    CatalogIndexGrowKeys(labels, repos, n, r);
    forall k | k in a ensures a[k] == b[k] {
      CatalogIndexGrowAt(labels, repos, n, r, k);
    }
  }

  /** After a cache load, every repository is a member of each of its labels,
      and every label keeps the members it had. */
  lemma CatalogIndexCovers(labels: Labels, repos: map<string, Repository>, n: string, l: string)
    requires n in repos && l in repos[n].labels
    ensures l in CatalogIndex(labels, repos) && repos[n].name in CatalogIndex(labels, repos)[l]
    ensures Members(labels, l) <= CatalogIndex(labels, repos)[l]
  {
    assert l in LabelsOf(repos);
    assert repos[n].name in Carriers(repos, l);
  }

  /** The catalog and index after fetching the given listed repositories,
      all of whose label requests succeeded. */
  function FetchState(st: Snapshot, project: string, values: seq<Listed>): Snapshot
    requires forall i :: 0 <= i < |values| ==> values[i].labels.Ok?
  {
    if values == [] then st
    else
      var prev := FetchState(st, project, values[..|values| - 1]);
      var v := values[|values| - 1];
      var r := Prepared(project, v.repo, Names(v.labels.value));
      Snapshot(prev.repos[r.name := r], AddRepoLabels(prev.labels, r.name, r.labels))
  }

  /** A fetch adds every listed repository to the catalog under its name and
      to the index under each of its labels, and keeps what was there. */
  lemma {:induction false} FetchStateCovers(st: Snapshot, project: string, values: seq<Listed>, i: nat)
    requires forall j :: 0 <= j < |values| ==> values[j].labels.Ok?
    requires i < |values|
    ensures values[i].repo.name in FetchState(st, project, values).repos
    ensures forall l :: l in Names(values[i].labels.value) ==>
      l in FetchState(st, project, values).labels &&
      values[i].repo.name in FetchState(st, project, values).labels[l]
  {
    var init := values[..|values| - 1];
    if i < |values| - 1 {
      FetchStateCovers(st, project, init, i);
      assert init[i] == values[i];
    }
  }

  lemma {:induction false} FetchStateMonotone(st: Snapshot, project: string, values: seq<Listed>, l: string)
    requires forall j :: 0 <= j < |values| ==> values[j].labels.Ok?
    ensures st.repos.Keys <= FetchState(st, project, values).repos.Keys
    ensures Members(st.labels, l) <= Members(FetchState(st, project, values).labels, l)
  {
    if values != [] {
      FetchStateMonotone(st, project, values[..|values| - 1], l);
    }
  }

  lemma FetchStateStep(st: Snapshot, project: string, values: seq<Listed>, i: nat)
    requires i < FirstFailure(values)
    ensures var v := values[i];
      var r := Prepared(project, v.repo, Names(v.labels.value));
      var prev := FetchState(st, project, values[..i]);
      FetchState(st, project, values[..i + 1]) == Snapshot(prev.repos[r.name := r], AddRepoLabels(prev.labels, r.name, r.labels))
  {
    assert values[..i + 1][..i] == values[..i];
  }

  lemma FetchedStops(st: Snapshot, project: string, values: seq<Listed>, saveErr: Option<string>, i: nat)
    requires i <= FirstFailure(values) && i < |values| && values[i].labels.Err?
    ensures Fetched(st, project, ListingOk(values), saveErr) == (FetchState(st, project, values[..i]), Some(values[i].labels.error))
  {
  }

  lemma FetchedCompletes(st: Snapshot, project: string, values: seq<Listed>, saveErr: Option<string>)
    requires FirstFailure(values) == |values|
    ensures Fetched(st, project, ListingOk(values), saveErr) == (FetchState(st, project, values), saveErr)
  {
    assert values[..|values|] == values;
  }

  /** fetchRepositoryData's outcome: the new state and the error returned. */
  function Fetched(st: Snapshot, project: string, listing: Listing, saveErr: Option<string>): (Snapshot, Option<string>)
  {
    match listing
    case ListingFailed(e) => (st, Some(e))
    case ListingOk(values) =>
      var k := FirstFailure(values);
      (FetchState(st, project, values[..k]), if k < |values| then Some(values[k].labels.error) else saveErr)
  }

  /** The outcome of initRepositoryCatalog: state, printed text, error. */
  datatype Loaded = Loaded(state: Snapshot, printed: seq<string>, err: Option<string>)

  function CatalogLoad(st: Snapshot, cache: Cache, now: int, ttl: int, project: string,
                       listing: Listing, saveErr: Option<string>): Loaded
  {
    if |st.repos| > 0 then Loaded(st, [], None)
    else match CacheVerdict(cache, now, ttl)
      case Ok(rs) => Loaded(Snapshot(rs, CatalogIndex(st.labels, rs)), [], None)
      case Err(e) =>
        var (fetched, err) := Fetched(st, project, listing, saveErr);
        Loaded(fetched, [e], err)
  }

  /** With an empty catalog and a fresh cache, the load takes the cached
      catalog as it is, prints nothing, and lists every cached repository's
      name under each of its labels. */
  lemma CacheLoadIndexes(st: Snapshot, cache: Cache, now: int, ttl: int, project: string,
                         listing: Listing, saveErr: Option<string>, n: string, l: string)
    requires |st.repos| == 0 && cache.CacheDecoded? && now - cache.updatedAt <= ttl
    requires n in cache.repositories && l in cache.repositories[n].labels
    ensures var r := CatalogLoad(st, cache, now, ttl, project, listing, saveErr);
      r.state.repos == cache.repositories && r.printed == [] && r.err == None &&
      l in r.state.labels && cache.repositories[n].name in r.state.labels[l]
  {
    CatalogIndexCovers(st.labels, cache.repositories, n, l);
  }

  /** Aliases merged additively into the index. */
  function MergeAliases(labels: Labels, aliases: map<string, seq<string>>): (r: Labels)
    ensures r.Keys == labels.Keys + aliases.Keys
  {
    map k | k in labels.Keys + aliases.Keys
      :: Members(labels, k) + (if k in aliases then Order.Elements(aliases[k]) else {})
  }

  lemma MergeAliasesNone(labels: Labels)
    ensures MergeAliases(labels, map[]) == labels
  {
    var r := MergeAliases(labels, map[]);
    assert r.Keys == labels.Keys;
    forall k | k in r ensures r[k] == labels[k] {
    }
  }

  lemma MergeAliasesGrow(labels: Labels, aliases: map<string, seq<string>>, k: string, members: seq<string>)
    requires k !in aliases
    ensures MergeAliases(labels, aliases[k := members])
         == MergeAliases(labels, aliases)[k := Members(MergeAliases(labels, aliases), k) + Order.Elements(members)]
  {
    var a := MergeAliases(labels, aliases[k := members]);
    var b := MergeAliases(labels, aliases)[k := Members(MergeAliases(labels, aliases), k) + Order.Elements(members)];
    assert a.Keys == b.Keys;
    forall j | j in a ensures a[j] == b[j] {
    }
  }

  /** Init's index: aliases merged, then the superset label overwritten with
      exactly the catalog's key set. */
  function InitLabels(labels: Labels, aliases: map<string, seq<string>>, repos: map<string, Repository>): Labels
  {
    MergeAliases(labels, aliases)[SupersetLabel := repos.Keys]
  }

  /** After Init, an alias unions its members into the label of the same name
      (or creates it), other labels are untouched, and `all` is exactly the
      catalog's key set, whatever label or alias was called `all` before. */
  lemma InitLabelsShape(labels: Labels, aliases: map<string, seq<string>>, repos: map<string, Repository>, k: string)
    ensures var r := InitLabels(labels, aliases, repos);
      r.Keys == labels.Keys + aliases.Keys + {SupersetLabel} &&
      r[SupersetLabel] == repos.Keys &&
      (k != SupersetLabel && k in aliases ==> r[k] == Members(labels, k) + Order.Elements(aliases[k])) &&
      (k != SupersetLabel && k !in aliases && k in labels ==> r[k] == labels[k])
  {
  }

  /** A `range` over a map's keys collecting each into a new set. */
  method KeySet<V>(m: map<string, V>) returns (keys: set<string>)
    ensures keys == m.Keys
  {
    keys := {};
    var rest := m.Keys;
    while rest != {}
      invariant rest <= m.Keys && keys == m.Keys - rest
      decreases |rest|
    {
      var name :| name in rest;
      keys := keys + {name};
      rest := rest - {name};
    }
  }

  /** The global Catalog and Labels maps of the catalog package. */
  class Store {
    var repos: map<string, Repository>
    var labels: Labels

    constructor ()
      ensures repos == map[] && labels == map[]
    {
      repos := map[];
      labels := map[];
    }

    /** RepositoryList: resolves the filters (with the unwanted-label
        exclusions appended when skipping) without changing the index. */
    method RepositoryList(filters: seq<string>, skipUnwanted: bool, unwanted: seq<string>)
      returns (r: set<string>)
      ensures r == Resolve(labels, Filters(filters, skipUnwanted, unwanted))
    {
      var tokens := AppendUnwanted(filters, skipUnwanted, unwanted);
      var includeSet: set<string> := {};
      var excludeSet: set<string> := {};
      for i := 0 to |tokens|
        invariant includeSet == Side(labels, tokens[..i], false)
        invariant excludeSet == Side(labels, tokens[..i], true)
      {
        var filter := tokens[i];
        var filterName := TokenName(filter);
        SideStep(labels, tokens, i);
        if ExcludeKey in filter {
          if LabelKey in filter {
            if filterName in labels {
              excludeSet := excludeSet + labels[filterName];
            }
          } else {
            excludeSet := excludeSet + {filterName};
          }
        } else {
          if LabelKey in filter {
            if filterName in labels {
              includeSet := includeSet + labels[filterName];
            }
          } else {
            includeSet := includeSet + {filterName};
          }
        }
      }
      assert tokens[..|tokens|] == tokens;
      r := includeSet - excludeSet;
    }

    /** Adds `name` to each label in `ls`, creating a label on first use. */
    method AddToLabels(name: string, ls: seq<string>)
      modifies this`labels
      ensures labels == AddRepoLabels(old(labels), name, ls)
    {
      ghost var start := labels;
      AddRepoLabelsNone(start, name);
      assert ls[..0] == [];
      for i := 0 to |ls|
        invariant labels == AddRepoLabels(start, name, ls[..i])
      {
        var l := ls[i];
        AddRepoLabelsStep(start, name, ls[..i], l);
        assert ls[..i + 1] == ls[..i] + [l];
        if l !in labels {
          assert Members(labels, l) + {name} == {name};
          labels := labels[l := {name}];
        } else {
          labels := labels[l := labels[l] + {name}];
        }
      }
      assert ls[..|ls|] == ls;
    }

    /** loadCatalogCache: on a usable cache, replaces the catalog with the
        cached one and indexes its repositories; otherwise changes nothing
        and returns the reason. */
    method LoadCatalogCache(cache: Cache, now: int, ttl: int) returns (err: Option<string>)
      modifies this
      ensures CacheVerdict(cache, now, ttl).Err? ==>
        err == Some(CacheVerdict(cache, now, ttl).error) && repos == old(repos) && labels == old(labels)
      ensures CacheVerdict(cache, now, ttl).Ok? ==>
        err == None && repos == cache.repositories && labels == CatalogIndex(old(labels), repos)
    {
      match cache
      case CacheMissing =>
        return Some(MissingCacheMessage);
      case CacheMalformed(e) =>
        return Some(e);
      case CacheDecoded(updatedAt, cached) =>
        if now - updatedAt > ttl {
          return Some(StaleCacheMessage);
        }
        repos := cached;
        ghost var start := labels;
        CatalogIndexEmpty(start);
        var done: set<string> := {};
        while done != cached.Keys
          invariant done <= cached.Keys && repos == cached
          invariant labels == CatalogIndex(start, Restrict(cached, done))
          decreases |cached.Keys - done|
        {
          var n :| n in cached.Keys - done;
          var repo := cached[n];
          AddToLabels(repo.name, repo.labels);
          CatalogIndexGrow(start, Restrict(cached, done), n, repo);
          RestrictGrow(cached, done, n);
          done := done + {n};
        }
        RestrictAll(cached, done);
        return None;
    }

    /** Stores a repository under its name and indexes it under its labels. */
    method AddRepository(repo: Repository)
      modifies this
      ensures repos == old(repos)[repo.name := repo]
      ensures labels == AddRepoLabels(old(labels), repo.name, repo.labels)
    {
      repos := repos[repo.name := repo];
      AddToLabels(repo.name, repo.labels);
    }

    /** fetchRepositoryData: stores each listed repository (with the
        configured project and its fetched labels) and indexes it, stopping
        at the first label request that fails; that error, or else the
        cache-save outcome, is returned. */
    method FetchRepositoryData(project: string, listing: Listing, saveErr: Option<string>)
      returns (err: Option<string>)
      modifies this
      ensures (Snapshot(repos, labels), err) == Fetched(Snapshot(old(repos), old(labels)), project, listing, saveErr)
    {
      if listing.ListingFailed? {
        return Some(listing.err);
      }
      var values := listing.values;
      ghost var start := Snapshot(repos, labels);
      ghost var k := FirstFailure(values);
      for i := 0 to |values|
        invariant i <= k
        invariant Snapshot(repos, labels) == FetchState(start, project, values[..i])
      {
        var ls := GetLabels(values[i].labels);
        if ls.Err? {
          FetchedStops(start, project, values, saveErr, i);
          return Some(ls.error);
        }
        var repo := Prepared(project, values[i].repo, ls.value);
        FetchStateStep(start, project, values, i);
        AddRepository(repo);
      }
      FetchedCompletes(start, project, values, saveErr);
      err := saveErr;
    }

    /** initRepositoryCatalog: nothing when the catalog is loaded already;
        otherwise the cache, and the remote listing when the cache is not
        usable (the cache's complaint is printed). */
    method InitRepositoryCatalog(cache: Cache, now: int, ttl: int, project: string,
                                 listing: Listing, saveErr: Option<string>)
      returns (printed: seq<string>, err: Option<string>)
      modifies this
      ensures Loaded(Snapshot(repos, labels), printed, err)
           == CatalogLoad(Snapshot(old(repos), old(labels)), cache, now, ttl, project, listing, saveErr)
    {
      printed := [];
      if |repos| > 0 {
        return [], None;
      }
      var cacheErr := LoadCatalogCache(cache, now, ttl);
      if cacheErr.None? {
        return [], None;
      }
      printed := [cacheErr.value];
      err := FetchRepositoryData(project, listing, saveErr);
    }

    /** Unions an alias's repositories into the label of the same name,
        creating the label when it does not exist. */
    method AddAlias(name: string, members: seq<string>)
      modifies this`labels
      ensures labels == old(labels)[name := Members(old(labels), name) + Order.Elements(members)]
    {
      if name !in labels {
        assert Members(labels, name) + Order.Elements(members) == Order.Elements(members);
        labels := labels[name := Order.Elements(members)];
      } else {
        labels := labels[name := labels[name] + Order.Elements(members)];
      }
    }

    /** The alias part of Init: each alias, in whatever order the map
        yields them, unions its members into its label. */
    method MergeAll(aliases: map<string, seq<string>>)
      modifies this`labels
      ensures labels == MergeAliases(old(labels), aliases)
    {
      ghost var start := labels;
      var done: set<string> := {};
      MergeAliasesNone(start);
      assert Restrict(aliases, {}) == map[];
      while done != aliases.Keys
        invariant done <= aliases.Keys
        invariant labels == MergeAliases(start, Restrict(aliases, done))
        decreases |aliases.Keys - done|
      {
        var name :| name in aliases.Keys - done;
        RestrictGrow(aliases, done, name);
        MergeAliasesGrow(start, Restrict(aliases, done), name, aliases[name]);
        AddAlias(name, aliases[name]);
        done := done + {name};
      }
      RestrictAll(aliases, done);
    }

    /** The alias and superset part of Init. */
    method AddAliases(aliases: map<string, seq<string>>)
      modifies this`labels
      ensures labels == InitLabels(old(labels), aliases, repos)
    {
      MergeAll(aliases);
      var all := KeySet(repos);
      labels := labels[SupersetLabel := all];
    }

    /** Init: loads the catalog (printing an error when that fails), then
        merges the aliases and sets the superset label. */
    method Init(cache: Cache, now: int, ttl: int, project: string, listing: Listing,
                saveErr: Option<string>, aliases: map<string, seq<string>>)
      returns (printed: seq<string>)
      modifies this
      ensures var loaded := CatalogLoad(Snapshot(old(repos), old(labels)), cache, now, ttl, project, listing, saveErr);
        repos == loaded.state.repos &&
        labels == InitLabels(loaded.state.labels, aliases, repos) &&
        printed == loaded.printed + (if loaded.err.Some? then [LoadErrorMessage(loaded.err.value)] else [])
    {
      var err;
      printed, err := InitRepositoryCatalog(cache, now, ttl, project, listing, saveErr);
      if err.Some? {
        printed := printed + [LoadErrorMessage(err.value)];
      }
      AddAliases(aliases);
    }
  }

  function LoadErrorMessage(err: string): string
  {
    "ERROR: Could not load repository metadata: " + err
  }
}
