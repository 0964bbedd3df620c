/** utils/repository.go: the older, list-valued variant of the catalog. Each
    label maps to a list that repository names are appended to, so the lists
    keep every earlier entry and keep duplicates; their order follows the order
    the catalog is visited in, which for a cache load is Go's unspecified map
    order. */
module Legacy {
  import opened Wrappers
  import Order
  import opened Records

  type ListLabels = map<string, seq<string>>

  /** The list of a label, empty (Go's nil slice) when the label is absent. */
  function ListMembers(labels: ListLabels, key: string): seq<string>
  {
    if key in labels then labels[key] else []
  }

  /** The number of occurrences of k in ls. */
  function Count(ls: seq<string>, k: string): nat
  {
    if ls == [] then 0 else Count(ls[..|ls| - 1], k) + (if ls[|ls| - 1] == k then 1 else 0)
  }

  /** n copies of name. */
  function Repeat(name: string, n: nat): (r: seq<string>)
    ensures |r| == n && forall i :: 0 <= i < n ==> r[i] == name
  {
    if n == 0 then [] else Repeat(name, n - 1) + [name]
  }

  /** The lists after appending `name` once per occurrence of each label in
      `ls`; a label is created on first reference. */
  function AppendRepoLabels(labels: ListLabels, name: string, ls: seq<string>): (r: ListLabels)
    ensures r.Keys == labels.Keys + Order.Elements(ls)
  {
    map k | k in labels.Keys + Order.Elements(ls) :: ListMembers(labels, k) + Repeat(name, Count(ls, k))
  }

  lemma CountZero(ls: seq<string>, k: string)
    requires k !in ls
    ensures Count(ls, k) == 0
  {
    if ls != [] {
      CountZero(ls[..|ls| - 1], k);
    }
  }

  lemma AppendRepoLabelsNone(labels: ListLabels, name: string)
    ensures AppendRepoLabels(labels, name, []) == labels
  {
    var r := AppendRepoLabels(labels, name, []);
    assert Order.Elements<string>([]) == {};
    assert r.Keys == labels.Keys;
    forall k | k in r ensures r[k] == labels[k] {
      assert labels[k] + [] == labels[k];
    }
  }

  lemma AppendRepoLabelsAt(labels: ListLabels, name: string, ls: seq<string>, k: string)
    ensures ListMembers(AppendRepoLabels(labels, name, ls), k) == ListMembers(labels, k) + Repeat(name, Count(ls, k))
  {
    if k !in labels.Keys + Order.Elements(ls) {
      CountZero(ls, k);
      assert ListMembers(labels, k) + [] == [];
    }
  }

  lemma CountStep(ls: seq<string>, l: string, k: string)
    ensures Count(ls + [l], k) == Count(ls, k) + (if l == k then 1 else 0)
  {
    assert (ls + [l])[..|ls|] == ls;
  }

  lemma AppendRepoLabelsStepAt(labels: ListLabels, name: string, ls: seq<string>, l: string, k: string)
    ensures var prev := AppendRepoLabels(labels, name, ls);
      ListMembers(AppendRepoLabels(labels, name, ls + [l]), k) == ListMembers(prev[l := ListMembers(prev, l) + [name]], k)
  {
    CountStep(ls, l, k);
    AppendRepoLabelsAt(labels, name, ls + [l], k);
    AppendRepoLabelsAt(labels, name, ls, k);
    if k == l {
      Order.ConcatAssoc(ListMembers(labels, k), Repeat(name, Count(ls, k)), [name]);
    }
  }

  lemma AppendRepoLabelsStep(labels: ListLabels, name: string, ls: seq<string>, l: string)
    ensures AppendRepoLabels(labels, name, ls + [l])
         == AppendRepoLabels(labels, name, ls)[l := ListMembers(AppendRepoLabels(labels, name, ls), l) + [name]]
  {
    var prev := AppendRepoLabels(labels, name, ls);
    var a := AppendRepoLabels(labels, name, ls + [l]);
    var b := prev[l := ListMembers(prev, l) + [name]];
    assert Order.Elements(ls + [l]) == Order.Elements(ls) + {l};
    forall k ensures ListMembers(a, k) == ListMembers(b, k) {
      AppendRepoLabelsStepAt(labels, name, ls, l, k);
    }
    ListLabelsEqual(a, b);
  }

  /** Two list maps with the same labels and the same lists are equal. */
  lemma ListLabelsEqual(a: ListLabels, b: ListLabels)
    requires a.Keys == b.Keys
    requires forall k :: ListMembers(a, k) == ListMembers(b, k)
    ensures a == b
  {
    forall k | k in a ensures a[k] == b[k] {
      assert ListMembers(a, k) == ListMembers(b, k);
    }
  }

  /** The lists after visiting the catalog's entries in the given order (a
      name that is not in the catalog contributes nothing). */
  function IndexInOrder(labels: ListLabels, repos: map<string, Repository>, order: seq<string>): ListLabels
  {
    if order == [] then labels
    else
      var prev := IndexInOrder(labels, repos, order[..|order| - 1]);
      var n := order[|order| - 1];
      if n in repos then AppendRepoLabels(prev, repos[n].name, repos[n].labels) else prev
  }

  lemma IndexInOrderStep(labels: ListLabels, repos: map<string, Repository>, order: seq<string>, n: string)
    requires n in repos
    ensures IndexInOrder(labels, repos, order + [n])
         == AppendRepoLabels(IndexInOrder(labels, repos, order), repos[n].name, repos[n].labels)
  {
    assert (order + [n])[..|order|] == order;
  }

  /** The number of times label k is listed across the visited entries. */
  function Occurrences(repos: map<string, Repository>, order: seq<string>, k: string): nat
  {
    if order == [] then 0
    else
      var n := order[|order| - 1];
      Occurrences(repos, order[..|order| - 1], k) + (if n in repos then Count(repos[n].labels, k) else 0)
  }

  /** Appending keeps every earlier entry, and each visit adds one entry per
      listing of the label: nothing is ever removed or merged, whatever the
      visiting order. */
  lemma {:induction false} IndexAppends(labels: ListLabels, repos: map<string, Repository>, order: seq<string>, k: string)
    ensures var after := ListMembers(IndexInOrder(labels, repos, order), k);
      |after| == |ListMembers(labels, k)| + Occurrences(repos, order, k) &&
      after[..|ListMembers(labels, k)|] == ListMembers(labels, k)
  {
    if order != [] {
      var init := order[..|order| - 1];
      IndexAppends(labels, repos, init, k);
      var n := order[|order| - 1];
      if n in repos {
        var r := repos[n];
        var prev := IndexInOrder(labels, repos, init);
        var before := ListMembers(labels, k);
        AppendRepoLabelsAt(prev, r.name, r.labels, k);
        assert ListMembers(IndexInOrder(labels, repos, order), k)
            == ListMembers(prev, k) + Repeat(r.name, Count(r.labels, k));
        assert (ListMembers(prev, k) + Repeat(r.name, Count(r.labels, k)))[..|before|]
            == ListMembers(prev, k)[..|before|];
      }
    }
  }

  /** Every visited repository's name is in the list of each of its labels. */
  lemma {:induction false} IndexCovers(labels: ListLabels, repos: map<string, Repository>, order: seq<string>,
                                       i: nat, l: string)
    requires i < |order| && order[i] in repos && l in repos[order[i]].labels
    ensures repos[order[i]].name in ListMembers(IndexInOrder(labels, repos, order), l)
  {
    var init := order[..|order| - 1];
    var n := order[|order| - 1];
    var prev := IndexInOrder(labels, repos, init);
    if i == |order| - 1 {
      var r := repos[n];
      var added := Repeat(r.name, Count(r.labels, l));
      AppendRepoLabelsAt(prev, r.name, r.labels, l);
      assert ListMembers(IndexInOrder(labels, repos, order), l) == ListMembers(prev, l) + added;
      CountPositive(r.labels, l);
      assert added[0] == r.name;
      assert r.name in added;
    } else {
      IndexCovers(labels, repos, init, i, l);
      assert init[i] == order[i];
      assert repos[order[i]].name in ListMembers(prev, l);
      if n in repos {
        var r := repos[n];
        AppendRepoLabelsAt(prev, r.name, r.labels, l);
        assert ListMembers(IndexInOrder(labels, repos, order), l)
            == ListMembers(prev, l) + Repeat(r.name, Count(r.labels, l));
      }
    }
  }

  lemma {:induction false} CountPositive(ls: seq<string>, k: string)
    requires k in ls
    ensures Count(ls, k) > 0
  {
    if ls[|ls| - 1] != k {
      assert k in ls[..|ls| - 1];
      CountPositive(ls[..|ls| - 1], k);
    }
  }

  /** Appending a name a label already lists keeps every entry: the name
      then occurs once more per listing of the label. */
  lemma DuplicateKept(labels: ListLabels, name: string, ls: seq<string>, l: string)
    requires name in ListMembers(labels, l) && l in ls
    ensures multiset(ListMembers(AppendRepoLabels(labels, name, ls), l))[name]
         == multiset(ListMembers(labels, l))[name] + Count(ls, l)
    ensures multiset(ListMembers(AppendRepoLabels(labels, name, ls), l))[name] >= 2
  {
    AppendRepoLabelsAt(labels, name, ls, l);
    RepeatCount(name, Count(ls, l));
    CountPositive(ls, l);
  }

  /** A run of n copies of a name holds the name n times. */
  lemma {:induction false} RepeatCount(name: string, n: nat)
    ensures multiset(Repeat(name, n))[name] == n
  {
    if n > 0 {
      RepeatCount(name, n - 1);
    }
  }

  datatype ListSnapshot = ListSnapshot(repos: map<string, Repository>, labels: ListLabels)

  /** The catalog and lists after fetching the given listed repositories, all
      of whose label requests succeeded, in listing order. */
  function FetchState(st: ListSnapshot, project: string, values: seq<Listed>): ListSnapshot
    requires forall i :: 0 <= i < |values| ==> values[i].labels.Ok?
  {
    if values == [] then st
    else
      var prev := FetchState(st, project, values[..|values| - 1]);
      var v := values[|values| - 1];
      var r := Prepared(project, v.repo, Names(v.labels.value));
      ListSnapshot(prev.repos[r.name := r], AppendRepoLabels(prev.labels, r.name, r.labels))
  }

  /** fetchRepositoryData's outcome: the new state and the error returned. */
  function Fetched(st: ListSnapshot, project: string, listing: Listing, saveErr: Option<string>): (ListSnapshot, Option<string>)
  {
    match listing
    case ListingFailed(e) => (st, Some(e))
    case ListingOk(values) =>
      var k := FirstFailure(values);
      (FetchState(st, project, values[..k]), if k < |values| then Some(values[k].labels.error) else saveErr)
  }

  lemma FetchStateStep(st: ListSnapshot, project: string, values: seq<Listed>, i: nat)
    requires i < FirstFailure(values)
    ensures var v := values[i];
      var r := Prepared(project, v.repo, Names(v.labels.value));
      var prev := FetchState(st, project, values[..i]);
      FetchState(st, project, values[..i + 1]) == ListSnapshot(prev.repos[r.name := r], AppendRepoLabels(prev.labels, r.name, r.labels))
  {
    assert values[..i + 1][..i] == values[..i];
  }

  lemma FetchedStops(st: ListSnapshot, project: string, values: seq<Listed>, saveErr: Option<string>, i: nat)
    requires i <= FirstFailure(values) && i < |values| && values[i].labels.Err?
    ensures Fetched(st, project, ListingOk(values), saveErr) == (FetchState(st, project, values[..i]), Some(values[i].labels.error))
  {
  }

  lemma FetchedCompletes(st: ListSnapshot, project: string, values: seq<Listed>, saveErr: Option<string>)
    requires FirstFailure(values) == |values|
    ensures Fetched(st, project, ListingOk(values), saveErr) == (FetchState(st, project, values), saveErr)
  {
    assert values[..|values|] == values;
  }

  /** The global Catalog and Labels of the utils package. */
  class ListStore {
    var repos: map<string, Repository>
    var labels: ListLabels

    constructor ()
      ensures repos == map[] && labels == map[]
    {
      repos := map[];
      labels := map[];
    }

    /** Appends `name` to the list of each label in `ls`, in order. */
    method AppendToLabels(name: string, ls: seq<string>)
      modifies this`labels
      ensures labels == AppendRepoLabels(old(labels), name, ls)
    {
      ghost var start := labels;
      AppendRepoLabelsNone(start, name);
      assert ls[..0] == [];
      for i := 0 to |ls|
        invariant labels == AppendRepoLabels(start, name, ls[..i])
      {
        var l := ls[i];
        AppendRepoLabelsStep(start, name, ls[..i], l);
        assert ls[..i + 1] == ls[..i] + [l];
        labels := labels[l := ListMembers(labels, l) + [name]];
      }
      assert ls[..|ls|] == ls;
    }

    /** The label loop of loadCatalogCache: visits the catalog's entries in
        the map's order, which is unspecified, appending each to its labels'
        lists. */
    method IndexCatalog(cached: map<string, Repository>) returns (order: seq<string>)
      modifies this`labels
      ensures Visits(order, cached.Keys)
      ensures labels == IndexInOrder(old(labels), cached, order)
    {
      order := Order.ToSlice(cached.Keys);
      assert Visits(order, cached.Keys);
      forall j | 0 <= j < |order| ensures order[j] in cached {
        assert order[j] in Order.Elements(order);
      }
      IndexAll(cached, order);
    }

    /** The label loop over a given visiting order of catalog entries. */
    method IndexAll(cached: map<string, Repository>, order: seq<string>)
      requires forall j :: 0 <= j < |order| ==> order[j] in cached
      modifies this`labels
      ensures labels == IndexInOrder(old(labels), cached, order)
    {
      ghost var start := labels;
      for i := 0 to |order|
        invariant labels == IndexInOrder(start, cached, order[..i])
      {
        assert order[..i + 1] == order[..i] + [order[i]];
        IndexOne(cached, order[i], start, order[..i]);
      }
      assert order[..|order|] == order;
    }

    /** One visit of the label loop: the entry n is appended to its labels'
        lists. */
    method IndexOne(cached: map<string, Repository>, n: string, ghost start: ListLabels, ghost order: seq<string>)
      requires n in cached
      requires labels == IndexInOrder(start, cached, order)
      modifies this`labels
      ensures labels == IndexInOrder(start, cached, order + [n])
    {
      var repo := cached[n];
      IndexInOrderStep(start, cached, order, n);
      AppendToLabels(repo.name, repo.labels);
    }

    /** loadCatalogCache: on a usable cache, replaces the catalog wholesale
        and appends each repository to its labels' lists, visiting the
        catalog in some order; otherwise changes nothing and returns the
        reason. */
    method LoadCatalogCache(cache: Cache, now: int, ttl: int) returns (err: Option<string>)
      modifies this
      ensures CacheVerdict(cache, now, ttl).Err? ==>
        err == Some(CacheVerdict(cache, now, ttl).error) && repos == old(repos) && labels == old(labels)
      ensures CacheVerdict(cache, now, ttl).Ok? ==>
        err == None && repos == cache.repositories &&
        exists order :: Visits(order, repos.Keys) && labels == IndexInOrder(old(labels), repos, order)
    {
      match cache
      case CacheMissing =>
        return Some(MissingCacheMessage);
      case CacheMalformed(e) =>
        return Some(e);
      case CacheDecoded(updatedAt, cached) =>
        if now - updatedAt > ttl {
          return Some(StaleCacheMessage);
        }
        repos := cached;
        var order := IndexCatalog(cached);
        return None;
    }

    /** fetchRepositoryData: stores each listed repository and appends it to
        its labels' lists, stopping at the first label request that fails;
        that error, or else the cache-save outcome, is returned. */
    method FetchRepositoryData(project: string, listing: Listing, saveErr: Option<string>)
      returns (err: Option<string>)
      modifies this
      ensures (ListSnapshot(repos, labels), err) == Fetched(ListSnapshot(old(repos), old(labels)), project, listing, saveErr)
    {
      if listing.ListingFailed? {
        return Some(listing.err);
      }
      var values := listing.values;
      ghost var start := ListSnapshot(repos, labels);
      ghost var k := FirstFailure(values);
      for i := 0 to |values|
        invariant i <= k
        invariant ListSnapshot(repos, labels) == FetchState(start, project, values[..i])
      {
        var ls := GetLabels(values[i].labels);
        if ls.Err? {
          FetchedStops(start, project, values, saveErr, i);
          return Some(ls.error);
        }
        var repo := Prepared(project, values[i].repo, ls.value);
        FetchStateStep(start, project, values, i);
        repos := repos[repo.name := repo];
        AppendToLabels(repo.name, repo.labels);
      }
      FetchedCompletes(start, project, values, saveErr);
      err := saveErr;
    }

    /** InitRepositoryCatalog: a no-op when the catalog is loaded already;
        otherwise the cache, and the remote listing when the cache is not
        usable (the cache's complaint is printed). */
    method InitRepositoryCatalog(cache: Cache, now: int, ttl: int, project: string,
                                 listing: Listing, saveErr: Option<string>)
      returns (printed: seq<string>, err: Option<string>)
      modifies this
      ensures |old(repos)| > 0 ==> printed == [] && err == None && repos == old(repos) && labels == old(labels)
      ensures |old(repos)| == 0 && CacheVerdict(cache, now, ttl).Ok? ==>
        printed == [] && err == None && repos == cache.repositories &&
        exists order :: Visits(order, repos.Keys) && labels == IndexInOrder(old(labels), repos, order)
      ensures |old(repos)| == 0 && CacheVerdict(cache, now, ttl).Err? ==>
        printed == [CacheVerdict(cache, now, ttl).error] &&
        (ListSnapshot(repos, labels), err) == Fetched(ListSnapshot(old(repos), old(labels)), project, listing, saveErr)
    {
      if |repos| > 0 {
        return [], None;
      }
      var cacheErr := LoadCatalogCache(cache, now, ttl);
      if cacheErr.None? {
        return [], None;
      }
      printed := [cacheErr.value];
      err := FetchRepositoryData(project, listing, saveErr);
    }
  }
}
