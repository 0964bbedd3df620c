/** The catalog's records and the abstract outcomes of its I/O: the repository
    record (declared identically in catalog/catalog.go and
    utils/repository.go), the outcome of reading the cache file, and the
    outcome of the remote listing. The file system, the JSON decoder, the
    clock and the network are replaced by these values. */
module Records {
  import opened Wrappers
  import Order

  datatype Repository = Repository(
    name: string,
    description: string,
    public: bool,
    project: string,
    labels: seq<string>)

  /** One entry of a label listing response. */
  datatype LabelValue = LabelValue(name: string)

  /** What reading and decoding the cache file gave: no file, undecodable
      content (with the decoder's error), or a decoded cache written at
      `updatedAt` (in the clock's unit, as is the TTL). */
  datatype Cache =
    | CacheMissing
    | CacheMalformed(err: string)
    | CacheDecoded(updatedAt: int, repositories: map<string, Repository>)

  /** A repository from the remote listing, with the outcome of the request
      for its labels (apiGET or JSON failure, or the decoded entries). */
  datatype Listed = Listed(repo: Repository, labels: Result<seq<LabelValue>, string>)

  /** The outcome of the remote repository listing. */
  datatype Listing = ListingFailed(err: string) | ListingOk(values: seq<Listed>)

  const MissingCacheMessage := "local cache of repository catalog is missing or invalid - fetching remote info"
  const StaleCacheMessage := "local cache of repository catalog is too old - fetching remote info"

  /** The cache freshness rule: a cache is too old when its age exceeds the
      TTL strictly. */
  predicate Expired(now: int, updatedAt: int, ttl: int)
  {
    now - updatedAt > ttl
  }

  /** loadCatalogCache's verdict: the cached repositories, or the error it
      returns. */
  function CacheVerdict(cache: Cache, now: int, ttl: int): (r: Result<map<string, Repository>, string>)
    ensures r.Ok? <==> cache.CacheDecoded? && now - cache.updatedAt <= ttl
    ensures r.Ok? ==> r.value == cache.repositories
    ensures cache.CacheMissing? ==> r == Err(MissingCacheMessage)
    ensures cache.CacheMalformed? ==> r == Err(cache.err)
    ensures cache.CacheDecoded? && now - cache.updatedAt > ttl ==> r == Err(StaleCacheMessage)
  {
    match cache
    case CacheMissing => Err(MissingCacheMessage)
    case CacheMalformed(e) => Err(e)
    case CacheDecoded(at, rs) => if Expired(now, at, ttl) then Err(StaleCacheMessage) else Ok(rs)
  }

  /** A cache exactly TTL old is still used; one tick older is not. */
  lemma FreshnessBoundary(at: int, ttl: int, rs: map<string, Repository>)
    ensures CacheVerdict(CacheDecoded(at, rs), at + ttl, ttl) == Ok(rs)
    ensures CacheVerdict(CacheDecoded(at, rs), at + ttl + 1, ttl) == Err(StaleCacheMessage)
  {
  }

  /** The label names of a label listing, in response order. */
  function Names(values: seq<LabelValue>): (r: seq<string>)
    ensures |r| == |values|
    ensures forall i :: 0 <= i < |values| ==> r[i] == values[i].name
  {
    if values == [] then [] else [values[0].name] + Names(values[1..])
  }

  /** getLabels: flattens the decoded response into a slice allocated at the
      response's length, or passes the request's error on. */
  method GetLabels(response: Result<seq<LabelValue>, string>) returns (r: Result<seq<string>, string>)
    ensures response.Err? ==> r == Err(response.error)
    ensures response.Ok? ==> r.Ok? && r.value == Names(response.value)
  {
    if response.Err? {
      return Err(response.error);
    }
    var values := response.value;
    var labels := new string[|values|];
    for i := 0 to |values|
      invariant forall j :: 0 <= j < i ==> labels[j] == values[j].name
    {
      labels[i] := values[i].name;
    }
    r := Ok(labels[..]);
  }

  /** The record fetchRepositoryData stores for a listed repository: the
      configured project and the fetched label names filled in. */
  function Prepared(project: string, repo: Repository, labels: seq<string>): Repository
  {
    repo.(project := project, labels := labels)
  }

  /** The index of the first listed repository whose label request failed,
      or the listing's length when none did. */
  function FirstFailure(values: seq<Listed>): (k: nat)
    ensures k <= |values|
    ensures forall i :: 0 <= i < k ==> values[i].labels.Ok?
    ensures k < |values| ==> values[k].labels.Err?
  {
    if values == [] then 0
    else if values[0].labels.Err? then 0
    else 1 + FirstFailure(values[1..])
  }

  /** The keys of a map restricted to a set. */
  function Restrict<V>(m: map<string, V>, keys: set<string>): (r: map<string, V>)
    ensures r.Keys == m.Keys * keys
    ensures forall k :: k in r ==> r[k] == m[k]
  {
    map k | k in m && k in keys :: m[k]
  }

  lemma RestrictGrow<V>(m: map<string, V>, done: set<string>, n: string)
    requires n in m && n !in done
    ensures Restrict(m, done + {n}) == Restrict(m, done)[n := m[n]]
  {
  }

  lemma RestrictAll<V>(m: map<string, V>, keys: set<string>)
    requires m.Keys <= keys
    ensures Restrict(m, keys) == m
  {
  }

  /** Go's `range` over a map visits every key once in an unspecified order;
      the visits are modelled by choosing any key not visited yet. */
  ghost predicate Visits(order: seq<string>, keys: set<string>)
  {
    Order.Distinct(order) && Order.Elements(order) == keys
  }
}
