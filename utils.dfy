/** utils/utils.go: configuration checks, reviewer lookup and the parsing of
    repository identifiers `[host/.../]project/name` into the parts the clone
    URL and the Bitbucket API paths are built from. Configuration is a map
    from keys to string values; a key that is not set reads as "". */
module Utils {
  import opened Wrappers
  import Text

  type Config = map<string, string>

  const GitUserKey := "git.user"
  const GitHostKey := "git.host"
  const GitProjectKey := "git.project"

  function GetString(cfg: Config, key: string): string
  {
    if key in cfg then cfg[key] else ""
  }

  function RequiredMessage(opt: string): string
  {
    opt + " is required - set as flag or env"
  }

  /** The index of the first option whose value is empty, or |opts|. */
  function FirstUnset(cfg: Config, opts: seq<string>): (k: nat)
    ensures k <= |opts|
    ensures forall i :: 0 <= i < k ==> GetString(cfg, opts[i]) != ""
    ensures k < |opts| ==> GetString(cfg, opts[k]) == ""
  {
    if opts == [] then 0
    else if GetString(cfg, opts[0]) == "" then 0
    else 1 + FirstUnset(cfg, opts[1..])
  }

  /** ValidateRequiredConfig: names the first option, in argument order,
      whose value is empty; nothing when every option is set. */
  method ValidateRequiredConfig(cfg: Config, opts: seq<string>) returns (err: Option<string>)
    ensures err.None? <==> forall i :: 0 <= i < |opts| ==> GetString(cfg, opts[i]) != ""
    ensures err.Some? ==> err.value == RequiredMessage(opts[FirstUnset(cfg, opts)])
  {
    for i := 0 to |opts|
      invariant forall j :: 0 <= j < i ==> GetString(cfg, opts[j]) != ""
    {
      if GetString(cfg, opts[i]) == "" {
        assert FirstUnset(cfg, opts) == i by { FirstUnsetAt(cfg, opts, i); }
        return Some(RequiredMessage(opts[i]));
      }
    }
    return None;
  }

  lemma {:induction false} FirstUnsetAt(cfg: Config, opts: seq<string>, i: nat)
    requires i < |opts| && GetString(cfg, opts[i]) == ""
    requires forall j :: 0 <= j < i ==> GetString(cfg, opts[j]) != ""
    ensures FirstUnset(cfg, opts) == i
  {
    if i > 0 {
      FirstUnsetAt(cfg, opts[1..], i - 1);
    }
  }

  /** LookupReviewers: the explicit reviewers when there are any, otherwise
      the repository's default reviewers (none when it has no entry). */
  function LookupReviewers(explicit: seq<string>, defaults: map<string, seq<string>>, name: string): (r: seq<string>)
    ensures |explicit| > 0 ==> r == explicit
    ensures |explicit| == 0 && name in defaults ==> r == defaults[name]
    ensures |explicit| == 0 && name !in defaults ==> r == []
  {
    if |explicit| > 0 then explicit else if name in defaults then defaults[name] else []
  }

  datatype RepoId = RepoId(host: string, project: string, name: string)

  const TrimSet := {'/', ' '}

  /** ParseRepo: trims `/` and spaces from both ends and splits on `/`; the
      name is the last segment, the project the one before it (or the
      configured project), and the host the segments before index len-3
      joined again (or the configured host) -- so the segment at len-3 is
      never part of any result. */
  function ParseRepo(cfg: Config, repo: string): (id: RepoId)
    ensures '/' !in id.name
    ensures var parts := Text.Split(Text.Trim(repo, TrimSet), '/');
      (|parts| <= 1 ==> id.project == GetString(cfg, GitProjectKey)) &&
      (|parts| <= 2 ==> id.host == GetString(cfg, GitHostKey))
  {
    var parts := Text.Split(Text.Trim(repo, TrimSet), '/');
    var name := parts[|parts| - 1];
    var project := if |parts| > 1 then parts[|parts| - 2] else GetString(cfg, GitProjectKey);
    var host := if |parts| > 2 then Text.Join(parts[..|parts| - 3], "/") else GetString(cfg, GitHostKey);
    RepoId(host, project, name)
  }

  /** An identifier made of segments, with no leading or trailing `/` or
      space: `[h1, ..., hk, x, project, name]` parses as host `h1/.../hk`,
      that project and that name, with `x` dropped. */
  lemma ParseRepoSegments(cfg: Config, parts: seq<string>)
    requires |parts| >= 3
    requires forall i :: 0 <= i < |parts| ==> '/' !in parts[i]
    requires Text.Trim(Text.Join(parts, "/"), TrimSet) == Text.Join(parts, "/")
    ensures ParseRepo(cfg, Text.Join(parts, "/"))
         == RepoId(Text.Join(parts[..|parts| - 3], "/"), parts[|parts| - 2], parts[|parts| - 1])
  {
    var repo := Text.Join(parts, "/");
    ParseRepoOfParts(cfg, repo, parts);
    assert |parts| > 2 && |parts| > 1;
  }

  /** ParseRepo of an identifier that trims and splits to `parts`. */
  lemma ParseRepoOfParts(cfg: Config, repo: string, parts: seq<string>)
    requires |parts| >= 1
    requires forall i :: 0 <= i < |parts| ==> '/' !in parts[i]
    requires Text.Trim(repo, TrimSet) == Text.Join(parts, "/")
    ensures ParseRepo(cfg, repo) == RepoId(
      if |parts| > 2 then Text.Join(parts[..|parts| - 3], "/") else GetString(cfg, GitHostKey),
      if |parts| > 1 then parts[|parts| - 2] else GetString(cfg, GitProjectKey),
      parts[|parts| - 1])
  {
    Text.SplitJoin(parts, '/');
    assert Text.Split(Text.Trim(repo, TrimSet), '/') == parts;
  }

  /** So an identifier with exactly three segments gets the empty host: the
      first segment is dropped. */
  lemma ThreeSegmentsEmptyHost(cfg: Config, repo: string)
    requires |Text.Split(Text.Trim(repo, TrimSet), '/')| == 3
    ensures var parts := Text.Split(Text.Trim(repo, TrimSet), '/');
      ParseRepo(cfg, repo) == RepoId("", parts[1], parts[2])
  {
    var parts := Text.Split(Text.Trim(repo, TrimSet), '/');
    assert parts[..0] == [];
  }

  /** `project/name` takes the configured host, and a bare name the
      configured project as well. */
  lemma ParseRepoShort(cfg: Config, parts: seq<string>)
    requires 1 <= |parts| <= 2
    requires forall i :: 0 <= i < |parts| ==> '/' !in parts[i]
    requires Text.Trim(Text.Join(parts, "/"), TrimSet) == Text.Join(parts, "/")
    ensures var id := ParseRepo(cfg, Text.Join(parts, "/"));
      id.host == GetString(cfg, GitHostKey) && id.name == parts[|parts| - 1] &&
      id.project == (if |parts| == 2 then parts[0] else GetString(cfg, GitProjectKey))
  {
    ParseRepoOfParts(cfg, Text.Join(parts, "/"), parts);
  }

  /** RepoURL: the configured user's SSH clone URL of the repository. */
  function RepoURL(cfg: Config, repo: string): (r: string)
    ensures |r| >= 13 && r[..6] == "ssh://" && r[|r| - 4..] == ".git"
  {
    var id := ParseRepo(cfg, repo);
    "ssh://" + GetString(cfg, GitUserKey) + "@" + id.host + "/" + id.project + "/" + id.name + ".git"
  }

  /** ApiPath: the pull-request collection of the repository. */
  function ApiPath(cfg: Config, repo: string): (r: string)
    ensures |r| >= 46 && r[..8] == "https://" && r[|r| - 14..] == "/pull-requests"
  {
    var id := ParseRepo(cfg, repo);
    "https://" + id.host + "/rest/api/1.0/projects/" + id.project + "/repos/" + id.name + "/pull-requests"
  }

  /** ApiPathID: one pull request of that collection; the segment after the
      collection path reads back as the pull request's id. */
  function ApiPathID(cfg: Config, repo: string, id: int): (r: string)
    ensures |r| > |ApiPath(cfg, repo)| + 1 && r[..|ApiPath(cfg, repo)| + 1] == ApiPath(cfg, repo) + "/"
    ensures var tail := r[|ApiPath(cfg, repo)| + 1..];
      (tail != [] && tail[0] == '-' ==> Text.IsNumeral(tail[1..])) &&
      (tail == [] || tail[0] != '-' ==> Text.IsNumeral(tail)) &&
      Text.ParseInt(tail) == id
  {
    Text.FormatIntRoundTrip(id);
    var path := ApiPath(cfg, repo) + "/";
    var r := path + Text.FormatInt(id);
    assert r[..|path|] == path && r[|path|..] == Text.FormatInt(id);
    r
  }

  /** The clone URL and the API path of any identifier, in terms of the
      `/`-separated segments it trims to: the last segment is the name, the
      one before it the project, and the segments before those two but one
      the host, with the configured project and host standing in for
      missing segments. */
  lemma UrlsOfParts(cfg: Config, repo: string, parts: seq<string>)
    requires |parts| >= 1
    requires forall i :: 0 <= i < |parts| ==> '/' !in parts[i]
    requires Text.Trim(repo, TrimSet) == Text.Join(parts, "/")
    ensures var host := if |parts| > 2 then Text.Join(parts[..|parts| - 3], "/") else GetString(cfg, GitHostKey);
      var project := if |parts| > 1 then parts[|parts| - 2] else GetString(cfg, GitProjectKey);
      var name := parts[|parts| - 1];
      RepoURL(cfg, repo) == "ssh://" + GetString(cfg, GitUserKey) + "@" + host + "/" + project + "/" + name + ".git" &&
      ApiPath(cfg, repo) == "https://" + host + "/rest/api/1.0/projects/" + project + "/repos/" + name + "/pull-requests"
  {
    ParseRepoOfParts(cfg, repo, parts);
  }

  /** The clone URL and API path of a `project/name` use the configured user
      and host, and the API path of a pull request ends with its id, which
      reads back from the path. */
  lemma UrlsOfShortName(cfg: Config, repo: string, id: int)
    requires |Text.Split(Text.Trim(repo, TrimSet), '/')| == 2
    ensures var parts := Text.Split(Text.Trim(repo, TrimSet), '/');
      var host := GetString(cfg, GitHostKey);
      RepoURL(cfg, repo) == "ssh://" + GetString(cfg, GitUserKey) + "@" + host + "/" + parts[0] + "/" + parts[1] + ".git" &&
      ApiPath(cfg, repo) == "https://" + host + "/rest/api/1.0/projects/" + parts[0] + "/repos/" + parts[1] + "/pull-requests" &&
      ApiPathID(cfg, repo, id) == ApiPath(cfg, repo) + "/" + Text.FormatInt(id) &&
      Text.ParseInt(Text.FormatInt(id)) == id
  {
    Text.FormatIntRoundTrip(id);
  }
}
