# cisco-batch-tool core, modelled in Dafny

batch-tool runs a command over a set of Bitbucket repositories. The model
covers the core of that.

- **Selection of repositories.** Filter tokens with the label marker `~`
  and the exclusion marker `!` are resolved against a label index. The
  index is built from a cached or fetched repository catalog, from the
  configured aliases and from the synthetic `all` label.
- **Printing of selections.** The `catalog` command prints labels and set
  expressions.
- **Argument expansion.** Each repository argument is expanded through its
  alias, then the list is de-duplicated and sorted.
- **Running tasks on one repository.** The task chain prints a header, may
  clone first, stops at the first failing task and always closes its
  channel.
- **Printing in order.** The output of every repository is printed in the
  order the repositories were resolved.
- **Small record and argument helpers.** Identifier parsing and URL
  building; the pull-request record and the reviewer part of its payload;
  the `git commit` and `push` arguments; the decision logic of `pr new` and
  `pr edit`.

Each Dafny module follows one source file:

| module | file |
|---|---|
| `Catalog` | catalog/catalog.go |
| `Legacy` | utils/repository.go, the list-valued variant of the catalog |
| `Print` | catalog/print.go |
| `CallDo` | call/do.go |
| `CallWrap` | call/wrap.go |
| `Utils` | utils/utils.go |
| `PullRequest` | utils/pr.go |
| `GitCommit` | cmd/git/commit.go |
| `PrCmd` | cmd/pr/new.go and cmd/pr/edit.go |

The supporting modules are:

- `Records`: the repository record and the abstract outcomes of the cache,
  the remote listing and the label requests.
- `Http`: the status rule of every Bitbucket response.
- `Text`: the `strings`, `strconv` and `fmt` pieces the tool uses.
- `Order`: Go's string order, `sort.Strings` and the unspecified order of
  `ToSlice` and of `range` over a map.
- `Wrappers`: `Option` and `Result`.

Some source code mutates state. That code becomes classes with fields, as
follows:

- The global `Catalog` and `Labels` maps are `Catalog.Store` and
  `Legacy.ListStore`.
- A pull request is `PullRequest.PR`.
- The `pr` flags are `PrCmd.Flags`.
- A repository's channel is `CallWrap.Channel`, or a bounded
  `CallDo.Buffer`.
- The `sync` setting is `CallDo.Settings`.

Most methods are proved against a specification function, and lemmas
prove what the source promises about those functions. Other methods,
such as PushArgs, PreRun and Channel.Send, state their results or the new
field values directly.

A Go `range` over a map visits keys in an unspecified order. The model
picks any key that has not been visited yet. Where the result could depend
on that order, the order is returned or quantified over.

## Model

| member | source | states |
|---|---|---|
| Catalog.TokenName | catalog/catalog.go:73 | A token's name contains neither `~` nor `!`, and keeps every other character of the token. |
| Catalog.UnwantedTokens | catalog/catalog.go:66-70 | One token per unwanted label, in order, each the label followed by `~!`. |
| Catalog.AppendUnwanted | catalog/catalog.go:66-70 | With skipping on, the filters followed by the unwanted exclusion tokens; with it off, the filters unchanged. |
| Catalog.SideMembers | catalog/catalog.go:72-92 | A name is on the exclude (include) side exactly when some token with (without) `!` contributes it: its label's members for a `~` token naming a known label, its name for a literal token. |
| Catalog.ResolveDependsOnTokenSet | catalog/catalog.go:72-94 | The resolved set depends only on which tokens occur, not on how often or where. |
| Catalog.ResolveIgnoresOrder | catalog/catalog.go:72-94 | Reordering the tokens leaves the result unchanged. |
| Catalog.ResolveIgnoresDuplicate | catalog/catalog.go:72-94 | Repeating any token leaves the result unchanged. |
| Catalog.ExcludedNeverResolved | catalog/catalog.go:75-82 | Whatever an exclusion token contributes is never in the result, even when it is also included. |
| Catalog.UnknownLabelInert | catalog/catalog.go:77-87 | A label token whose name is not in the index changes nothing and raises no error. |
| Catalog.LiteralResolved | catalog/catalog.go:88-94 | A literal include token yields its name unless something excludes it, whether or not the repository is in the catalog. |
| Catalog.UnwantedTokenName | catalog/catalog.go:68-76 | An unwanted label's appended token is a label exclusion whose name is that label's name. |
| Catalog.UnwantedExcluded | catalog/catalog.go:66-70 | With skipping on, no member of an unwanted label that exists in the index is in the result, even when it is named explicitly. |
| Catalog.UnwantedAppendedTwice | catalog/catalog.go:66-70 | Appending the unwanted tokens a second time, as PrintSet does before calling RepositoryList, does not change the result. |
| Catalog.Store.RepositoryList | catalog/catalog.go:61-95 | The union of the includes minus the union of the excludes of the filters plus the unwanted tokens. The method modifies nothing, so the index is left as it was. |
| Catalog.AddRepoLabels | catalog/catalog.go:146-152 | Adding a repository to its labels creates the missing labels: the index's keys become the old keys plus those labels. |
| Catalog.AddRepoLabelsAt | catalog/catalog.go:146-152 | Each label gains the name exactly when the repository lists that label; no other member changes. |
| Catalog.CatalogIndex | catalog/catalog.go:145-153 | Indexing a catalog gives exactly the old labels plus every label of a cached repository. |
| Catalog.CatalogIndexAt | catalog/catalog.go:145-153 | A label's members after indexing are its old members plus the names of the cached repositories that carry it. |
| Catalog.CatalogIndexGrow | catalog/catalog.go:145-153 | Indexing one more repository is adding that repository to its labels, so the visiting order does not matter. |
| Catalog.CatalogIndexEmpty | catalog/catalog.go:145-153 | An empty catalog leaves the index unchanged. |
| Catalog.CatalogIndexCovers | catalog/catalog.go:145-153 | After a cache load, each repository's name is in the set of every one of its labels, and earlier members are kept. |
| Catalog.Store.AddToLabels | catalog/catalog.go:146-152 | The label loop of one repository: the index becomes AddRepoLabels of the old index. |
| Catalog.Store.LoadCatalogCache | catalog/catalog.go:126-156 | A missing, undecodable or stale cache returns its error and changes nothing. A usable cache replaces the catalog wholesale, and the old index is extended with CatalogIndex. |
| Catalog.Store.AddRepository | catalog/catalog.go:193-203 | Stores the prepared record under its name and adds it to its labels. |
| Catalog.FetchStateCovers | catalog/catalog.go:185-204 | After a fetch, every listed repository is in the catalog under its name, and in the set of each fetched label. |
| Catalog.FetchStateMonotone | catalog/catalog.go:185-204 | A fetch never removes a catalog entry or a label member. |
| Catalog.FetchStateStep | catalog/catalog.go:185-204 | Step i of the loop stores repository i, with the configured project and the fetched labels, and indexes it. |
| Catalog.FetchedStops | catalog/catalog.go:188-191 | The first failing label request ends the fetch with its error. The repositories before it stay stored. |
| Catalog.FetchedCompletes | catalog/catalog.go:185-206 | When every label request succeeds, all repositories are stored and the save outcome is returned. |
| Catalog.Store.FetchRepositoryData | catalog/catalog.go:172-207 | A failed listing returns its error and changes nothing; otherwise the new state and error are those of Fetched: stored up to the first failing label request. |
| Catalog.Store.InitRepositoryCatalog | catalog/catalog.go:97-109 | The outcome of CatalogLoad. With a non-empty catalog nothing happens. Otherwise the cache is used if it is usable; if not, its complaint is printed and the remote data is fetched. |
| Catalog.CacheLoadIndexes | catalog/catalog.go:98-100 | With an empty catalog and a fresh cache, the load takes the cached catalog, prints nothing, returns no error, and lists each repository under each of its labels. |
| Catalog.MergeAliases | catalog/catalog.go:37-43 | Merging the aliases gives the labels plus the alias names as keys. |
| Catalog.Store.AddAlias | catalog/catalog.go:38-42 | An alias unions its repositories into the label of the same name, and creates the label when it is missing. |
| Catalog.Store.MergeAll | catalog/catalog.go:37-43 | Whatever order the alias map is visited in, the index becomes MergeAliases of the old index. |
| Catalog.Store.AddAliases | catalog/catalog.go:36-50 | The index becomes InitLabels: the aliases merged, then `all` set to exactly the catalog's keys. |
| Catalog.InitLabelsShape | catalog/catalog.go:36-50 | After Init, `all` is exactly the catalog's keys, whatever label or alias had that name before. An alias unions its members into its label, or creates it with exactly those members. Other labels are untouched. |
| Catalog.KeySet | catalog/catalog.go:48-50 | Adding every catalog key to a fresh set gives exactly the catalog's key set. |
| Catalog.Store.Init | catalog/catalog.go:31-51 | The catalog after loading; a printed error line when loading failed; the index after loading, alias merging and the `all` label. |
| Catalog.Store.constructor | catalog/catalog.go:26-29 | The catalog and the index start empty. |
| Records.CacheVerdict | catalog/catalog.go:126-141 | A missing cache gives the "missing or invalid" message and an undecodable one the decoder's error. A cache older than the TTL gives the "too old" message. Otherwise the result is the cached repositories. |
| Records.FreshnessBoundary | catalog/catalog.go:139-141 | The comparison is strict: a cache exactly TTL old is used, and one tick older is rejected. |
| Records.Names | catalog/catalog.go:229-232 | One label name per response entry, same length and order. |
| Records.GetLabels | catalog/catalog.go:217-235 | A failed request passes its error on; otherwise the label names, in response order. |
| Records.FirstFailure | catalog/catalog.go:188-191 | The first listed repository whose label request failed: every earlier request succeeded. |
| Http.CheckStatus | catalog/catalog.go:257-259 | A status above 399, and only that, is an error; its message is "error", the status and the body. |
| Http.ApiGet | catalog/catalog.go:237-262 | A transport failure is an error; a response succeeds with its body exactly when its status is at most 399. |
| Http.ErrorNamesStatus | catalog/catalog.go:258 | The status can be read back from the digits in the error message. |
| Legacy.ListStore.constructor | utils/repository.go:17-18 | The catalog and the list-valued index start empty. |
| Legacy.Repeat | utils/repository.go:78 | n copies of a repository name. |
| Legacy.AppendRepoLabels | utils/repository.go:77-79 | Appending creates the missing labels: the keys become the old keys plus the repository's labels. |
| Legacy.AppendRepoLabelsAt | utils/repository.go:77-79 | Each label's list is its old list followed by the name, once per time the repository lists that label. |
| Legacy.AppendRepoLabelsNone | utils/repository.go:77-79 | A repository with no labels changes nothing. |
| Legacy.DuplicateKept | utils/repository.go:78 | For any list `l` that already holds a name and that is among the name's labels, appending the name adds one more occurrence per listing of `l`. So the name then occurs at least twice: duplicates are kept. |
| Legacy.IndexAppends | utils/repository.go:76-80 | In any visiting order, every earlier entry is kept as a prefix. Each label's list grows by exactly the number of times the visited repositories list that label. |
| Legacy.IndexCovers | utils/repository.go:76-80 | Every visited repository's name is in the list of each of its labels. |
| Legacy.ListStore.AppendToLabels | utils/repository.go:77-79 | The label loop of one repository: the lists become AppendRepoLabels of the old lists. |
| Legacy.ListStore.IndexAll | utils/repository.go:76-80 | Visiting catalog entries in a given order gives IndexInOrder of that order. |
| Legacy.ListStore.IndexCatalog | utils/repository.go:76-80 | The loop over the catalog returns the order of its visits (each key once) and the lists it leaves. |
| Legacy.ListStore.LoadCatalogCache | utils/repository.go:57-83 | An unusable cache returns its reason and changes nothing. A usable one replaces the catalog wholesale and the lists are extended in some visiting order. |
| Legacy.FetchStateStep | utils/repository.go:112-127 | Step i stores repository i, with the project and its labels, and appends it to its labels' lists. |
| Legacy.FetchedStops | utils/repository.go:115-118 | The first failing label request ends the fetch with its error, and the earlier repositories stay stored. |
| Legacy.FetchedCompletes | utils/repository.go:112-129 | When all label requests succeed, every repository is stored and the save outcome is returned. |
| Legacy.ListStore.FetchRepositoryData | utils/repository.go:99-130 | The new state and error are those of Fetched: a failed listing changes nothing, and otherwise repositories are stored up to the first failing label request. |
| Legacy.ListStore.InitRepositoryCatalog | utils/repository.go:28-40 | With a non-empty catalog, nothing happens. Otherwise either the usable cache (nothing printed) or, after printing the cache's complaint, the fetch outcome. |
| Order.LexLeTotal | catalog/print.go:27 | Go's string order is total. |
| Order.LexLeAntisymmetric | catalog/print.go:27 | Go's string order is antisymmetric. |
| Order.LexLeTransitive | catalog/print.go:27 | Go's string order is transitive. |
| Order.SortCorrect | call/do.go:92-94 | sort.Strings sorts ascending and only permutes. |
| Order.SortedUnique | call/do.go:92-94 | Only one sorted arrangement of given contents exists, so sorting any listing of a set gives the same sequence. |
| Order.SortKeepsDistinct | call/do.go:92-94 | Sorting a duplicate-free list keeps its elements, its length and its freedom from duplicates. |
| Order.ToSlice | call/do.go:84-89 | Listing a set, as a `range` over a map or mapset's ToSlice does, gives every element exactly once, in an unspecified order. |
| Order.SortedSetUnique | catalog/print.go:31-34 | A set has only one sorted duplicate-free listing. |
| Order.SortListing | catalog/print.go:31-34 | Sorting any duplicate-free listing of a set gives the set's sorted listing. |
| Order.SortedElements | catalog/print.go:31-34 | The sorted listing of a set: ascending, duplicate-free, exactly the set. |
| Print.Listing | catalog/print.go:31-34 | A set's members, each once. They are sorted when sorting is on and in any order otherwise. |
| Print.SelectLabels | catalog/print.go:16-27 | With no arguments, every label but `all`, sorted; otherwise the arguments sorted. |
| Print.ShowsLabelSorted | catalog/print.go:30-36 | With sorting on, a non-empty label's line is exactly `  ~ L ~`, then its sorted members joined with ", ". |
| Print.PrintLabels | catalog/print.go:16-41 | One line per selected label, in sorted order. An absent or empty label prints `  ~ L ~ (empty label)`. Any other label prints its members, each once, sorted when sorting is on. |
| Print.Normalize | catalog/print.go:57-60 | A normalised token is a label reference exactly when the raw token is, carries no `!`, and has the raw token's name once `~` is removed. |
| Print.NormalizeIdempotent | catalog/print.go:57-60 | Normalising twice is normalising once. |
| Print.NormalizedMembers | catalog/print.go:55-67 | A normalised token is among the excludes exactly when some raw token with that normal form contains `!`, and among the includes exactly when some raw token with that form does not. |
| Print.NormalizedByTokenSet | catalog/print.go:55-72 | Duplicate and reordered tokens collapse: the sides depend only on which tokens occur. |
| Print.NormalizeTokens | catalog/print.go:55-67 | The loop collects exactly the normalised includes and excludes. |
| Print.LabelNames | catalog/print.go:97-102 | The label names among the tokens, with `~` stripped, at most one per token. |
| Print.CollectLabelNames | catalog/print.go:97-102 | The verbose loop collects exactly those label names, in order. |
| Print.RenderSelection | catalog/print.go:62-84 | The sorted normalised includes and excludes. The expression is the includes joined with " ∪ " in parentheses, followed by " ∖ (" and the excludes when there are any. |
| Print.PrintSection | catalog/print.go:104-119 | A verbose section is empty when no label token is present; otherwise its header, then PrintLabels of the names. |
| Print.PrintSet | catalog/print.go:44-121 | The selected-set line; the 0, 1 or n match message over some listing of the resolved repositories (sorted when sorting is on); and, when verbose, the included and excluded label sections. |
| Text.RemoveAll | catalog/catalog.go:73 | strings.ReplaceAll with "": no occurrence of the character is left, and every other character is kept. |
| Text.RemoveAllAppend | catalog/catalog.go:73 | Removal distributes over concatenation. |
| Text.RemoveAllAbsent | catalog/catalog.go:73 | Removing an absent character changes nothing. |
| Text.Split | utils/utils.go:38 | strings.Split: at least one piece, and no piece contains the separator. |
| Text.SplitJoin | utils/utils.go:38 | Splitting a join of separator-free pieces gives back the pieces. |
| Text.JoinSplit | utils/utils.go:38 | Joining the pieces of a split gives back the string. |
| Text.TrimLeft | utils/utils.go:38 | Removes exactly the leading run of cut characters. |
| Text.TrimRight | utils/utils.go:38 | Removes exactly the trailing run of cut characters. |
| Text.NatToString | utils/utils.go:87 | A decimal numeral without leading zeros. |
| Text.FormatIntRoundTrip | utils/utils.go:87 | The `%d` numeral of any integer reads back as that integer. |
| Utils.FirstUnset | utils/utils.go:15-23 | The first option whose value is empty; every earlier one is set. |
| Utils.ValidateRequiredConfig | utils/utils.go:15-23 | No error exactly when every option is set. Otherwise the error names the first unset option, in argument order. |
| Utils.LookupReviewers | utils/utils.go:26-34 | The explicit reviewers when there are any, else the repository's defaults, else none. |
| Utils.ParseRepo | utils/utils.go:37-54 | The name is slash-free. With one segment the project is the configured one; with at most two, the host is the configured one. |
| Utils.ParseRepoOfParts | utils/utils.go:37-54 | For an identifier that trims and splits into segments, the name is the last segment. The project is the one before it, or the configured project. The host is the segments before len-3, joined, or the configured host. |
| Utils.ParseRepoSegments | utils/utils.go:47-51 | `h1/.../hk/x/p/n` parses as host `h1/.../hk`, project p, name n: segment len-3 is dropped. |
| Utils.ThreeSegmentsEmptyHost | utils/utils.go:47-51 | Exactly three segments give the empty host. |
| Utils.ParseRepoShort | utils/utils.go:41-51 | `p/n` takes the configured host; a bare `n` also takes the configured project. |
| Utils.RepoURL | utils/utils.go:67-74 | An `ssh://` URL that ends in `.git`. |
| Utils.ApiPath | utils/utils.go:77-83 | An `https://` URL that ends in `/pull-requests`. |
| Utils.ApiPathID | utils/utils.go:86-88 | The API path, then `/`, then a segment that parses back to the pull request's id. |
| Utils.UrlsOfParts | utils/utils.go:67-83 | The exact clone URL and API path of any identifier, given the segments it trims to. The name is the last segment and the project the one before it. The host is the segments before len-3, joined. The configured project and host stand in for missing segments. |
| Utils.UrlsOfShortName | utils/utils.go:67-88 | The SSH clone URL and the API paths of `p/n`, which use the configured user and host. The id in a pull request's path reads back. |
| PullRequest.PR.constructor | utils/pr.go:31-32 | A pull request with the given entries. |
| PullRequest.PR.ID | utils/pr.go:35-41 | The `id` entry, or 0 when absent. |
| PullRequest.PR.Version | utils/pr.go:44-50 | The `version` entry, or 0 when absent. |
| PullRequest.Entries | utils/pr.go:54-57 | One `{"user": {"name": n}}` entry per name, in order. |
| PullRequest.Names | utils/pr.go:62-70 | One name per reviewer entry, in entry order. |
| PullRequest.PR.AddReviewers | utils/pr.go:53-59 | Appends one entry per name, in order, and changes no other entry. |
| PullRequest.PR.GetReviewers | utils/pr.go:62-71 | The names of the reviewer entries, in entry order. |
| PullRequest.NamesOfEntries | utils/pr.go:53-71 | The names read back from freshly built entries are the names. |
| PullRequest.NamesAfterAdd | utils/pr.go:53-71 | After AddReviewers(rs), GetReviewers gives the previous names followed by rs. |
| PullRequest.PR.SetReviewers | cmd/pr/edit.go:54 | Replaces the reviewer list with one entry per name. |
| PullRequest.PR.Delete | cmd/pr/edit.go:60-61 | Removes one entry and keeps all the others. |
| PullRequest.ReviewerJsonName | utils/pr.go:20 | The name can be recovered from its rendered reviewer entry. |
| PullRequest.ReviewerJsonInjective | utils/pr.go:20 | Distinct names render as distinct entries. |
| PullRequest.NonEmpty | utils/pr.go:18-22 | Exactly the non-empty names, never more than given. |
| PullRequest.NonEmptyAppend | utils/pr.go:18-22 | Dropping empty names works piecewise, so the kept names keep their relative order. |
| PullRequest.NonEmptyKeepsAll | utils/pr.go:18-22 | A list without empty names is kept whole. |
| PullRequest.Rendered | utils/pr.go:20 | One rendered entry per name, in order. |
| PullRequest.ReviewersField | utils/pr.go:17-27 | The entries of the non-empty names, in order, joined with ",". |
| GitCommit.PreRun | cmd/git/commit.go:20-26 | No error exactly when amending or when the commit message is set. Otherwise the "is required" error for `commit.message`. |
| GitCommit.CommitArgs | cmd/git/commit.go:50-62 | The arguments start with `commit`. Read back as git would, they ask for the message when it is non-empty, amend and reset the author when amending, and keep the old message only when amending without a new one. |
| GitCommit.CommitArgsMeaning | cmd/git/commit.go:50-62 | Each of the four argument shapes reads back as the intended commit. |
| GitCommit.PushArgs | cmd/git/commit.go:74-77 | `push`, with `-f` exactly when amending. |
| GitCommit.GitCommitStep | cmd/git/commit.go:41-90 | Add, then commit, then push, each run only after the one before succeeded; a failure is returned and nothing further is sent. The commit output is sent before the push output. |
| PrCmd.Flags.constructor | cmd/pr/root.go:16-19 | The title and description flags. |
| PrCmd.SelectReviewers | cmd/pr/new.go:47-56 | Never empty. `[""]` when the lookup is empty; otherwise a prefix of the lookup: all of it with all-reviewers, its first name without. |
| PrCmd.PlaceholderRendersEmpty | cmd/pr/new.go:49-51 | The placeholder reviewer renders as an empty reviewer list. |
| PrCmd.RequestedReviewers | cmd/pr/new.go:47-58 | The reviewers asked for, and the payload's reviewer field built from them. |
| PrCmd.Created | cmd/pr/new.go:75-91 | A failed reply or an undecodable body is an error and nothing is sent; otherwise the "New pull request" message with the decoded id. |
| PrCmd.NewPR | cmd/pr/new.go:36-94 | A branch lookup error is returned with nothing changed or sent. Otherwise an empty title flag becomes the branch name and stays set. The reviewers are selected and rendered, and the message is sent only when the POST succeeds and its id is decoded. |
| PrCmd.UpdateReviewers | cmd/pr/edit.go:50-58 | With no-append: explicit reviewers replace the list, and no reviewers leave it as it is. Without: the looked-up reviewers are appended. |
| PrCmd.ApplyEdits | cmd/pr/edit.go:42-61 | Title and description are replaced only by non-empty flags; the reviewer rule; `participants` and `author` are removed; id and version are kept. |
| PrCmd.EditPR | cmd/pr/edit.go:36-95 | A fetch error is returned with the pull request unchanged. Otherwise the edits apply and the PUT goes to the pull request's id path. A status above 399 is an error with no message; otherwise the "Updated" message with the id, title and reviewer names. |
| PrCmd.EditedReviewerNames | cmd/pr/edit.go:51-58 | The reported reviewers: the old names plus the looked-up ones when appending; exactly the explicit ones when replacing. |
| CallWrap.ErrorLine | call/wrap.go:30-39 | The error message line is never empty, so it cannot be mistaken for the trailing message. |
| CallWrap.Chain | call/wrap.go:37-45 | The task loop always sends at least one message. |
| CallWrap.WrapOutput | call/wrap.go:23-45 | The first message is always the `------ repo ------` header. |
| CallWrap.FirstFailing | call/wrap.go:37-43 | The first failing task: every earlier task succeeded. |
| CallWrap.Channel.constructor | call/do.go:21 | A fresh channel is open and empty. |
| CallWrap.Channel.Send | call/wrap.go:23 | Appends a message; allowed only while the channel is open. |
| CallWrap.Channel.Close | call/wrap.go:19-21 | Closes the channel; allowed only once, and nothing can be sent after it. |
| CallWrap.SendAll | call/wrap.go:37-38 | Sends a task's messages in order. |
| CallWrap.RunTask | call/wrap.go:37-43 | One task: its messages, then on failure its error line and the close. |
| CallWrap.RunTasks | call/wrap.go:37-45 | The task loop sends Chain and closes the channel. It runs the tasks up to and including the first failing one, or all of them. |
| CallWrap.Clone | call/wrap.go:26-33 | The clone notice and the clone's messages; on failure its error line and the close. |
| CallWrap.Wrap | call/wrap.go:17-47 | Sends exactly WrapOutput and closes the channel once on every path; no task runs after a failed clone, and none after the first failure. |
| CallWrap.ChainLast | call/wrap.go:37-45 | The loop's last message is `""` exactly when every task succeeded. |
| CallWrap.WrapSucceeds | call/wrap.go:26-45 | The trailing `""` is sent exactly when the clone (if any) and every task succeeded. |
| CallWrap.ChainStopsAt | call/wrap.go:37-43 | With the first failure at task k, the loop sends the messages of tasks 0..k and then k's error line; nothing comes from later tasks. |
| CallDo.Expansion | call/do.go:67-72 | An argument with a non-empty alias list stands for that list, in order. Any other argument, or an alias with an empty list, stands for itself. |
| CallDo.ExpandAppend | call/do.go:67-73 | Expansion works argument by argument. |
| CallDo.ExpandMembers | call/do.go:67-73 | A name is in the expansion exactly when some argument's expansion lists it. |
| CallDo.ExpandOneLevel | call/do.go:68-69 | Any alias with a non-empty list expands to exactly that list. Its members are not expanded again, even when they are aliases themselves. |
| CallDo.ExpandArguments | call/do.go:64-73 | The expansion loop gives exactly that expansion. |
| CallDo.KeySet | call/do.go:76-80 | The set of expanded names. |
| CallDo.ProcessArguments | call/do.go:62-97 | No duplicates; exactly the expanded names; never longer than the expansion; sorted when sorting is on, in any order otherwise. |
| CallDo.Buffer.constructor | call/do.go:21 | An empty open buffer of the given capacity. |
| CallDo.Buffer.Push | call/do.go:21 | Appends at the back; only while the buffer is open and not full. |
| CallDo.Buffer.Pop | call/do.go:29-31 | Removes the front: FIFO order. |
| CallDo.Buffer.Close | call/wrap.go:19-21 | Closes the buffer, once. |
| CallDo.Prefill | call/do.go:39 | A worker started before anyone reads sends min(capacity, its message count) messages, which stay in the buffer. It closes the buffer exactly when it has sent them all. |
| CallDo.Resume | call/do.go:44-46 | Draining a started worker's buffer, with the worker sending the rest as room frees up, yields exactly its messages in send order. The buffer ends closed and empty. |
| CallDo.Transfer | call/do.go:27-31 | A worker started and then drained: the reader receives exactly the messages the worker sent, in send order. The buffer ends closed and drained. |
| CallDo.Println | call/do.go:30 | Each message followed by a newline. |
| CallDo.OutputAppend | call/do.go:43-47 | The printed output of a list of repositories is the output of each part, in order. |
| CallDo.OutputAt | call/do.go:43-47 | Each repository's messages come after those of every earlier repository and before those of every later one. |
| CallDo.MakeBuffers | call/do.go:19-22 | One distinct fresh buffer per repository, each empty and open, with the given capacity. |
| CallDo.PrintSync | call/do.go:26-32 | The sync branch prints every repository's messages, in resolved order. Every buffer ends closed. |
| CallDo.StartWorkers | call/do.go:38-40 | Once every worker has started, each buffer holds that worker's first messages and is closed exactly when the worker sent them all. |
| CallDo.PrintAsync | call/do.go:43-47 | After the workers have started, draining the buffers one after the other prints every repository's messages, in resolved order. Every buffer ends closed. |
| CallDo.Settings.constructor | config/configurations.go:38 | The `sync` setting. |
| CallDo.Do | call/do.go:15-48 | Returns the repositories of ProcessArguments: distinct, exactly the expanded names, never more of them than the expansion, and sorted when sorting is on. One closed buffer per repository with the configured capacity. Both branches print the same output: each repository's messages, in resolved order. |
| CallDo.DoAsync | call/do.go:51-54 | Leaves `sync` false. Gives the same repositories and output as Do: distinct, exactly the expanded names, never more of them than the expansion, sorted when sorting is on, and every repository's messages printed in resolved order. |
| CallDo.DoSync | call/do.go:57-60 | Leaves `sync` true. Gives the same repositories and output as Do: distinct, exactly the expanded names, never more of them than the expansion, sorted when sorting is on, and every repository's messages printed in resolved order. |

## Left out

- File, JSON, clock and network I/O are inputs: the cache outcome, the current time, the TTL, the listing, the label replies and the save outcome. catalogCachePath, saveCatalogCache's encoding and `filepath.Join` cleaning are not part of this model.
- Goroutines and the Go scheduler are not modelled. Each branch of CallDo.Do is one fixed schedule. With `sync` on, each worker runs and is drained before the next one starts. With it off, every worker runs until its buffer is full or it is done, and then the reader drains the buffers in order while each waiting worker finishes. Other interleavings are not modelled.
- CallDo.Do: requires a capacity of at least 1. An unbuffered channel is a rendezvous, which this sequential simulation does not capture.
- The wrapper passed to Do is represented by the messages it sends for each repository. Exec, LookupBranch, ValidateBranch, getPR and the git subprocesses are replaced by their outcomes.
- The full pull-request payload template is not rendered. Its template has seven `%s` verbs but GenPR passes six values, and cmd/pr/new.go:58 calls GenPR with four arguments where it has three parameters. Only the reviewer field is modelled.
- SetReviewers is not defined in utils/pr.go. PullRequest.PR.SetReviewers models it as replacing the list, which is what cmd/pr/edit.go:52-55 expects.
- PullRequest.PR.AddReviewers, PullRequest.PR.GetReviewers: the panic at utils/pr.go:55 and utils/pr.go:63 on a pull request without a `reviewers` entry, or with an entry of another type, is not modelled. The model's reviewer list always exists.
- PullRequest.PR.ID, PullRequest.PR.Version: the `float64` to `int` truncation of JSON numbers is not modelled; ids are integers here. The panic on an entry of the wrong type is not modelled either.
- PullRequest.PR.Delete: requires a key other than `reviewers`, because the reviewer list has no absent form here. editPR only deletes `participants` and `author`.
- PrCmd.EditPR: a pull request without a title, which would panic at cmd/pr/edit.go:92, reports the title as "".
- PrCmd.EditPR: the source reads the body only on a failing status. A failed read then replaces the status error; the model maps such a read failure, like a failed request, to the transport error of the reply.
- The errors of `http.NewRequest` and `json.Marshal` are not modelled.
- viper is replaced by parameters and maps. Its case-insensitive keys are not modelled. The `repos.skip-unwanted` and unwanted-label settings are parameters, because the configuration package makes no declaration of them.
- catalog/catalog.go:68 appends to the caller's slice. That `append` can change the caller's backing array, which the model does not capture; Filters is a new sequence.
- Legacy.ListStore.LoadCatalogCache: the order in which the catalog is visited is existential, so the exact lists depend on an unspecified map order. Their lengths and prefixes do not depend on it; see Legacy.IndexAppends.
- When a label request fails, fetchRepositoryData leaves the repositories stored before the failure in the catalog. The model follows that code.
- PrintLabels and PrintSet return the printed chunks, one string per `Printf`, instead of writing them.
- The mapset library is replaced by Dafny sets. Its ToSlice order is unspecified (Order.ToSlice).
