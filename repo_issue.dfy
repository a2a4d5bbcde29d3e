/** The issue operations of the repository component (later revision): the issue filter,
    the label and query searches, the aggregated listing, milestone lookup and the
    sequential issue update. */
module RepoIssue {
  import opened Common
  import opened Text
  import opened GitHub
  import opened Config
  import Component

  /** This file's own copy of the state mapping; it agrees with the shared one everywhere. */
  function ToIssueState(state: string): (r: State)
    ensures r == Component.ToIssueState(state)
  {
    match state
    case "open" => Open
    case "closed" => Closed
    case _ => All
  }

  // ---------------------------------------------------------------------------------
  // The issue filter

  /** `filter_issue`: the three rejections in the order the source checks them. */
  predicate FilterIssue(config: NoteConfig, issue: Issue)
  {
    var excludeNumbers := config.excludeIssues.UnwrapOr([]);
    if |excludeNumbers| > 0 && issue.number in excludeNumbers then false
    else if issue.milestone.None? then false
    else if config.milestone.Some? && issue.milestone.value.title != config.milestone.value then false
    else if config.excludeLabels.Some? && HasAnyLabel(issue, config.excludeLabels.value) then false
    else true
  }

  /** An issue is accepted exactly when it is not excluded by number, it has a milestone
      (with the configured title, when one is configured) and it carries no excluded label. */
  lemma FilterIssueIff(config: NoteConfig, issue: Issue)
    ensures FilterIssue(config, issue) <==>
      && issue.number !in config.excludeIssues.UnwrapOr([])
      && issue.milestone.Some?
      && (config.milestone.Some? ==> issue.milestone.value.title == config.milestone.value)
      && (forall l :: l in config.excludeLabels.UnwrapOr([]) ==> l !in issue.labels)
  {
    HasAnyLabelIff(issue, config.excludeLabels.UnwrapOr([]));
  }

  /** An issue without a milestone is rejected even when no milestone filter is configured. */
  lemma FilterIssueRequiresMilestone(config: NoteConfig, issue: Issue)
    requires issue.milestone.None?
    ensures !FilterIssue(config, issue)
  {
  }

  /** One excluded label among the issue's labels is enough to reject it. */
  lemma FilterIssueRejectsExcludedLabel(config: NoteConfig, issue: Issue, name: string)
    requires name in config.excludeLabels.UnwrapOr([]) && name in issue.labels
    ensures !FilterIssue(config, issue)
  {
    FilterIssueIff(config, issue);
  }

  // ---------------------------------------------------------------------------------
  // Stream filtering

  /** The `filter_map` over a search stream: items that failed are dropped, issues the
      filter rejects are dropped, the rest are kept in stream order. */
  function KeepAccepted(config: NoteConfig, stream: seq<Result<Issue>>): (r: seq<Issue>)
    ensures |r| <= |stream|
    ensures forall k :: 0 <= k < |r| ==> FilterIssue(config, r[k])
  {
    if |stream| == 0 then []
    else
      var head := if stream[0].Ok? && FilterIssue(config, stream[0].value) then [stream[0].value] else [];
      head + KeepAccepted(config, stream[1..])
  }

  lemma {:induction false} KeepAcceptedMember(config: NoteConfig, stream: seq<Result<Issue>>)
    ensures forall x :: x in KeepAccepted(config, stream) <==> Ok(x) in stream && FilterIssue(config, x)
  {
    if |stream| > 0 {
      KeepAcceptedMember(config, stream[1..]);
      assert stream == [stream[0]] + stream[1..];
    }
  }

  /** The results of a stream are the results of its first part followed by those of the rest. */
  lemma {:induction false} KeepAcceptedAppend(config: NoteConfig, a: seq<Result<Issue>>, b: seq<Result<Issue>>)
    ensures KeepAccepted(config, a + b) == KeepAccepted(config, a) + KeepAccepted(config, b)
  {
    if |a| == 0 {
      assert a + b == b;
    } else {
      assert (a + b)[1..] == a[1..] + b;
      KeepAcceptedAppend(config, a[1..], b);
    }
  }

  /** A failed item contributes nothing and does not stop the rest of the stream. */
  lemma KeepAcceptedSkipsFailure(config: NoteConfig, a: seq<Result<Issue>>, e: Error, b: seq<Result<Issue>>)
    ensures KeepAccepted(config, a + [Err(e)] + b) == KeepAccepted(config, a) + KeepAccepted(config, b)
  {
    KeepAcceptedAppend(config, a + [Err(e)], b);
    KeepAcceptedAppend(config, a, [Err(e)]);
  }

  // ---------------------------------------------------------------------------------
  // Search by labels

  /** The listing options of a label search: the labels, the configured state, creation
      time since the latest release, ascending only when `Asc` is configured. */
  function LabelSearchOptions(config: NoteConfig, labels: seq<string>, release: Release): (o: IssueListOptions)
    ensures o.labels == labels && o.state == Component.ToIssueState(config.state)
    ensures o.since == Some(release.createdAt)
    ensures o.ascending <==> config.sort == Some(Asc)
  {
    var ascending := match config.sort case Some(Asc) => true case _ => false;
    IssueListOptions(labels, ToIssueState(config.state), Some(release.createdAt), ascending)
  }

  /** `search_issues_by_labels`, the `lookup`-th latest-release lookup of the invocation
      fixing the time window. */
  function SearchIssuesByLabels(config: NoteConfig, remote: Remote, labels: seq<string>, lookup: nat): (r: Result<seq<Issue>>)
    ensures r.Err? <==> remote.latestRelease(lookup).Err?
    ensures r.Err? ==> r.error == remote.latestRelease(lookup).error
    ensures r.Ok? ==>
      var stream := remote.listIssues(LabelSearchOptions(config, labels, remote.latestRelease(lookup).value));
      forall x :: x in r.value <==> Ok(x) in stream && FilterIssue(config, x)
    ensures r.Ok? ==>
      r.value == KeepAccepted(config, remote.listIssues(LabelSearchOptions(config, labels, remote.latestRelease(lookup).value)))
  {
    match remote.latestRelease(lookup)
    case Err(e) => Err(e)
    case Ok(release) =>
      var stream := remote.listIssues(LabelSearchOptions(config, labels, release));
      KeepAcceptedMember(config, stream);
      Ok(KeepAccepted(config, stream))
  }

  // ---------------------------------------------------------------------------------
  // Listing: one query for all of `labels`, then one per `any_labels` entry

  /** The label sets queried by `list_issues`, in order. */
  function ListQueries(config: NoteConfig): (r: seq<seq<string>>)
    ensures |r| == 1 + |config.anyLabels.UnwrapOr([])|
    ensures r[0] == config.labels.UnwrapOr([])
    ensures forall k :: 0 <= k < |config.anyLabels.UnwrapOr([])| ==> r[k + 1] == [config.anyLabels.UnwrapOr([])[k]]
  {
    var anyLabels := config.anyLabels.UnwrapOr([]);
    [config.labels.UnwrapOr([])] + seq(|anyLabels|, k requires 0 <= k < |anyLabels| => [anyLabels[k]])
  }

  /** The first of the lookups `from`, ..., `n - 1` that failed, or `n` when none did. */
  function FirstFailedLookup(remote: Remote, from: nat, n: nat): (k: nat)
    requires from <= n
    ensures from <= k <= n
    ensures forall j :: from <= j < k ==> remote.latestRelease(j).Ok?
    ensures k < n ==> remote.latestRelease(k).Err?
    decreases n - from
  {
    if from == n then n
    else if remote.latestRelease(from).Err? then from
    else FirstFailedLookup(remote, from + 1, n)
  }

  /** The result batch of each query, when every lookup they make succeeds. */
  function Batches(config: NoteConfig, remote: Remote, queries: seq<seq<string>>): (r: seq<seq<Issue>>)
    requires forall j :: 0 <= j < |queries| ==> remote.latestRelease(j).Ok?
    ensures |r| == |queries|
  {
    seq(|queries|, j requires 0 <= j < |queries| => SearchIssuesByLabels(config, remote, queries[j], j).value)
  }

  /** What `list_issues` returns: the error of the first failing query, or every batch
      concatenated in query order. */
  function ListOutcome(config: NoteConfig, remote: Remote): Result<seq<Issue>>
  {
    var queries := ListQueries(config);
    var k := FirstFailedLookup(remote, 0, |queries|);
    if k < |queries| then Err(remote.latestRelease(k).error)
    else Ok(Flatten(Batches(config, remote, queries)))
  }

  lemma {:induction false} FirstFailedLookupIs(remote: Remote, from: nat, n: nat, k: nat)
    requires from <= k <= n
    requires forall j :: from <= j < k ==> remote.latestRelease(j).Ok?
    requires k < n ==> remote.latestRelease(k).Err?
    ensures FirstFailedLookup(remote, from, n) == k
    decreases n - from
  {
    if from < k {
      FirstFailedLookupIs(remote, from + 1, n, k);
    }
  }

  lemma BatchesExtend(config: NoteConfig, remote: Remote, queries: seq<seq<string>>, i: nat)
    requires i < |queries|
    requires forall j :: 0 <= j <= i ==> remote.latestRelease(j).Ok?
    ensures Batches(config, remote, queries[..i + 1])
         == Batches(config, remote, queries[..i]) + [SearchIssuesByLabels(config, remote, queries[i], i).value]
  {
    var b1 := Batches(config, remote, queries[..i + 1]);
    var b0 := Batches(config, remote, queries[..i]);
    assert forall j :: 0 <= j < i ==> b1[j] == b0[j];
  }

  /** Appending the batch of query `i` to the batches before it. */
  lemma ListStep(config: NoteConfig, remote: Remote, i: nat, issues: seq<Issue>)
    requires i < |ListQueries(config)|
    requires forall j :: 0 <= j <= i ==> remote.latestRelease(j).Ok?
    requires issues == Flatten(Batches(config, remote, ListQueries(config)[..i]))
    ensures issues + SearchIssuesByLabels(config, remote, ListQueries(config)[i], i).value
         == Flatten(Batches(config, remote, ListQueries(config)[..i + 1]))
  {
    var queries := ListQueries(config);
    BatchesExtend(config, remote, queries, i);
    FlattenAppend(Batches(config, remote, queries[..i]), SearchIssuesByLabels(config, remote, queries[i], i).value);
  }

  /** The listing fails with the error of the first failed lookup. */
  lemma ListFailsAt(config: NoteConfig, remote: Remote, i: nat)
    requires i < |ListQueries(config)|
    requires forall j :: 0 <= j < i ==> remote.latestRelease(j).Ok?
    requires remote.latestRelease(i).Err?
    ensures ListOutcome(config, remote) == Err(remote.latestRelease(i).error)
  {
    FirstFailedLookupIs(remote, 0, |ListQueries(config)|, i);
  }

  /** `list_issues`. */
  method ListIssues(config: NoteConfig, remote: Remote) returns (r: Result<seq<Issue>>)
    ensures r == ListOutcome(config, remote)
  {
    ghost var queries := ListQueries(config);
    var issues: seq<Issue> := [];
    var found := SearchIssuesByLabels(config, remote, config.labels.UnwrapOr([]), 0);
    if found.Err? {
      ListFailsAt(config, remote, 0);
      return Err(found.error);
    }
    assert queries[..0] == [];
    ListStep(config, remote, 0, issues);
    issues := issues + found.value;
    var anyLabels := config.anyLabels.UnwrapOr([]);
    var i := 0;
    while i < |anyLabels|
      invariant 0 <= i <= |anyLabels|
      invariant forall j :: 0 <= j <= i ==> remote.latestRelease(j).Ok?
      invariant issues == Flatten(Batches(config, remote, queries[..i + 1]))
    {
      assert queries[i + 1] == [anyLabels[i]];
      found := SearchIssuesByLabels(config, remote, [anyLabels[i]], i + 1);
      if found.Err? {
        ListFailsAt(config, remote, i + 1);
        return Err(found.error);
      }
      ListStep(config, remote, i + 1, issues);
      issues := issues + found.value;
      i := i + 1;
    }
    assert queries[..i + 1] == queries;
    FirstFailedLookupIs(remote, 0, |queries|, |queries|);
    return Ok(issues);
  }

  /** Every listed issue comes from one of the queries, and every issue a query found is listed. */
  lemma ListOutcomeMember(config: NoteConfig, remote: Remote, x: Issue)
    requires ListOutcome(config, remote).Ok?
    ensures FirstFailedLookup(remote, 0, |ListQueries(config)|) == |ListQueries(config)|
    ensures x in ListOutcome(config, remote).value <==>
      exists j :: 0 <= j < |ListQueries(config)| && x in Batches(config, remote, ListQueries(config))[j]
  {
    FlattenMember(Batches(config, remote, ListQueries(config)), x);
  }

  /** No de-duplication: an issue found by two different queries is listed at least twice. */
  lemma ListOutcomeKeepsDuplicates(config: NoteConfig, remote: Remote, x: Issue, j1: nat, j2: nat)
    requires ListOutcome(config, remote).Ok?
    requires FirstFailedLookup(remote, 0, |ListQueries(config)|) == |ListQueries(config)|
    requires j1 < j2 < |ListQueries(config)|
    requires x in Batches(config, remote, ListQueries(config))[j1]
    requires x in Batches(config, remote, ListQueries(config))[j2]
    ensures multiset(ListOutcome(config, remote).value)[x] >= 2
  {
    var b := Batches(config, remote, ListQueries(config));
    FlattenKeepsDuplicates(b, x, j1, j2);
  }

  /** Nothing is de-duplicated: the listing is exactly as long as all batches together. */
  lemma ListOutcomeLength(config: NoteConfig, remote: Remote)
    requires ListOutcome(config, remote).Ok?
    ensures FirstFailedLookup(remote, 0, |ListQueries(config)|) == |ListQueries(config)|
    ensures |ListOutcome(config, remote).value| == TotalLength(Batches(config, remote, ListQueries(config)))
  {
    FlattenLength(Batches(config, remote, ListQueries(config)));
  }

  /** Any failing query makes the whole listing fail. */
  lemma ListOutcomeFailsOnAnyFailure(config: NoteConfig, remote: Remote, j: nat)
    requires j < |ListQueries(config)| && remote.latestRelease(j).Err?
    ensures ListOutcome(config, remote).Err?
  {
  }

  // ---------------------------------------------------------------------------------
  // Search by query

  /** The words of the user's query: none for the empty query, else the pieces between single spaces. */
  function QueryWords(query: string): (r: seq<string>)
    ensures query != "" ==> Join(r, " ") == query
    ensures query == "" <==> r == []
  {
    if query == "" then []
    else
      JoinSplit(query, ' ');
      Split(query, ' ')
  }

  /** The repository, milestone and state qualifiers, in that order. */
  function FixedQualifiers(config: NoteConfig): seq<string>
  {
    [RepoQualifier(config.owner, config.repo)]
    + (match config.milestone case Some(m) => [MilestoneQualifier(m)] case None => [])
    + (if config.state != "" then [StateQualifier(config.state)] else [])
  }

  /** The qualifiers `search_issues_by_query` adds after the user's words, in order. */
  function QualifierTokens(config: NoteConfig): seq<string>
  {
    FixedQualifiers(config)
    + IncludeQualifiers(config.labels.UnwrapOr([]))
    + ExcludeQualifiers(config.excludeLabels.UnwrapOr([]))
  }

  function QueryTokens(config: NoteConfig, query: string): seq<string>
  {
    QueryWords(query) + QualifierTokens(config)
  }

  /** Regrouping the four parts of the query; stated on its own because the same
      assertion inside `BuildQuery` is too costly for the solver amid the loop facts. */
  lemma ConcatRegroup(words: seq<string>, fixed: seq<string>, includes: seq<string>, excludes: seq<string>)
    ensures words + fixed + includes + excludes == words + (fixed + includes + excludes)
  {
  }

  /** The query string of `search_issues_by_query`. */
  method BuildQuery(config: NoteConfig, query: string) returns (q: string)
    ensures q == Join(QueryTokens(config, query), " ")
  {
    var tokens: seq<string> := if query == "" then [] else Split(query, ' ');
    assert tokens == QueryWords(query);
    tokens := tokens + [RepoQualifier(config.owner, config.repo)];
    if config.milestone.Some? {
      tokens := tokens + [MilestoneQualifier(config.milestone.value)];
    }
    if config.state != "" {
      tokens := tokens + [StateQualifier(config.state)];
    }
    ghost var base := tokens;
    assert base == QueryWords(query) + FixedQualifiers(config);
    var labels := config.labels.UnwrapOr([]);
    var i := 0;
    while i < |labels|
      invariant 0 <= i <= |labels|
      invariant tokens == base + IncludeQualifiers(labels[..i])
    {
      IncludeQualifiersExtend(labels, i);
      tokens := tokens + [IncludeQualifier(labels[i])];
      i := i + 1;
    }
    assert labels[..i] == labels;
    ghost var withLabels := tokens;
    var excludes := config.excludeLabels.UnwrapOr([]);
    i := 0;
    while i < |excludes|
      invariant 0 <= i <= |excludes|
      invariant tokens == withLabels + ExcludeQualifiers(excludes[..i])
    {
      ExcludeQualifiersExtend(excludes, i);
      tokens := tokens + [ExcludeQualifier(excludes[i])];
      i := i + 1;
    }
    assert excludes[..i] == excludes;
    ConcatRegroup(QueryWords(query), FixedQualifiers(config), IncludeQualifiers(labels), ExcludeQualifiers(excludes));
    q := Join(tokens, " ");
  }

  /** A non-empty user query is the verbatim start of the query string; the qualifiers
      follow after one space. */
  lemma QueryKeepsUserQuery(config: NoteConfig, query: string)
    ensures query != "" ==> Join(QueryTokens(config, query), " ") == query + " " + Join(QualifierTokens(config), " ")
    ensures query == "" ==> Join(QueryTokens(config, query), " ") == Join(QualifierTokens(config), " ")
  {
    if query != "" {
      JoinAppend(QueryWords(query), QualifierTokens(config), " ");
    } else {
      assert QueryTokens(config, query) == QualifierTokens(config);
    }
  }

  /** The repository qualifier comes first among the added qualifiers and never again. */
  lemma RepoQualifierOnce(config: NoteConfig)
    ensures QualifierTokens(config)[0] == RepoQualifier(config.owner, config.repo)
    ensures forall k :: 1 <= k < |QualifierTokens(config)| ==> QualifierTokens(config)[k] != RepoQualifier(config.owner, config.repo)
  {
    var t := QualifierTokens(config);
    var fixed := FixedQualifiers(config);
    var inc := IncludeQualifiers(config.labels.UnwrapOr([]));
    var exc := ExcludeQualifiers(config.excludeLabels.UnwrapOr([]));
    assert t == fixed + inc + exc;
    assert RepoQualifier(config.owner, config.repo)[0] == 'r';
    forall k | 1 <= k < |t| ensures t[k][0] != 'r' && |t[k]| > 0 {
      if k < |fixed| {
        assert t[k] == fixed[k];
        assert fixed[k][0] == 'm' || fixed[k][0] == 'i';
      } else if k < |fixed| + |inc| {
        var j := k - |fixed|;
        assert t[k] == inc[j];
        assert inc[j][0] == 'l';
      } else {
        var j := k - |fixed| - |inc|;
        assert t[k] == exc[j];
        assert exc[j][0] == '-';
      }
    }
  }

  /** The items of a query search as issues: an item that failed to arrive and an item
      that failed to convert are both failures. */
  function ToIssueItems(items: seq<Result<Result<Issue>>>): (r: seq<Result<Issue>>)
    ensures |r| == |items|
    ensures forall x :: Ok(x) in r <==> Ok(Ok(x)) in items
  {
    if |items| == 0 then []
    else
      var head := match items[0] case Err(e) => Err(e) case Ok(converted) => converted;
      [head] + ToIssueItems(items[1..])
  }

  /** `search_issues_by_query`; it never fails. */
  method SearchIssuesByQuery(config: NoteConfig, remote: Remote, query: string) returns (r: Result<seq<Issue>>)
    ensures r.Ok?
    ensures r.value == KeepAccepted(config, ToIssueItems(remote.searchIssues(Join(QueryTokens(config, query), " "))))
  {
    var searchQuery := BuildQuery(config, query);
    var issues := KeepAccepted(config, ToIssueItems(remote.searchIssues(searchQuery)));
    return Ok(issues);
  }

  /** The query search keeps exactly the intact, converted issues the filter accepts. */
  lemma SearchIssuesByQueryMember(config: NoteConfig, items: seq<Result<Result<Issue>>>, x: Issue)
    ensures x in KeepAccepted(config, ToIssueItems(items)) <==> Ok(Ok(x)) in items && FilterIssue(config, x)
  {
    KeepAcceptedMember(config, ToIssueItems(items));
  }

  // ---------------------------------------------------------------------------------
  // Milestones and updates

  /** The position of the first milestone titled `title`. */
  function FirstTitled(milestones: seq<Milestone>, title: string): (r: Option<nat>)
    ensures r.Some? ==> r.value < |milestones| && milestones[r.value].title == title
    ensures r.Some? ==> forall j :: 0 <= j < r.value ==> milestones[j].title != title
    ensures r.None? ==> forall j :: 0 <= j < |milestones| ==> milestones[j].title != title
  {
    if |milestones| == 0 then None
    else if milestones[0].title == title then Some(0)
    else match FirstTitled(milestones[1..], title)
      case Some(k) => Some(k + 1)
      case None => None
  }

  /** `get_milestone`: the first listed milestone with exactly this title, else a
      not-found error naming the title; a failed listing is propagated. */
  function GetMilestone(remote: Remote, title: string): (r: Result<Milestone>)
    ensures remote.milestones.Err? ==> r == Err(remote.milestones.error)
    ensures remote.milestones.Ok? && r.Ok? ==>
      exists k :: 0 <= k < |remote.milestones.value| && remote.milestones.value[k] == r.value
        && r.value.title == title
        && forall j :: 0 <= j < k ==> remote.milestones.value[j].title != title
    ensures remote.milestones.Ok? && r.Err? ==>
      r.error == Failure("milestone " + title + " not found")
      && forall j :: 0 <= j < |remote.milestones.value| ==> remote.milestones.value[j].title != title
  {
    match remote.milestones
    case Err(e) => Err(e)
    case Ok(milestones) =>
      match FirstTitled(milestones, title)
      case Some(k) => Ok(milestones[k])
      case None => Err(Failure("milestone " + title + " not found"))
  }

  /** The position of the first of the updates `from`, ... that the service rejects, or the
      number of updates. */
  function FirstRejected(remote: Remote, updates: seq<IssueUpdate>, from: nat): (k: nat)
    requires from <= |updates|
    ensures from <= k <= |updates|
    ensures forall j :: from <= j < k ==> remote.update(j, updates[j]).Pass?
    ensures k < |updates| ==> remote.update(k, updates[k]).Fail?
    decreases |updates| - from
  {
    if from == |updates| then from
    else if remote.update(from, updates[from]).Fail? then from
    else FirstRejected(remote, updates, from + 1)
  }

  lemma {:induction false} FirstRejectedIs(remote: Remote, updates: seq<IssueUpdate>, from: nat, k: nat)
    requires from <= k <= |updates|
    requires forall j :: from <= j < k ==> remote.update(j, updates[j]).Pass?
    requires k < |updates| ==> remote.update(k, updates[k]).Fail?
    ensures FirstRejected(remote, updates, from) == k
    decreases |updates| - from
  {
    if from < k {
      FirstRejectedIs(remote, updates, from + 1, k);
    }
  }

  /** `update_issues`: updates are submitted in order and the first rejection stops the
      batch with its error. `applied` is the log of the updates the service accepted:
      exactly those before the rejected one, or all of them. */
  method UpdateIssues(remote: Remote, updates: seq<IssueUpdate>) returns (r: Outcome, ghost applied: seq<IssueUpdate>)
    ensures var k := FirstRejected(remote, updates, 0);
      r == (if k < |updates| then Fail(remote.update(k, updates[k]).error) else Pass)
    ensures applied == updates[..FirstRejected(remote, updates, 0)]
  {
    applied := [];
    var i := 0;
    while i < |updates|
      invariant 0 <= i <= |updates|
      invariant forall j :: 0 <= j < i ==> remote.update(j, updates[j]).Pass?
      invariant applied == updates[..i]
    {
      var outcome := remote.update(i, updates[i]);
      if outcome.Fail? {
        FirstRejectedIs(remote, updates, 0, i);
        return outcome, applied;
      }
      applied := applied + [updates[i]];
      i := i + 1;
    }
    assert updates[..i] == updates;
    FirstRejectedIs(remote, updates, 0, i);
    return Pass, applied;
  }
}
