/** The issue component of the earlier revision (`src/component/issue.rs`): one search per
    label with an inline filter, the concatenation of those searches, and the query search. */
module IssueSearch {
  import opened Common
  import opened Text
  import opened GitHub
  import opened Config
  import Component
  import RepoIssue

  // ---------------------------------------------------------------------------------
  // The inline filter

  /** The closure of `search_issues_by_label`: the milestone is checked only when a
      milestone filter is configured; then excluded labels are checked. */
  predicate AcceptIssue(config: IssueSearchConfig, issue: Issue)
  {
    if config.milestone.Some? && issue.milestone.None? then false
    else if config.milestone.Some? && issue.milestone.value.title != config.milestone.value then false
    else if config.excludeLabels.Some? && HasAnyLabel(issue, config.excludeLabels.value) then false
    else true
  }

  /** An issue is kept exactly when, under a milestone filter, it has that milestone, and
      it carries no excluded label. */
  lemma AcceptIssueIff(config: IssueSearchConfig, issue: Issue)
    ensures AcceptIssue(config, issue) <==>
      && (config.milestone.Some? ==> issue.milestone.Some? && issue.milestone.value.title == config.milestone.value)
      && (forall l :: l in config.excludeLabels.UnwrapOr([]) ==> l !in issue.labels)
  {
    HasAnyLabelIff(issue, config.excludeLabels.UnwrapOr([]));
  }

  /** Without a milestone filter an issue lacking a milestone is kept, unless it carries an
      excluded label; the later revision's filter rejects it. */
  lemma RevisionsDisagreeOnMissingMilestone(config: IssueSearchConfig, issue: Issue, later: NoteConfig)
    requires config.milestone.None? && issue.milestone.None?
    requires forall l :: l in config.excludeLabels.UnwrapOr([]) ==> l !in issue.labels
    ensures AcceptIssue(config, issue)
    ensures !RepoIssue.FilterIssue(later, issue)
  {
    HasAnyLabelIff(issue, config.excludeLabels.UnwrapOr([]));
  }

  /** The failed items are dropped, then the filter keeps issues in stream order. */
  function KeepMatching(config: IssueSearchConfig, stream: seq<Result<Issue>>): (r: seq<Issue>)
    ensures |r| <= |stream|
    ensures forall k :: 0 <= k < |r| ==> AcceptIssue(config, r[k])
  {
    if |stream| == 0 then []
    else
      var head := if stream[0].Ok? && AcceptIssue(config, stream[0].value) then [stream[0].value] else [];
      head + KeepMatching(config, stream[1..])
  }

  lemma {:induction false} KeepMatchingMember(config: IssueSearchConfig, stream: seq<Result<Issue>>)
    ensures forall x :: x in KeepMatching(config, stream) <==> Ok(x) in stream && AcceptIssue(config, x)
  {
    if |stream| > 0 {
      KeepMatchingMember(config, stream[1..]);
      assert stream == [stream[0]] + stream[1..];
    }
  }

  lemma {:induction false} KeepMatchingAppend(config: IssueSearchConfig, a: seq<Result<Issue>>, b: seq<Result<Issue>>)
    ensures KeepMatching(config, a + b) == KeepMatching(config, a) + KeepMatching(config, b)
  {
    if |a| == 0 {
      assert a + b == b;
    } else {
      assert (a + b)[1..] == a[1..] + b;
      KeepMatchingAppend(config, a[1..], b);
    }
  }

  // ---------------------------------------------------------------------------------
  // Search per label, and the concatenation of those searches

  /** The listing options of one label's search: the label, the configured state, default
      (newest first) order and no time window. */
  function LabelListOptions(config: IssueSearchConfig, name: string): (o: IssueListOptions)
    ensures o.labels == [name] && o.state == Component.ToIssueState(config.state)
    ensures o.since.None? && !o.ascending
  {
    IssueListOptions([name], Component.ToIssueState(config.state), None, false)
  }

  /** The issues one label's stream yields that pass the filter. */
  function LabelBatch(config: IssueSearchConfig, remote: Remote, name: string): seq<Issue>
  {
    KeepMatching(config, remote.listIssues(LabelListOptions(config, name)))
  }

  /** `search_issues_by_label`: fails only when the client cannot be created. */
  function SearchIssuesByLabel(config: IssueSearchConfig, remote: Remote, name: string): (r: Result<seq<Issue>>)
    ensures r.Err? <==> remote.connect(config.token).Fail?
    ensures r.Err? ==> r.error == remote.connect(config.token).error
    ensures r.Ok? ==>
      var stream := remote.listIssues(LabelListOptions(config, name));
      forall x :: x in r.value <==> Ok(x) in stream && AcceptIssue(config, x)
    ensures r.Ok? ==> r.value == KeepMatching(config, remote.listIssues(LabelListOptions(config, name)))
  {
    match remote.connect(config.token)
    case Fail(e) => Err(e)
    case Pass =>
      KeepMatchingMember(config, remote.listIssues(LabelListOptions(config, name)));
      Ok(LabelBatch(config, remote, name))
  }

  /** The labels searched: `labels` followed by `highlight_labels`. */
  function SearchLabels(config: IssueSearchConfig): (r: seq<string>)
    ensures |r| == |config.labels.UnwrapOr([])| + |config.highlightLabels.UnwrapOr([])|
    ensures r[..|config.labels.UnwrapOr([])|] == config.labels.UnwrapOr([])
    ensures r[|config.labels.UnwrapOr([])|..] == config.highlightLabels.UnwrapOr([])
  {
    config.labels.UnwrapOr([]) + config.highlightLabels.UnwrapOr([])
  }

  function LabelBatches(config: IssueSearchConfig, remote: Remote, names: seq<string>): (r: seq<seq<Issue>>)
    ensures |r| == |names|
    ensures forall j :: 0 <= j < |names| ==> r[j] == LabelBatch(config, remote, names[j])
  {
    seq(|names|, j requires 0 <= j < |names| => LabelBatch(config, remote, names[j]))
  }

  /** What `search_issues` returns: the client error when there is a label to search and
      no client, else every label's batch concatenated in label order. */
  function SearchOutcome(config: IssueSearchConfig, remote: Remote): Result<seq<Issue>>
  {
    var names := SearchLabels(config);
    if |names| > 0 && remote.connect(config.token).Fail? then Err(remote.connect(config.token).error)
    else Ok(Flatten(LabelBatches(config, remote, names)))
  }

  lemma LabelBatchesExtend(config: IssueSearchConfig, remote: Remote, names: seq<string>, i: nat)
    requires i < |names|
    ensures LabelBatches(config, remote, names[..i + 1])
         == LabelBatches(config, remote, names[..i]) + [LabelBatch(config, remote, names[i])]
  {
    var a := LabelBatches(config, remote, names[..i + 1]);
    var b := LabelBatches(config, remote, names[..i]) + [LabelBatch(config, remote, names[i])];
    assert |a| == |b|;
    forall j | 0 <= j < |a| ensures a[j] == b[j] {
      assert names[..i + 1][j] == names[j];
    }
  }

  /** `search_issues`. */
  method SearchIssues(config: IssueSearchConfig, remote: Remote) returns (r: Result<seq<Issue>>)
    ensures r == SearchOutcome(config, remote)
  {
    var names := config.labels.UnwrapOr([]);
    names := names + config.highlightLabels.UnwrapOr([]);
    var issues: seq<Issue> := [];
    var i := 0;
    while i < |names|
      invariant 0 <= i <= |names|
      invariant i > 0 ==> remote.connect(config.token).Pass?
      invariant issues == Flatten(LabelBatches(config, remote, names[..i]))
    {
      var found := SearchIssuesByLabel(config, remote, names[i]);
      if found.Err? {
        return Err(found.error);
      }
      LabelBatchesExtend(config, remote, names, i);
      FlattenAppend(LabelBatches(config, remote, names[..i]), found.value);
      issues := issues + found.value;
      i := i + 1;
    }
    assert names[..i] == names;
    return Ok(issues);
  }

  /** Every issue of the result was found by some label's search, and every issue found is in it. */
  lemma SearchOutcomeMember(config: IssueSearchConfig, remote: Remote, x: Issue)
    requires SearchOutcome(config, remote).Ok?
    ensures x in SearchOutcome(config, remote).value <==>
      exists j :: 0 <= j < |SearchLabels(config)| && x in LabelBatch(config, remote, SearchLabels(config)[j])
  {
    var b := LabelBatches(config, remote, SearchLabels(config));
    FlattenMember(b, x);
    if exists j :: 0 <= j < |b| && x in b[j] {
      var j :| 0 <= j < |b| && x in b[j];
      assert x in LabelBatch(config, remote, SearchLabels(config)[j]);
    }
  }

  /** No de-duplication: an issue found under two searched labels is returned at least twice. */
  lemma SearchOutcomeKeepsDuplicates(config: IssueSearchConfig, remote: Remote, x: Issue, j1: nat, j2: nat)
    requires SearchOutcome(config, remote).Ok?
    requires j1 < j2 < |SearchLabels(config)|
    requires x in LabelBatch(config, remote, SearchLabels(config)[j1])
    requires x in LabelBatch(config, remote, SearchLabels(config)[j2])
    ensures multiset(SearchOutcome(config, remote).value)[x] >= 2
  {
    var b := LabelBatches(config, remote, SearchLabels(config));
    FlattenKeepsDuplicates(b, x, j1, j2);
  }

  /** Nothing is de-duplicated: the result is exactly as long as all label batches together. */
  lemma SearchOutcomeLength(config: IssueSearchConfig, remote: Remote)
    requires SearchOutcome(config, remote).Ok?
    ensures |SearchOutcome(config, remote).value| == TotalLength(LabelBatches(config, remote, SearchLabels(config)))
  {
    FlattenLength(LabelBatches(config, remote, SearchLabels(config)));
  }

  // ---------------------------------------------------------------------------------
  // The query search

  /** The exclusion token as this file writes it: `label:L-`. */
  function ExcludeQualifierAsWritten(name: string): (r: string)
    ensures r == IncludeQualifier(name + "-")
  {
    "label:" + name + "-"
  }

  /** The token written to exclude `name` is not the negated qualifier for `name`. */
  lemma ExcludeQualifierAsWrittenSelects(name: string)
    ensures ExcludeQualifierAsWritten(name) != ExcludeQualifier(name)
  {
    assert ExcludeQualifierAsWritten(name)[0] == 'l';
    assert ExcludeQualifier(name)[0] == '-';
  }

  function ExcludeQualifiersAsWritten(labels: seq<string>): (r: seq<string>)
    ensures |r| == |labels|
    ensures forall k :: 0 <= k < |labels| ==> r[k] == ExcludeQualifierAsWritten(labels[k])
  {
    if |labels| == 0 then [] else [ExcludeQualifierAsWritten(labels[0])] + ExcludeQualifiersAsWritten(labels[1..])
  }

  lemma ExcludeQualifiersAsWrittenExtend(labels: seq<string>, i: nat)
    requires i < |labels|
    ensures ExcludeQualifiersAsWritten(labels[..i + 1])
         == ExcludeQualifiersAsWritten(labels[..i]) + [ExcludeQualifierAsWritten(labels[i])]
  {
    var a := ExcludeQualifiersAsWritten(labels[..i + 1]);
    var b := ExcludeQualifiersAsWritten(labels[..i]) + [ExcludeQualifierAsWritten(labels[i])];
    assert |a| == |b|;
    forall k | 0 <= k < |a| ensures a[k] == b[k] {
      assert labels[..i + 1][k] == labels[k];
    }
  }

  /** The tokens before the exclusions: the milestone if set, the state always (even when
      empty), every searched label. */
  function SearchQueryHead(config: IssueSearchConfig): seq<string>
  {
    (match config.milestone case Some(m) => [MilestoneQualifier(m)] case None => [])
    + [StateQualifier(config.state)]
    + IncludeQualifiers(SearchLabels(config))
  }

  /** The tokens of the query as this file builds them: the head, then `label:L-` per
      excluded label. */
  function SearchQueryTokens(config: IssueSearchConfig, excludes: seq<string>): seq<string>
  {
    SearchQueryHead(config) + ExcludeQualifiersAsWritten(excludes)
  }

  /** The query string of `search_issues_by_query`; unwrapping an unset `exclude_labels` panics. */
  method BuildSearchQuery(config: IssueSearchConfig) returns (r: Result<string>)
    ensures config.excludeLabels.None? ==> r == Err(UnwrapNone)
    ensures config.excludeLabels.Some? ==> r == Ok(Join(SearchQueryTokens(config, config.excludeLabels.value), " "))
  {
    var tokens: seq<string> := [];
    if config.milestone.Some? {
      tokens := tokens + [MilestoneQualifier(config.milestone.value)];
    }
    tokens := tokens + [StateQualifier(config.state)];
    ghost var base := tokens;
    var names := config.labels.UnwrapOr([]);
    names := names + config.highlightLabels.UnwrapOr([]);
    var i := 0;
    while i < |names|
      invariant 0 <= i <= |names|
      invariant tokens == base + IncludeQualifiers(names[..i])
    {
      IncludeQualifiersExtend(names, i);
      tokens := tokens + [IncludeQualifier(names[i])];
      i := i + 1;
    }
    assert names[..i] == names;
    if config.excludeLabels.None? {
      return Err(UnwrapNone);
    }
    assert names == SearchLabels(config);
    assert tokens == SearchQueryHead(config);
    var excludes := config.excludeLabels.value;
    i := 0;
    while i < |excludes|
      invariant 0 <= i <= |excludes|
      invariant tokens == SearchQueryHead(config) + ExcludeQualifiersAsWritten(excludes[..i])
    {
      ExcludeQualifiersAsWrittenExtend(excludes, i);
      tokens := tokens + [ExcludeQualifierAsWritten(excludes[i])];
      i := i + 1;
    }
    assert excludes[..i] == excludes;
    return Ok(Join(tokens, " "));
  }

  /** The state qualifier and every searched label's qualifier are in the query, and so is
      the positive qualifier for `L-` for every excluded label `L`. */
  lemma SearchQueryMentionsAll(config: IssueSearchConfig, excludes: seq<string>)
    ensures StateQualifier(config.state) in SearchQueryTokens(config, excludes)
    ensures forall l :: l in SearchLabels(config) ==> IncludeQualifier(l) in SearchQueryTokens(config, excludes)
    ensures forall l :: l in excludes ==> IncludeQualifier(l + "-") in SearchQueryTokens(config, excludes)
  {
    var t := SearchQueryTokens(config, excludes);
    var m := match config.milestone case Some(m) => [MilestoneQualifier(m)] case None => [];
    var inc := IncludeQualifiers(SearchLabels(config));
    var exc := ExcludeQualifiersAsWritten(excludes);
    assert t == m + [StateQualifier(config.state)] + inc + exc;
    assert t[|m|] == StateQualifier(config.state);
    forall l | l in SearchLabels(config) ensures IncludeQualifier(l) in t {
      var k :| 0 <= k < |SearchLabels(config)| && SearchLabels(config)[k] == l;
      assert t[|m| + 1 + k] == inc[k] == IncludeQualifier(l);
    }
    forall l | l in excludes ensures IncludeQualifier(l + "-") in t {
      var k :| 0 <= k < |excludes| && excludes[k] == l;
      assert t[|m| + 1 + |inc| + k] == exc[k] == IncludeQualifier(l + "-");
    }
  }

  /** The first character of every token of the query head: none is a negation. */
  lemma SearchQueryHeadPositive(config: IssueSearchConfig)
    ensures forall k :: 0 <= k < |SearchQueryHead(config)| ==>
      |SearchQueryHead(config)[k]| > 0 && SearchQueryHead(config)[k][0] != '-'
  {
    var m := match config.milestone case Some(m) => [MilestoneQualifier(m)] case None => [];
    var inc := IncludeQualifiers(SearchLabels(config));
    var h := SearchQueryHead(config);
    assert h == m + [StateQualifier(config.state)] + inc;
    forall k | 0 <= k < |h| ensures |h[k]| > 0 && h[k][0] != '-' {
      if k < |m| {
        assert h[k] == m[k] == MilestoneQualifier(config.milestone.value);
        assert h[k][0] == 'm';
      } else if k == |m| {
        assert h[k][0] == 'i';
      } else {
        assert h[k] == inc[k - |m| - 1];
        assert h[k][0] == 'l';
      }
    }
  }

  /** As written, the query holds no negated qualifier at all, so it excludes no label. */
  lemma SearchQueryExcludesNothing(config: IssueSearchConfig, excludes: seq<string>)
    ensures forall k :: 0 <= k < |SearchQueryTokens(config, excludes)| ==>
      |SearchQueryTokens(config, excludes)[k]| > 0 && SearchQueryTokens(config, excludes)[k][0] != '-'
  {
    var h := SearchQueryHead(config);
    var exc := ExcludeQualifiersAsWritten(excludes);
    var t := SearchQueryTokens(config, excludes);
    SearchQueryHeadPositive(config);
    forall k | 0 <= k < |t| ensures |t[k]| > 0 && t[k][0] != '-' {
      if k < |h| {
        assert t[k] == h[k];
      } else {
        assert t[k] == exc[k - |h|];
        assert t[k][0] == 'l';
      }
    }
  }

  /** The query with the intended exclusion token `-label:L`. */
  function CorrectedSearchQueryTokens(config: IssueSearchConfig, excludes: seq<string>): seq<string>
  {
    SearchQueryHead(config) + ExcludeQualifiers(excludes)
  }

  /** With the intended token, the query keeps the same head and then negates every
      excluded label, and nothing but the exclusions is negated. */
  lemma CorrectedSearchQueryExcludes(config: IssueSearchConfig, excludes: seq<string>)
    ensures CorrectedSearchQueryTokens(config, excludes)[..|SearchQueryHead(config)|]
         == SearchQueryTokens(config, excludes)[..|SearchQueryHead(config)|]
    ensures forall l :: l in excludes ==> ExcludeQualifier(l) in CorrectedSearchQueryTokens(config, excludes)
    ensures forall k :: 0 <= k < |CorrectedSearchQueryTokens(config, excludes)| ==>
      (CorrectedSearchQueryTokens(config, excludes)[k][0] == '-' <==> k >= |SearchQueryHead(config)|)
  {
    var h := SearchQueryHead(config);
    var exc := ExcludeQualifiers(excludes);
    var c := CorrectedSearchQueryTokens(config, excludes);
    assert c[..|h|] == h;
    assert SearchQueryTokens(config, excludes)[..|h|] == h;
    SearchQueryHeadPositive(config);
    forall l | l in excludes ensures ExcludeQualifier(l) in c {
      var k :| 0 <= k < |excludes| && excludes[k] == l;
      assert c[|h| + k] == exc[k];
    }
    forall k | 0 <= k < |c| ensures c[k][0] == '-' <==> k >= |h| {
      if k < |h| {
        assert c[k] == h[k];
      } else {
        assert c[k] == exc[k - |h|];
        assert c[k][0] == '-';
      }
    }
  }

  /** The tokens of both queries that exclude `wontfix` from the closed issues. */
  lemma {:induction false} ExclusionTokens(config: IssueSearchConfig)
    requires config.state == "closed" && config.milestone.None?
    requires config.labels.None? && config.highlightLabels.None?
    ensures SearchQueryTokens(config, ["wontfix"]) == ["is:closed", "label:wontfix-"]
    ensures CorrectedSearchQueryTokens(config, ["wontfix"]) == ["is:closed", "-label:wontfix"]
  {
    assert SearchLabels(config) == [];
    assert IncludeQualifiers([]) == [];
    assert StateQualifier("closed") == "is:closed";
    assert SearchQueryHead(config) == [] + ["is:closed"] + [];
    assert ExcludeQualifierAsWritten("wontfix") == "label:" + "wontfix" + "-" == "label:wontfix-";
    assert ExcludeQualifier("wontfix") == "-label:" + "wontfix" == "-label:wontfix";
    assert ExcludeQualifiersAsWritten(["wontfix"]) == ["label:wontfix-"];
    assert ExcludeQualifiers(["wontfix"]) == ["-label:wontfix"];
  }

  /** The two query strings the `wontfix` tokens join to. */
  lemma ExclusionStrings()
    ensures Join(["is:closed", "label:wontfix-"], " ") == "is:closed label:wontfix-"
    ensures Join(["is:closed", "-label:wontfix"], " ") == "is:closed -label:wontfix"
  {
    JoinPair("is:closed", "label:wontfix-", " ");
    assert "is:closed" + " " + "label:wontfix-" == "is:closed label:wontfix-";
    JoinPair("is:closed", "-label:wontfix", " ");
    assert "is:closed" + " " + "-label:wontfix" == "is:closed -label:wontfix";
  }

  /** Excluding `wontfix` from the closed issues: the query as written asks for the label
      `wontfix-` and does not negate `wontfix`; the intended query does. */
  lemma ExclusionQueryAsWritten(config: IssueSearchConfig)
    requires config.state == "closed" && config.milestone.None?
    requires config.labels.None? && config.highlightLabels.None?
    ensures Join(SearchQueryTokens(config, ["wontfix"]), " ") == "is:closed label:wontfix-"
    ensures ExcludeQualifier("wontfix") !in SearchQueryTokens(config, ["wontfix"])
    ensures Join(CorrectedSearchQueryTokens(config, ["wontfix"]), " ") == "is:closed -label:wontfix"
  {
    ExclusionTokens(config);
    ExclusionStrings();
    assert ExcludeQualifier("wontfix") == "-label:" + "wontfix" == "-label:wontfix";
    assert "-label:wontfix"[0] == '-';
    assert "is:closed"[0] == 'i';
    assert "label:wontfix-"[0] == 'l';
  }

  /** The `unwrap()` of every search item: the first item that failed to arrive or to
      convert panics; otherwise every item is returned, none filtered out. */
  function UnwrapAll(items: seq<Result<Result<Issue>>>): (r: Result<seq<Issue>>)
    ensures r.Ok? <==> forall k :: 0 <= k < |items| ==> items[k].Ok? && items[k].value.Ok?
    ensures r.Ok? ==> |r.value| == |items| && forall k :: 0 <= k < |items| ==> r.value[k] == items[k].value.value
    ensures r.Err? ==> r.error.Panic?
  {
    if |items| == 0 then Ok([])
    else match items[0]
      case Err(e) => Err(Panic(e.message))
      case Ok(Err(e)) => Err(Panic(e.message))
      case Ok(Ok(x)) =>
        match UnwrapAll(items[1..])
        case Err(e) => Err(e)
        case Ok(xs) => Ok([x] + xs)
  }

  /** `search_issues_by_query` (the label argument is unused): the query needs
      `exclude_labels`, and no filter is applied to the results. */
  method SearchIssuesByQuery(config: IssueSearchConfig, remote: Remote, name: string) returns (r: Result<seq<Issue>>)
    ensures config.excludeLabels.None? ==> r == Err(UnwrapNone)
    ensures config.excludeLabels.Some? && remote.connect(config.token).Fail? ==> r == Err(remote.connect(config.token).error)
    ensures config.excludeLabels.Some? && remote.connect(config.token).Pass? ==>
      r == UnwrapAll(remote.searchIssues(Join(SearchQueryTokens(config, config.excludeLabels.value), " ")))
  {
    var searchQuery := BuildSearchQuery(config);
    if searchQuery.Err? {
      return Err(searchQuery.error);
    }
    var client := remote.connect(config.token);
    if client.Fail? {
      return Err(client.error);
    }
    r := UnwrapAll(remote.searchIssues(searchQuery.value));
  }
}
