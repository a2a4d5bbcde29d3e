/** The records of the GitHub client library (hubcaps) that the pipeline reads and writes,
    GitHub's issue-search qualifiers, and the client itself as a value of functions. */
module GitHub {
  import opened Common

  /** `hubcaps::issues::State`. */
  datatype State = Open | Closed | All

  /** A milestone as listed by the repository, and as referenced from an issue. */
  datatype Milestone = Milestone(number: nat, title: string)

  /** The fields of `hubcaps::issues::Issue` the pipeline reads: label names and assignee
      logins stand for the `Label` and `User` records they are taken from. */
  datatype Issue = Issue(
    id: nat,
    number: nat,
    title: string,
    url: string,
    labels: seq<string>,
    assignees: seq<string>,
    milestone: Option<Milestone>)

  /** The part of `hubcaps::releases::Release` the pipeline reads. */
  datatype Release = Release(createdAt: string)

  /** `IssueListOptions` as the two label searches build it. Both always sort by creation
      time, so the sort key is not recorded; `ascending` is false for the default
      (newest first) direction. */
  datatype IssueListOptions = IssueListOptions(
    labels: seq<string>,
    state: State,
    since: Option<string>,
    ascending: bool)

  /** `IssueOptions`: the full replacement payload of one issue update. */
  datatype IssueOptions = IssueOptions(
    title: string,
    body: Option<string>,
    assignee: Option<string>,
    state: Option<string>,
    milestone: Option<nat>,
    labels: seq<string>)

  /** One entry of `update_issues`: the issue number and its new payload. */
  datatype IssueUpdate = IssueUpdate(number: nat, options: IssueOptions)

  /** The GitHub service as seen by one invocation of the tool. Each stream is the finite
      sequence of items the paginated iterator yields, in order; a failed item is an `Err`.
      - `connect`: whether `create_github_client` succeeds for a token;
      - `latestRelease(n)`: the outcome of the `n`-th latest-release lookup of the invocation;
      - `listIssues`: the items of the repository issue listing for some options;
      - `searchIssues`: the items of an issue search for a query string; each item that
        arrives intact carries the outcome of converting it into an `Issue`;
      - `milestones`: the outcome of listing the repository's milestones;
      - `update(n, u)`: the outcome of submitting `u` as the `n`-th update of a batch, so that
        two submissions of the same update are separate calls. */
  datatype Remote = Remote(
    connect: string -> Outcome,
    latestRelease: nat -> Result<Release>,
    listIssues: IssueListOptions -> seq<Result<Issue>>,
    searchIssues: string -> seq<Result<Result<Issue>>>,
    milestones: Result<seq<Milestone>>,
    update: (nat, IssueUpdate) -> Outcome)

  /** `issue` carries at least one of `names`: the loop that returns as soon as one of
      `names` is among the issue's label names. */
  predicate HasAnyLabel(issue: Issue, names: seq<string>)
  {
    |names| > 0 && (names[0] in issue.labels || HasAnyLabel(issue, names[1..]))
  }

  lemma {:induction false} HasAnyLabelIff(issue: Issue, names: seq<string>)
    ensures HasAnyLabel(issue, names) <==> exists l :: l in names && l in issue.labels
  {
    if |names| > 0 {
      HasAnyLabelIff(issue, names[1..]);
      if exists l :: l in names && l in issue.labels {
        var l :| l in names && l in issue.labels;
        if l != names[0] {
          assert l in names[1..];
        }
      }
    }
  }

  // GitHub issue-search qualifiers.

  function RepoQualifier(owner: string, repo: string): string { "repo:" + owner + "/" + repo }
  function MilestoneQualifier(milestone: string): string { "milestone:" + milestone }
  function StateQualifier(state: string): string { "is:" + state }
  function IncludeQualifier(name: string): string { "label:" + name }
  /** Excludes the issues that carry `name`: the negation of the include qualifier. */
  function ExcludeQualifier(name: string): (r: string)
    ensures r == "-" + IncludeQualifier(name)
  {
    "-label:" + name
  }

  function IncludeQualifiers(labels: seq<string>): (r: seq<string>)
    ensures |r| == |labels|
    ensures forall k :: 0 <= k < |labels| ==> r[k] == IncludeQualifier(labels[k])
  {
    if |labels| == 0 then [] else [IncludeQualifier(labels[0])] + IncludeQualifiers(labels[1..])
  }

  function ExcludeQualifiers(labels: seq<string>): (r: seq<string>)
    ensures |r| == |labels|
    ensures forall k :: 0 <= k < |labels| ==> r[k] == ExcludeQualifier(labels[k])
  {
    if |labels| == 0 then [] else [ExcludeQualifier(labels[0])] + ExcludeQualifiers(labels[1..])
  }

  lemma IncludeQualifiersExtend(labels: seq<string>, i: nat)
    requires i < |labels|
    ensures IncludeQualifiers(labels[..i + 1]) == IncludeQualifiers(labels[..i]) + [IncludeQualifier(labels[i])]
  {
    var a := IncludeQualifiers(labels[..i + 1]);
    var b := IncludeQualifiers(labels[..i]) + [IncludeQualifier(labels[i])];
    assert |a| == |b|;
    forall k | 0 <= k < |a| ensures a[k] == b[k] {
      assert labels[..i + 1][k] == labels[k];
    }
  }

  lemma ExcludeQualifiersExtend(labels: seq<string>, i: nat)
    requires i < |labels|
    ensures ExcludeQualifiers(labels[..i + 1]) == ExcludeQualifiers(labels[..i]) + [ExcludeQualifier(labels[i])]
  {
    var a := ExcludeQualifiers(labels[..i + 1]);
    var b := ExcludeQualifiers(labels[..i]) + [ExcludeQualifier(labels[i])];
    assert |a| == |b|;
    forall k | 0 <= k < |a| ensures a[k] == b[k] {
      assert labels[..i + 1][k] == labels[k];
    }
  }

  /** A negated qualifier is a different token from every positive one. */
  lemma ExcludeIsNotInclude(name: string, other: string)
    ensures ExcludeQualifier(name) != IncludeQualifier(other)
  {
    assert ExcludeQualifier(name)[0] == '-';
    assert IncludeQualifier(other)[0] == 'l';
  }
}
