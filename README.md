# renote issue pipeline — a Dafny model

renote is a command-line tool that turns a GitHub repository's issues into release notes.
This project models the core of that pipeline, from the issue filter to the rendered note,
and proves properties of the model.

- **Filtering.** An issue is kept or dropped by the later revision's `filter_issue`, in the
  repository component. The earlier revision's issue component has its own inline filter.
- **Searching.** A search is either a label search or a GitHub issue-search query.
  - A label search lists issues by label. In the later revision the listing starts at the
    latest release's creation time; the earlier revision's per-label listing has no time
    window.
  - A query search builds a query string of qualifiers. The later revision writes `repo:`,
    `milestone:`, `is:`, `label:` and `-label:` qualifiers. The earlier revision writes no
    `repo:` qualifier, and it writes each excluded label `L` as `label:L-` (see Findings).
  - Each search's stream is filtered. The streams of several searches are concatenated
    with no de-duplication.
- **Milestones and updates.** A milestone is looked up by title. Updates are submitted one
  issue at a time.
- **Notes.** The note has one section per highlight label, rendered through a fixed Tera
  template. The rendered text replaces every `{content}` placeholder of a note template.

Modules:

- `Common` (common.dfy): `Option`, `Result`, `Outcome` and the shared error type, plus the
  concatenation of result batches.
- `Text` (text.dfy): the Rust string operations the pipeline relies on.
  - `str::split` on one character, with a round trip through `join`.
  - `[String]::join`.
  - `str::replace`: a left-to-right, non-overlapping scan. For a pattern that cannot
    overlap itself, the model proves that every occurrence is replaced.
- `GitHub` (github.dfy): the hubcaps records the pipeline reads, the search qualifiers,
  and the GitHub service as a value `Remote`.
  - `Remote` is a datatype of functions: client creation per token, the n-th
    latest-release lookup, the issue listing stream per options, the search stream per
    query string, the milestone listing, and the outcome of the n-th submitted update.
  - Streams are finite sequences of results.
- `Config` (config.dfy): `NoteConfig`, `IssueSort`, `HighlightLabelConfig` and the
  earlier revision's `IssueSearchConfig`.
  - `src/config.rs` declares `NoteConfig`, `IssueSort` and `HighlightLabelConfig` but no
    `IssueSearchConfig`, although the earlier revision's components import it from there.
    Its fields here are those `src/cmd/note/create_note.rs:81-119` fills in.
- `Component` (component.dfy): the state mapping in `src/component/mod.rs`.
- `RepoIssue` (repo_issue.dfy): `src/component/repo/issue.rs`.
- `IssueSearch` (issue_search.dfy): `src/component/issue.rs`.
- `Note` (note.dfy): `src/component/note.rs`.

Where the source loops and mutates local state, the model is a `method` with a loop.
Each such method is proved equal to a specification function, and the properties are
proved about that function:

- `ListIssues`, `BuildQuery`, `UpdateIssues` (in `RepoIssue`);
- `SearchIssues`, `BuildSearchQuery` (in `IssueSearch`);
- `RenderNote` (in `Note`).

Iterator chains (`filter`, `filter_map`, `map`, `collect`) are modelled as recursive
functions.

## Model

| member | source | states |
|---|---|---|
| Component.ToIssueState | src/component/mod.rs:6-12 | exactly "open" gives Open and exactly "closed" gives Closed; every other string, including "" and other capitalisations, gives All |
| RepoIssue.ToIssueState | src/component/repo/issue.rs:15-21 | agrees with the shared mapping on every string |
| RepoIssue.FilterIssue | src/component/repo/issue.rs:196-230 | the filter as a predicate, with the source's checks in order; its meaning is stated by `FilterIssueIff` and the two lemmas below |
| RepoIssue.FilterIssueIff | src/component/repo/issue.rs:196-230 | accepted iff: the number is not in `exclude_issues`; the issue has a milestone, titled as configured when one is configured; and it carries no excluded label |
| RepoIssue.FilterIssueRequiresMilestone | src/component/repo/issue.rs:209-217 | an issue without a milestone is rejected even when no milestone is configured |
| RepoIssue.FilterIssueRejectsExcludedLabel | src/component/repo/issue.rs:219-227 | one excluded label on the issue is enough to reject it |
| RepoIssue.KeepAccepted | src/component/repo/issue.rs:77-94 | the filtered stream is no longer than the stream and every issue in it passes the filter |
| RepoIssue.KeepAcceptedMember | src/component/repo/issue.rs:77-94 | an issue is in the result iff it arrived intact in the stream and passes the filter |
| RepoIssue.KeepAcceptedAppend | src/component/repo/issue.rs:77-94 | the stream is processed in order: filtering a concatenation concatenates the filtered parts |
| RepoIssue.KeepAcceptedSkipsFailure | src/component/repo/issue.rs:80-84 | a failed item is dropped and the stream goes on after it |
| RepoIssue.LabelSearchOptions | src/component/repo/issue.rs:66-75 | the options carry the labels, the mapped state and "since" the latest release's creation time; ascending iff the configured sort is `asc` |
| RepoIssue.SearchIssuesByLabels | src/component/repo/issue.rs:58-97 | fails iff the latest-release lookup fails, with its error; otherwise returns exactly the intact, accepted issues of the listing, in stream order |
| RepoIssue.ListQueries | src/component/repo/issue.rs:45-53 | one search for all of `labels`, then one search per `any_labels` entry with that single label, in that order |
| RepoIssue.FirstFailedLookup | src/component/repo/issue.rs:45-53 | the index of the first failing latest-release lookup, with every earlier lookup succeeding |
| RepoIssue.ListIssues | src/component/repo/issue.rs:40-56 | equals the listing specification: the first failing search's error, else all batches concatenated in search order |
| RepoIssue.ListOutcomeMember | src/component/repo/issue.rs:40-56 | a listed issue is exactly one found by one of the searches |
| RepoIssue.ListOutcomeKeepsDuplicates | src/component/repo/issue.rs:48-52 | an issue found by two searches is listed at least twice |
| RepoIssue.ListOutcomeFailsOnAnyFailure | src/component/repo/issue.rs:45-53 | any failing search makes the whole listing fail |
| RepoIssue.ListOutcomeLength | src/component/repo/issue.rs:48-52 | a successful listing has every lookup succeed and holds as many issues as all batches together |
| RepoIssue.QueryWords | src/component/repo/issue.rs:106-110 | the empty query gives no words; otherwise the words joined by single spaces give back the query |
| RepoIssue.BuildQuery | src/component/repo/issue.rs:106-130 | the query string is the user's words, then `repo:`, the milestone if set, `is:` if the state is non-empty, a `label:` per label and a `-label:` per excluded label, joined by spaces |
| RepoIssue.QueryKeepsUserQuery | src/component/repo/issue.rs:106-130 | a non-empty user query is the verbatim start of the query string, followed by one space and the qualifiers |
| RepoIssue.RepoQualifierOnce | src/component/repo/issue.rs:111-128 | the repository qualifier is the first qualifier and appears nowhere else among them |
| RepoIssue.ToIssueItems | src/component/repo/issue.rs:137-156 | one item per search item; an issue is intact iff the item arrived and converted |
| RepoIssue.SearchIssuesByQuery | src/component/repo/issue.rs:99-160 | never fails; returns the filtered, converted items of the search for the built query |
| RepoIssue.SearchIssuesByQueryMember | src/component/repo/issue.rs:137-156 | an issue is returned iff it arrived, converted and passes the filter |
| RepoIssue.FirstTitled | src/component/repo/issue.rs:184-190 | the position of the first milestone with exactly that title, or none when no milestone has it |
| RepoIssue.GetMilestone | src/component/repo/issue.rs:176-194 | a listing error is propagated; otherwise the first milestone with that title, or the "milestone … not found" error when none has it |
| RepoIssue.FirstRejected | src/component/repo/issue.rs:169-171 | the index of the first rejected update, with every earlier update accepted; the `n`-th submission is its own call, so repeated updates may fare differently |
| RepoIssue.UpdateIssues | src/component/repo/issue.rs:162-174 | submits updates in order, the `n`-th as the `n`-th call; stops at the first rejection with its error; the updates applied are exactly those before it, or all of them |
| IssueSearch.AcceptIssue | src/component/issue.rs:68-93 | the inline filter as a predicate, with the source's checks in order; its meaning is stated by `AcceptIssueIff` |
| IssueSearch.AcceptIssueIff | src/component/issue.rs:68-93 | kept iff the issue has the configured milestone title when a milestone is configured, and carries no excluded label |
| IssueSearch.RevisionsDisagreeOnMissingMilestone | src/component/issue.rs:71-80 | with no milestone configured, this revision keeps an issue without a milestone; the later revision's filter rejects it |
| IssueSearch.KeepMatching | src/component/issue.rs:64-95 | the filtered stream is no longer than the stream and every issue in it passes the inline filter |
| IssueSearch.KeepMatchingMember | src/component/issue.rs:64-95 | an issue is kept iff it arrived intact and passes the inline filter |
| IssueSearch.KeepMatchingAppend | src/component/issue.rs:64-95 | the stream is processed in order |
| IssueSearch.LabelListOptions | src/component/issue.rs:58-62 | a label search lists that single label in the mapped state, newest first, with no time window |
| IssueSearch.SearchIssuesByLabel | src/component/issue.rs:50-98 | fails iff the client cannot be created, with its error; otherwise returns exactly the intact, kept issues of that label's listing, in stream order |
| IssueSearch.SearchLabels | src/component/issue.rs:38-39 | the searched labels are `labels` followed by `highlight_labels` |
| IssueSearch.SearchIssues | src/component/issue.rs:37-48 | equals the search specification: the client error when there is a label to search, else every label's batch concatenated in label order |
| IssueSearch.SearchOutcomeMember | src/component/issue.rs:37-48 | a returned issue is exactly one found by some label's search |
| IssueSearch.SearchOutcomeKeepsDuplicates | src/component/issue.rs:42-45 | an issue found under two searched labels is returned at least twice |
| IssueSearch.SearchOutcomeLength | src/component/issue.rs:42-45 | a successful search holds as many issues as all label batches together |
| IssueSearch.ExcludeQualifierAsWritten | src/component/issue.rs:124 | the token written for an excluded label `L` is the positive qualifier for a label named `L-` |
| IssueSearch.ExcludeQualifierAsWrittenSelects | src/component/issue.rs:123-125 | the exclusion token as written is never the negated qualifier `-label:L` |
| IssueSearch.ExcludeQualifiersAsWritten | src/component/issue.rs:123-125 | one `label:L-` token per excluded label, in order |
| GitHub.ExcludeQualifier | src/component/repo/issue.rs:126-128 | the exclusion token is `-` followed by the positive qualifier |
| GitHub.ExcludeIsNotInclude | src/component/repo/issue.rs:121-128 | an exclusion token is never a positive label qualifier, whatever the two labels are |
| IssueSearch.BuildSearchQuery | src/component/issue.rs:109-128 | panics when `exclude_labels` is unset; otherwise the milestone if set, always `is:state`, a `label:` per searched label and a `label:L-` token per excluded label `L`, joined by spaces |
| IssueSearch.SearchQueryMentionsAll | src/component/issue.rs:109-125 | the state qualifier, every searched label's qualifier and, for every excluded label `L`, the token `label:L-` are in the query |
| IssueSearch.SearchQueryExcludesNothing | src/component/issue.rs:109-125 | no token of the query starts with `-`, so the query negates nothing |
| IssueSearch.CorrectedSearchQueryExcludes | src/component/issue.rs:109-125 | with `-label:L` per excluded label, the query keeps the same leading tokens, has every exclusion, and its tokens starting with `-` are exactly the exclusions |
| IssueSearch.ExclusionQueryAsWritten | src/component/issue.rs:109-128 | excluding `wontfix` from closed issues builds `is:closed label:wontfix-`, which does not hold `-label:wontfix`; the corrected query is `is:closed -label:wontfix` |
| IssueSearch.UnwrapAll | src/component/issue.rs:130-140 | succeeds iff every item arrived and converted, and then returns them all in order, none filtered; otherwise it panics |
| IssueSearch.SearchIssuesByQuery | src/component/issue.rs:100-142 | panics without `exclude_labels`; fails with the client error; otherwise returns the unwrapped items of the search for the query as written, with its `label:L-` tokens |
| GitHub.HasAnyLabelIff | src/component/repo/issue.rs:220-226 | the label loop finds a match iff some listed label is among the issue's label names |
| Note.Summarize | src/component/note.rs:72-77 | an issue's summary: its id, title, url and assignee logins; which summaries a section holds is stated by `SectionIssuesMember` and `SectionIssuesAllCarry` |
| Note.SectionIssues | src/component/note.rs:66-78 | a section has no more entries than there are issues |
| Note.SectionIssuesMember | src/component/note.rs:66-78 | a section holds exactly the summaries of the input issues that carry its label |
| Note.SectionIssuesAppend | src/component/note.rs:66-78 | sections keep input order |
| Note.SectionIssuesAllCarry | src/component/note.rs:66-78 | when every issue carries the label, the section has each issue's summary (id, title, url, assignee logins), in order |
| Note.SectionIssuesRepeats | src/component/note.rs:64-85 | an issue carrying two highlight labels appears in both sections |
| Note.Sections | src/component/note.rs:62-85 | one section per highlight label, in configured order and titled with that label, holding that label's issues; none without highlight labels |
| Note.NatToString | src/component/note.rs:15 | an id prints as a non-empty string of decimal digits with no leading zero |
| Note.NatToStringValue | src/component/note.rs:15 | the printed id reads back as the id |
| Note.IssueLine | src/component/note.rs:14-15 | the text of one issue line; the order and content of these lines is stated by `IssueLinesAt` |
| Note.SectionText | src/component/note.rs:12-16 | the text of one section; stated by `SectionsTextAt` and `EmptySectionText` |
| Note.RenderBody | src/component/note.rs:11-18 | the whole template's output, the sections between two line breaks; stated by `SectionsTextAt` and `NoteWithoutHighlightLabels` |
| Note.SectionsTextAt | src/component/note.rs:11-18 | section `j` is printed as its `## title` heading and its issue lines, after the sections before it and before those after it |
| Note.EmptySectionText | src/component/note.rs:13-16 | a section without issues prints its heading and no issue line |
| Note.IssueLinesAt | src/component/note.rs:14-16 | a section's issues are printed in order, one `- title ([id](url)) - [assignees]` line each |
| Note.PlaceholderBorderFree | src/component/note.rs:90 | two `{content}` placeholders can never overlap |
| Note.RenderNote | src/component/note.rs:57-93 | equals the note specification: a panic without a note template, else the template with every placeholder replaced by the rendered sections |
| Note.NoteWithoutPlaceholder | src/component/note.rs:90 | a note without the placeholder is returned unchanged |
| Note.NoteFirstPlaceholder | src/component/note.rs:90 | the first placeholder is replaced by the rendered sections; the rest of the note is processed the same way, even if the sections print the placeholder themselves |
| Note.NoteSinglePlaceholder | src/component/note.rs:90 | a note with one placeholder gets the rendered sections in its place |
| Note.NoteWithoutHighlightLabels | src/component/note.rs:62-90 | without highlight labels the placeholder becomes two line breaks, whatever the issues |
| Note.CreateNote | src/component/note.rs:50-55 | the search's error, or the note rendered from exactly the issues the search returned |
| Note.CreatedSectionMember | src/component/note.rs:50-85 | a section of the created note lists an issue's summary iff the search returned that issue and it carries the section's label |
| Text.Split | src/component/repo/issue.rs:109 | `split(" ")` gives at least one piece and no piece holds a space |
| Text.Join | src/component/repo/issue.rs:130 | the joined string is as long as all pieces together plus one separator fewer than there are pieces; the empty list joins to the empty string; the pieces' content and order are stated by `JoinAppend`, `JoinSplit` and `SplitJoin` |
| Text.JoinSplit | src/component/repo/issue.rs:109 | joining the pieces of `split(" ")` with spaces gives back the string |
| Text.SplitJoin | src/component/repo/issue.rs:109 | splitting a join of space-free pieces gives back the pieces |
| Text.ReplaceAll | src/component/note.rs:90 | `str::replace` as a left-to-right scan; stated by `ReplaceWithoutMatch`, `ReplaceSkipsPrefix` and `ReplaceFirstOccurrence` |
| Text.ReplaceSkipsPrefix | src/component/note.rs:90 | a prefix in which no occurrence of the pattern starts is copied as it is, and the scan continues after it |
| Text.ReplaceWithoutMatch | src/component/note.rs:90 | `replace` leaves a string without the pattern unchanged |
| Text.ReplaceFirstOccurrence | src/component/note.rs:90 | for a pattern that cannot overlap itself, `replace` substitutes the first occurrence and continues after it |

## Left out

- I/O, logging, async execution and the hubcaps client's internals are not modelled.
  The GitHub service is the value `Remote`. Its streams are finite sequences, and the
  client is a function of the token.
- Each latest-release lookup is a separate call to the service: `latestRelease(n)` is the
  outcome of the `n`-th lookup of one listing. The model does not say whether two lookups
  agree.
- The conversion `to_issue` (serde round trip) is not modelled. Its outcome is part of
  each search item of `Remote.searchIssues`.
- The search options' sort key (`Sort::Created`, `IssuesSort::Created`) is constant in the
  source and is not recorded.
- Note.RenderNote: the Tera engine is modelled by the text this fixed template produces:
  - the `-%}` trim rule applies;
  - no HTML escaping, because the template name has no extension;
  - an array prints as `[a, b]`.
  The engine's own render error is not modelled; this template prints only fields that
  are always present.
- `u64` ids and issue numbers are unbounded naturals; no width is modelled.
- Panics (`unwrap()` on `None` or on a failed item) are modelled as `Err(Panic(..))`. A
  panic is a result the caller can observe, not an abort of the process.
- `create_github_client` and `get_latest_release` are not part of this model beyond their
  outcomes.
- Command-line parsing, argument overrides, `NoteConfig::new`, the issue-update commands
  (their bodies are `todo!()`), contributor lists and the release component's internals
  are outside the modelled core.

## Findings

| source | as written | input that shows it | evidently intended | confidence | as-written member | corrected member |
|---|---|---|---|---|---|---|
| src/component/issue.rs:124 | each excluded label `L` becomes the token `label:L-`. That is a positive qualifier selecting issues with a label named `L-`; it does not exclude `L`. | `exclude_labels = ["wontfix"]` yields `label:wontfix-` in the query | `-label:L`, the negated qualifier, as `src/component/repo/issue.rs:127` writes it | not executed | IssueSearch.ExclusionQueryAsWritten | IssueSearch.CorrectedSearchQueryExcludes |
