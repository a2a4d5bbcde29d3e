/** The configuration records the pipeline is driven by. */
module Config {
  import opened Common

  /** Requested creation-time order of label searches. */
  datatype IssueSort = Asc | Desc

  /** One label whose issues get a section of their own. */
  datatype HighlightLabelConfig = HighlightLabelConfig(
    labelName: string,
    title: Option<string>,
    description: Option<string>)

  /** The configuration of the repository component (`src/config.rs`). */
  datatype NoteConfig = NoteConfig(
    owner: string,
    repo: string,
    token: string,
    state: string,
    note: Option<string>,
    milestone: Option<string>,
    showContributor: bool,
    extraContributors: Option<seq<string>>,
    excludeIssues: Option<seq<nat>>,
    sort: Option<IssueSort>,
    labels: Option<seq<string>>,
    anyLabels: Option<seq<string>>,
    excludeLabels: Option<seq<string>>,
    highlightLabels: Option<seq<HighlightLabelConfig>>)

  /** The configuration of the issue and note components of the earlier revision, with the
      fields its note command fills in; highlight labels are plain label names there. */
  datatype IssueSearchConfig = IssueSearchConfig(
    owner: string,
    repo: string,
    token: string,
    state: string,
    note: Option<string>,
    milestone: Option<string>,
    labels: Option<seq<string>>,
    excludeLabels: Option<seq<string>>,
    highlightLabels: Option<seq<string>>,
    showContributor: bool)
}
