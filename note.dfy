/** The note component (`src/component/note.rs`): one section per highlight label, the
    rendering of the fixed section template, and its substitution into the note. */
module Note {
  import opened Common
  import opened Text
  import opened GitHub
  import opened Config
  import IssueSearch

  /** What a section shows of one issue. */
  datatype IssueSummary = IssueSummary(id: nat, title: string, url: string, assignees: seq<string>)

  /** A section: its title is the highlight label it was built for. */
  datatype IssueSection = IssueSection(title: string, issues: seq<IssueSummary>)

  function Summarize(issue: Issue): IssueSummary
  {
    IssueSummary(issue.id, issue.title, issue.url, issue.assignees)
  }

  // ---------------------------------------------------------------------------------
  // Sections

  /** The summaries of the issues that carry `name`, in input order. */
  function SectionIssues(issues: seq<Issue>, name: string): (r: seq<IssueSummary>)
    ensures |r| <= |issues|
  {
    if |issues| == 0 then []
    else
      var head := if name in issues[0].labels then [Summarize(issues[0])] else [];
      head + SectionIssues(issues[1..], name)
  }

  /** A section holds exactly the summaries of the issues that carry its label. */
  lemma {:induction false} SectionIssuesMember(issues: seq<Issue>, name: string, s: IssueSummary)
    ensures s in SectionIssues(issues, name) <==>
      exists k :: 0 <= k < |issues| && name in issues[k].labels && Summarize(issues[k]) == s
  {
    if |issues| > 0 {
      SectionIssuesMember(issues[1..], name, s);
      if exists k :: 0 <= k < |issues[1..]| && name in issues[1..][k].labels && Summarize(issues[1..][k]) == s {
        var k :| 0 <= k < |issues[1..]| && name in issues[1..][k].labels && Summarize(issues[1..][k]) == s;
        assert issues[k + 1] == issues[1..][k];
      }
      if exists k :: 0 <= k < |issues| && name in issues[k].labels && Summarize(issues[k]) == s {
        var k :| 0 <= k < |issues| && name in issues[k].labels && Summarize(issues[k]) == s;
        if k > 0 {
          assert issues[1..][k - 1] == issues[k];
        }
      }
    }
  }

  /** Sections keep input order: the section of a concatenation is the concatenation of the sections. */
  lemma {:induction false} SectionIssuesAppend(a: seq<Issue>, b: seq<Issue>, name: string)
    ensures SectionIssues(a + b, name) == SectionIssues(a, name) + SectionIssues(b, name)
  {
    if |a| == 0 {
      assert a + b == b;
    } else {
      assert (a + b)[0] == a[0];
      assert (a + b)[1..] == a[1..] + b;
      SectionIssuesAppend(a[1..], b, name);
      var head := if name in a[0].labels then [Summarize(a[0])] else [];
      assert SectionIssues(a + b, name) == head + SectionIssues(a[1..] + b, name);
      assert SectionIssues(a, name) == head + SectionIssues(a[1..], name);
    }
  }

  /** When every issue carries the label, the section summarises all of them, in order. */
  lemma {:induction false} SectionIssuesAllCarry(issues: seq<Issue>, name: string)
    requires forall k :: 0 <= k < |issues| ==> name in issues[k].labels
    ensures |SectionIssues(issues, name)| == |issues|
    ensures forall k :: 0 <= k < |issues| ==> SectionIssues(issues, name)[k] == Summarize(issues[k])
  {
    if |issues| > 0 {
      SectionIssuesAllCarry(issues[1..], name);
      var rest := SectionIssues(issues[1..], name);
      assert SectionIssues(issues, name) == [Summarize(issues[0])] + rest;
      forall k | 0 < k < |issues| ensures SectionIssues(issues, name)[k] == Summarize(issues[k]) {
        assert issues[1..][k - 1] == issues[k];
      }
    }
  }

  /** An issue carrying two highlight labels is shown under both. */
  lemma SectionIssuesRepeats(issues: seq<Issue>, k: nat, first: string, second: string)
    requires k < |issues| && first in issues[k].labels && second in issues[k].labels
    ensures Summarize(issues[k]) in SectionIssues(issues, first)
    ensures Summarize(issues[k]) in SectionIssues(issues, second)
  {
    SectionIssuesMember(issues, first, Summarize(issues[k]));
    SectionIssuesMember(issues, second, Summarize(issues[k]));
  }

  /** The sections `render_note` builds: one per highlight label, in configured order, none
      when no highlight labels are configured. */
  function Sections(config: IssueSearchConfig, issues: seq<Issue>): (r: seq<IssueSection>)
    ensures |r| == |config.highlightLabels.UnwrapOr([])|
    ensures forall j :: 0 <= j < |r| ==>
      r[j].title == config.highlightLabels.value[j] && r[j].issues == SectionIssues(issues, r[j].title)
  {
    var names := config.highlightLabels.UnwrapOr([]);
    seq(|names|, j requires 0 <= j < |names| => IssueSection(names[j], SectionIssues(issues, names[j])))
  }

  // ---------------------------------------------------------------------------------
  // The section template

  /** The decimal digits of `n`, as `{{ issue.id }}` prints an unsigned integer. */
  function NatToString(n: nat): (r: string)
    ensures |r| >= 1
    ensures forall k :: 0 <= k < |r| ==> '0' <= r[k] <= '9'
    ensures r[0] == '0' ==> n == 0
    decreases n
  {
    if n < 10 then [Digit(n)] else NatToString(n / 10) + [Digit(n % 10)]
  }

  function Digit(d: nat): (c: char)
    requires d < 10
    ensures '0' <= c <= '9'
  {
    "0123456789"[d]
  }

  /** The number a string of decimal digits denotes. */
  function DecimalValue(s: string): nat
    requires forall k :: 0 <= k < |s| ==> '0' <= s[k] <= '9'
  {
    if |s| == 0 then 0 else 10 * DecimalValue(s[..|s| - 1]) + (s[|s| - 1] as int - '0' as int)
  }

  lemma DigitValue(d: nat)
    requires d < 10
    ensures Digit(d) as int - '0' as int == d
  {
  }

  /** The printed id reads back as the id. */
  lemma {:induction false} NatToStringValue(n: nat)
    ensures DecimalValue(NatToString(n)) == n
    decreases n
  {
    var s := NatToString(n);
    if n < 10 {
      DigitValue(n);
      assert s[..0] == [];
    } else {
      NatToStringValue(n / 10);
      DigitValue(n % 10);
      assert s[..|s| - 1] == NatToString(n / 10);
    }
  }

  /** How the template prints an array of strings: bracketed, comma-separated. */
  function ArrayDisplay(items: seq<string>): string
  {
    "[" + Join(items, ", ") + "]"
  }

  /** One iteration of the inner loop; `-%}` removes the whitespace that opens the line,
      the indentation before `{% endfor %}` stays. */
  function IssueLine(s: IssueSummary): string
  {
    "- " + s.title + " ([" + NatToString(s.id) + "](" + s.url + ")) - " + ArrayDisplay(s.assignees) + "\n  "
  }

  /** One iteration of the outer loop: heading, the issue lines, a closing line break. */
  function SectionText(section: IssueSection): string
  {
    "\n## " + section.title + "\n  " + Flatten(IssueLines(section.issues)) + "\n"
  }

  function IssueLines(issues: seq<IssueSummary>): (r: seq<string>)
    ensures |r| == |issues| && forall k :: 0 <= k < |issues| ==> r[k] == IssueLine(issues[k])
  {
    seq(|issues|, k requires 0 <= k < |issues| => IssueLine(issues[k]))
  }

  /** The whole template rendered with `sections`: the outer loop between two line breaks. */
  function RenderBody(sections: seq<IssueSection>): string
  {
    "\n" + SectionsText(sections) + "\n"
  }

  /** The outer loop's output: the sections' texts one after the other. */
  function SectionsText(sections: seq<IssueSection>): string
  {
    Flatten(SectionTexts(sections))
  }

  function SectionTexts(sections: seq<IssueSection>): (r: seq<string>)
    ensures |r| == |sections| && forall j :: 0 <= j < |sections| ==> r[j] == SectionText(sections[j])
  {
    seq(|sections|, j requires 0 <= j < |sections| => SectionText(sections[j]))
  }

  /** Sections are printed in order: section `j` is printed, heading first, after the
      sections before it and before those after it. */
  lemma SectionsTextAt(sections: seq<IssueSection>, j: nat)
    requires j < |sections|
    ensures SectionsText(sections)
         == SectionsText(sections[..j])
            + ("\n## " + sections[j].title + "\n  " + Flatten(IssueLines(sections[j].issues)) + "\n")
            + SectionsText(sections[j + 1..])
  {
    var t := SectionTexts(sections);
    FlattenAt(t, j);
    assert SectionTexts(sections[..j]) == t[..j];
    assert SectionTexts(sections[j + 1..]) == t[j + 1..];
  }

  /** A section without issues prints its heading and no issue line. */
  lemma EmptySectionText(title: string)
    ensures SectionText(IssueSection(title, [])) == "\n## " + title + "\n  \n"
  {
    assert IssueLines([]) == [];
  }

  /** The issues of a section are printed in order: issue `k`'s line comes after the lines
      of the issues before it and before those of the issues after it. */
  lemma IssueLinesAt(issues: seq<IssueSummary>, k: nat)
    requires k < |issues|
    ensures Flatten(IssueLines(issues))
         == Flatten(IssueLines(issues[..k])) + IssueLine(issues[k]) + Flatten(IssueLines(issues[k + 1..]))
  {
    var lines := IssueLines(issues);
    FlattenAt(lines, k);
    assert IssueLines(issues[..k]) == lines[..k];
    assert IssueLines(issues[k + 1..]) == lines[k + 1..];
  }

  // ---------------------------------------------------------------------------------
  // Substitution into the note

  /** The placeholder the note template carries. */
  const Placeholder: string := "{content}"

  /** Two placeholders never overlap: only its first character is an opening brace. */
  lemma PlaceholderBorderFree()
    ensures |Placeholder| > 0 && BorderFree(Placeholder)
  {
    forall k: nat | 0 < k < |Placeholder| ensures Placeholder[k..] != Placeholder[..|Placeholder| - k] {
      assert Placeholder[k] != '{';
      assert Placeholder[k..][0] != Placeholder[..|Placeholder| - k][0];
    }
  }

  /** What `render_note` returns: a panic when no note template is configured, else the
      note with every placeholder replaced by the rendered sections. */
  function NoteOutcome(config: IssueSearchConfig, issues: seq<Issue>): Result<string>
  {
    match config.note
    case None => Err(UnwrapNone)
    case Some(note) => Ok(ReplaceAll(note, Placeholder, RenderBody(Sections(config, issues))))
  }

  /** `render_note`. */
  method RenderNote(config: IssueSearchConfig, issues: seq<Issue>) returns (r: Result<string>)
    ensures r == NoteOutcome(config, issues)
  {
    var sections: seq<IssueSection> := [];
    if config.highlightLabels.Some? {
      var names := config.highlightLabels.value;
      var i := 0;
      while i < |names|
        invariant 0 <= i <= |names|
        invariant |sections| == i
        invariant forall j :: 0 <= j < i ==> sections[j] == IssueSection(names[j], SectionIssues(issues, names[j]))
      {
        var found := SectionIssues(issues, names[i]);
        sections := sections + [IssueSection(names[i], found)];
        i := i + 1;
      }
    }
    assert sections == Sections(config, issues);
    var output := RenderBody(sections);
    if config.note.None? {
      return Err(UnwrapNone);
    }
    output := ReplaceAll(config.note.value, Placeholder, output);
    return Ok(output);
  }

  /** A note without the placeholder is returned unchanged. */
  lemma NoteWithoutPlaceholder(config: IssueSearchConfig, issues: seq<Issue>)
    requires config.note.Some? && !Occurs(config.note.value, Placeholder)
    ensures NoteOutcome(config, issues) == Ok(config.note.value)
  {
    ReplaceWithoutMatch(config.note.value, Placeholder, RenderBody(Sections(config, issues)));
  }

  /** The first placeholder is replaced by the rendered sections, and the rest of the note
      is processed in the same way, even if the sections themselves print the placeholder. */
  lemma NoteFirstPlaceholder(config: IssueSearchConfig, issues: seq<Issue>, a: string, b: string)
    requires config.note == Some(a + Placeholder + b) && !Occurs(a, Placeholder)
    ensures NoteOutcome(config, issues)
         == Ok(a + RenderBody(Sections(config, issues)) + ReplaceAll(b, Placeholder, RenderBody(Sections(config, issues))))
  {
    PlaceholderBorderFree();
    ReplaceFirstOccurrence(a, b, Placeholder, RenderBody(Sections(config, issues)));
  }

  /** A note with one placeholder gets the rendered sections in its place. */
  lemma NoteSinglePlaceholder(config: IssueSearchConfig, issues: seq<Issue>, a: string, b: string)
    requires config.note == Some(a + Placeholder + b)
    requires !Occurs(a, Placeholder) && !Occurs(b, Placeholder)
    ensures NoteOutcome(config, issues) == Ok(a + RenderBody(Sections(config, issues)) + b)
  {
    NoteFirstPlaceholder(config, issues, a, b);
    ReplaceWithoutMatch(b, Placeholder, RenderBody(Sections(config, issues)));
  }

  /** Without highlight labels the placeholder becomes two line breaks, whatever the issues. */
  lemma NoteWithoutHighlightLabels(config: IssueSearchConfig, issues: seq<Issue>)
    requires config.note.Some?
    requires config.highlightLabels.UnwrapOr([]) == []
    ensures NoteOutcome(config, issues) == Ok(ReplaceAll(config.note.value, Placeholder, "\n\n"))
  {
    assert Sections(config, issues) == [];
    assert SectionTexts([]) == [];
    assert RenderBody([]) == "\n\n";
  }

  // ---------------------------------------------------------------------------------
  // The whole command

  /** `create_note`: the search's error, or the note rendered from exactly the issues the
      search returned. */
  method CreateNote(config: IssueSearchConfig, remote: Remote) returns (r: Result<string>)
    ensures IssueSearch.SearchOutcome(config, remote).Err? ==> r == Err(IssueSearch.SearchOutcome(config, remote).error)
    ensures IssueSearch.SearchOutcome(config, remote).Ok? ==> r == NoteOutcome(config, IssueSearch.SearchOutcome(config, remote).value)
  {
    var found := IssueSearch.SearchIssues(config, remote);
    if found.Err? {
      return Err(found.error);
    }
    r := RenderNote(config, found.value);
  }

  /** A section of the created note lists an issue exactly when one of the label searches
      found it and it carries that section's label. */
  lemma CreatedSectionMember(config: IssueSearchConfig, remote: Remote, j: nat, s: IssueSummary)
    requires IssueSearch.SearchOutcome(config, remote).Ok?
    requires j < |config.highlightLabels.UnwrapOr([])|
    ensures var found := IssueSearch.SearchOutcome(config, remote).value;
      s in Sections(config, found)[j].issues <==>
        exists x :: x in found && config.highlightLabels.value[j] in x.labels && Summarize(x) == s
  {
    var found := IssueSearch.SearchOutcome(config, remote).value;
    var name := config.highlightLabels.value[j];
    SectionIssuesMember(found, name, s);
    if exists x :: x in found && name in x.labels && Summarize(x) == s {
      var x :| x in found && name in x.labels && Summarize(x) == s;
      var k :| 0 <= k < |found| && found[k] == x;
    }
  }
}
