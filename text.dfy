/** The three string operations of Rust's standard library the pipeline relies on:
    `str::split` on one character, `[String]::join` and `str::replace`. */
module Text {
  import opened Common

  /** `s.split(sep)` for a one-character pattern: the pieces between separators, so that
      `n` separators give `n + 1` pieces (the empty string gives one empty piece). */
  function Split(s: string, sep: char): (r: seq<string>)
    ensures |r| >= 1
    ensures forall k :: 0 <= k < |r| ==> sep !in r[k]
    decreases |s|
  {
    if |s| == 0 then [""]
    else
      var rest := Split(s[1..], sep);
      if s[0] == sep then [""] + rest
      else [[s[0]] + rest[0]] + rest[1..]
  }

  /** `pieces.join(sep)`: the pieces with `sep` between neighbours, so that the result is
      as long as all pieces together plus one separator fewer than there are pieces. */
  function Join(pieces: seq<string>, sep: string): (r: string)
    ensures |pieces| == 0 ==> r == ""
    ensures |pieces| > 0 ==> |r| == TotalLength(pieces) + (|pieces| - 1) * |sep|
  {
    if |pieces| == 0 then ""
    else if |pieces| == 1 then pieces[0]
    else pieces[0] + sep + Join(pieces[1..], sep)
  }

  /** Two pieces are joined by one separator. */
  lemma JoinPair(a: string, b: string, sep: string)
    ensures Join([a, b], sep) == a + sep + b
  {
    assert [a, b][1..] == [b];
  }

  /** Joining two non-empty lists puts exactly one separator between them. */
  lemma {:induction false} JoinAppend(a: seq<string>, b: seq<string>, sep: string)
    requires |a| > 0 && |b| > 0
    ensures Join(a + b, sep) == Join(a, sep) + sep + Join(b, sep)
  {
    if |a| == 1 {
      assert (a + b)[1..] == b;
    } else {
      assert (a + b)[1..] == a[1..] + b;
      JoinAppend(a[1..], b, sep);
    }
  }

  /** Joining the pieces of a split gives back the original string. */
  lemma {:induction false} JoinSplit(s: string, sep: char)
    ensures Join(Split(s, sep), [sep]) == s
    decreases |s|
  {
    if |s| > 0 {
      var rest := Split(s[1..], sep);
      JoinSplit(s[1..], sep);
      if s[0] == sep {
        assert ([""] + rest)[1..] == rest;
      } else if |rest| == 1 {
        assert [s[0]] + s[1..] == s;
      } else {
        assert ([[s[0]] + rest[0]] + rest[1..])[1..] == rest[1..];
        assert [s[0]] + s[1..] == s;
      }
    }
  }

  /** Splitting a string that begins with a separator-free prefix `a`. */
  lemma {:induction false} SplitPrefix(a: string, t: string, sep: char)
    requires sep !in a
    ensures Split(a + t, sep) == [a + Split(t, sep)[0]] + Split(t, sep)[1..]
    decreases |a|
  {
    if |a| > 0 {
      SplitPrefix(a[1..], t, sep);
      assert (a + t)[1..] == a[1..] + t;
      assert [a[0]] + (a[1..] + Split(t, sep)[0]) == a + Split(t, sep)[0];
    } else {
      assert a + t == t;
      assert a + Split(t, sep)[0] == Split(t, sep)[0];
      assert Split(t, sep) == [Split(t, sep)[0]] + Split(t, sep)[1..];
    }
  }

  /** Splitting a join of separator-free pieces gives back the pieces. */
  lemma {:induction false} SplitJoin(pieces: seq<string>, sep: char)
    requires |pieces| >= 1
    requires forall k :: 0 <= k < |pieces| ==> sep !in pieces[k]
    ensures Split(Join(pieces, [sep]), sep) == pieces
  {
    if |pieces| == 1 {
      SplitPrefix(pieces[0], "", sep);
      assert pieces[0] + "" == pieces[0];
    } else {
      var rest := Join(pieces[1..], [sep]);
      SplitJoin(pieces[1..], sep);
      assert Join(pieces, [sep]) == pieces[0] + ([sep] + rest);
      SplitPrefix(pieces[0], [sep] + rest, sep);
      assert ([sep] + rest)[1..] == rest;
      assert Split([sep] + rest, sep) == [""] + pieces[1..];
      assert pieces[0] + "" == pieces[0];
    }
  }

  /** `pat` occurs in `s` starting at index `i`. */
  predicate MatchAt(s: string, pat: string, i: nat)
  {
    i + |pat| <= |s| && s[i..i + |pat|] == pat
  }

  predicate Occurs(s: string, pat: string)
  {
    exists i: nat | i <= |s| :: MatchAt(s, pat, i)
  }

  /** `s.replace(pat, rep)` for a non-empty pattern: scanning the original string from the
      left, every non-overlapping occurrence of `pat` is replaced by `rep`; the scan resumes
      after the occurrence, so the inserted text is never scanned. */
  function ReplaceAll(s: string, pat: string, rep: string): string
    requires |pat| > 0
    decreases |s|
  {
    if |s| < |pat| then s
    else if s[..|pat|] == pat then rep + ReplaceAll(s[|pat|..], pat, rep)
    else [s[0]] + ReplaceAll(s[1..], pat, rep)
  }

  /** Dropping the first character shifts every match one position to the left. */
  lemma MatchAtShift(s: string, pat: string, i: nat)
    requires |s| > 0
    ensures MatchAt(s[1..], pat, i) <==> MatchAt(s, pat, i + 1)
  {
    if i + |pat| <= |s[1..]| {
      assert s[1..][i..i + |pat|] == s[i + 1..i + 1 + |pat|];
    }
  }

  /** A string without the pattern is left unchanged. */
  lemma {:induction false} ReplaceWithoutMatch(s: string, pat: string, rep: string)
    requires |pat| > 0
    requires !Occurs(s, pat)
    ensures ReplaceAll(s, pat, rep) == s
    decreases |s|
  {
    if |s| >= |pat| {
      assert !MatchAt(s, pat, 0);
      assert !Occurs(s[1..], pat) by {
        forall i: nat ensures !MatchAt(s[1..], pat, i) {
          MatchAtShift(s, pat, i);
          if i + 1 <= |s| {
            assert !MatchAt(s, pat, i + 1);
          }
        }
      }
      ReplaceWithoutMatch(s[1..], pat, rep);
      assert [s[0]] + s[1..] == s;
    }
  }

  /** Characters before the first occurrence are copied as they are. */
  lemma {:induction false} ReplaceSkipsPrefix(a: string, x: string, pat: string, rep: string)
    requires |pat| > 0
    requires forall i: nat :: i < |a| ==> !MatchAt(a + x, pat, i)
    ensures ReplaceAll(a + x, pat, rep) == a + ReplaceAll(x, pat, rep)
    decreases |a|
  {
    var s := a + x;
    if |a| == 0 {
      assert s == x;
    } else if |s| < |pat| {
      assert ReplaceAll(x, pat, rep) == x;
    } else {
      assert !MatchAt(s, pat, 0);
      assert s[..|pat|] != pat;
      assert ReplaceAll(s, pat, rep) == [s[0]] + ReplaceAll(s[1..], pat, rep);
      assert s[1..] == a[1..] + x;
      forall i: nat | i < |a[1..]| ensures !MatchAt(a[1..] + x, pat, i) {
        MatchAtShift(s, pat, i);
        assert !MatchAt(s, pat, i + 1);
      }
      ReplaceSkipsPrefix(a[1..], x, pat, rep);
      assert [a[0]] + (a[1..] + ReplaceAll(x, pat, rep)) == a + ReplaceAll(x, pat, rep);
    }
  }

  /** A pattern none of whose proper suffixes is also a prefix of it: two occurrences never overlap. */
  predicate BorderFree(pat: string)
  {
    forall k: nat :: 0 < k < |pat| ==> pat[k..] != pat[..|pat| - k]
  }

  /** Every occurrence is replaced: with no occurrence starting in `a`, the text `a + pat + b`
      becomes `a + rep + (b with its own occurrences replaced)`, whatever `rep` contains. */
  lemma {:induction false} ReplaceFirstOccurrence(a: string, b: string, pat: string, rep: string)
    requires |pat| > 0 && BorderFree(pat)
    requires !Occurs(a, pat)
    ensures ReplaceAll(a + pat + b, pat, rep) == a + rep + ReplaceAll(b, pat, rep)
  {
    var s := a + (pat + b);
    assert s == a + pat + b;
    forall i: nat | i < |a| ensures !MatchAt(s, pat, i) {
      if i + |pat| <= |a| {
        assert a[i..i + |pat|] == s[i..i + |pat|];
        assert !MatchAt(a, pat, i);
      } else if i + |pat| <= |s| {
        // an occurrence starting in `a` and reaching into `pat` would make a proper
        // suffix of `pat` equal to a prefix of it
        var k: nat := |a| - i;
        assert pat[k..] != pat[..|pat| - k];
        var j :| 0 <= j < |pat| - k && pat[k..][j] != pat[..|pat| - k][j];
        assert s[i..i + |pat|][k + j] == s[|a| + j] == pat[j];
        assert s[i..i + |pat|][k + j] != pat[k + j];
      }
    }
    ReplaceSkipsPrefix(a, pat + b, pat, rep);
    assert (pat + b)[..|pat|] == pat;
    assert (pat + b)[|pat|..] == b;
  }
}
