/** Quoting arbitrary one-line text as code: the quoted text is always one code span. */
module CodeLiteral {
  import opened Text
  import opened CodeMask

  function Longest(runs: seq<Run>): (n: nat)
    requires forall i :: 0 <= i < |runs| ==> runs[i].start <= runs[i].end
    ensures forall i :: 0 <= i < |runs| ==> runs[i].Length() <= n
  {
    if runs == [] then 0
    else var rest := Longest(runs[1..]);
      if runs[0].Length() > rest then runs[0].Length() else rest
  }

  function LongestRun(text: string): nat {
    RunsAre(text, 0);
    Longest(Runs(text))
  }

  function Ticks(n: nat): (s: string)
    ensures |s| == n && forall i :: 0 <= i < n ==> s[i] == '`'
  {
    seq(n, _ => '`')
  }

  /** A backtick or a space at either end would merge with the delimiter. */
  predicate NeedsPadding(text: string) {
    text != "" && (text[0] in "` " || text[|text| - 1] in "` ")
  }

  function Padding(text: string): string { if NeedsPadding(text) then " " else "" }

  function Width(text: string): nat { LongestRun(text) + 1 }

  /** _literal. */
  function Literal(text: string): string {
    Ticks(Width(text)) + Padding(text) + text + Padding(text) + Ticks(Width(text))
  }

  /** The delimiter is wider than every run of the text. */
  lemma RunIsNotLonger(text: string, r: Run)
    requires IsRun(text, r)
    ensures r.Length() < Width(text)
  {
    RunsAre(text, 0);
    var runs := Runs(text);
    assert text[r.start] == '`';
    var i :| 0 <= i < |runs| && runs[i].start <= r.start < runs[i].end;
    SameRun(text, r.start, r, runs[i]);
  }

  /** Maximal runs that share a position are equal. */
  lemma SameRun(p: string, at: nat, a: Run, b: Run)
    requires IsRun(p, a) && IsRun(p, b) && a.start <= at < a.end && b.start <= at < b.end
    ensures a == b
  {
  }

  /** The shape of a literal around its text. */
  lemma Shape(text: string)
    requires text != ""
    ensures var l, w, o := Literal(text), Width(text), Width(text) + |Padding(text)|;
      && |l| == 2 * o + |text|
      && (forall i :: 0 <= i < w || |l| - w <= i < |l| ==> l[i] == '`')
      && l[w] != '`' && l[|l| - 1 - w] != '`'
      && (forall i :: 0 <= i < |text| ==> l[o + i] == text[i])
      && (forall i :: w <= i < o || |l| - o <= i < |l| - w ==> l[i] == ' ')
  {
    hide LongestRun;
  }

  /** Every run of a literal is a delimiter or a run of the quoted text. */
  lemma LiteralRun(text: string, r: Run)
    requires text != "" && IsRun(Literal(text), r)
    ensures var l, w := Literal(text), Width(text);
      r == Run(0, w) || r == Run(|l| - w, |l|) || (w <= r.start && r.Length() < w)
    ensures r.start < r.end <= |Literal(text)|
  {
    hide Literal, LongestRun, Padding, Width, Ticks, NeedsPadding;
    Shape(text);
    var l, w := Literal(text), Width(text);
    if r.start < w {
      SameRun(l, r.start, r, Run(0, w));
    } else if r.end > |l| - w {
      assert IsRun(l, Run(|l| - w, |l|));
      SameRun(l, r.end - 1, r, Run(|l| - w, |l|));
    } else {
      InnerRun(text, r);
    }
  }

  /** A run between the delimiters lies in the quoted text. */
  lemma InnerRun(text: string, r: Run)
    requires text != "" && IsRun(Literal(text), r) && Width(text) <= r.start && r.end <= |Literal(text)| - Width(text)
    ensures r.Length() < Width(text)
  {
    hide Literal, Padding, LongestRun, Width, IsRun, NeedsPadding, Ticks;
    Shape(text);
    var l, o := Literal(text), Width(text) + |Padding(text)|;
    Unshift(l, text, o, Width(text), r);
    RunIsNotLonger(text, Run(r.start - o, r.end - o));
  }

  lemma Unshift(l: string, text: string, o: nat, w: nat, r: Run)
    requires w <= o && |l| == 2 * o + |text| && IsRun(l, r) && w <= r.start && r.end <= |l| - w
    requires forall i :: 0 <= i < |text| ==> l[o + i] == text[i]
    requires forall i :: w <= i < o || |l| - o <= i < |l| - w ==> l[i] == ' '
    ensures o <= r.start && r.end <= |l| - o && IsRun(text, Run(r.start - o, r.end - o))
  {
    assert l[r.start] == '`' && l[r.end - 1] == '`';
    var inner := Run(r.start - o, r.end - o);
    forall i | inner.start <= i < inner.end ensures text[i] == '`' { assert text[i] == l[o + i]; }
    assert inner.start > 0 ==> text[inner.start - 1] == l[o + (inner.start - 1)];
    assert inner.end < |text| ==> text[inner.end] == l[o + inner.end];
  }

  /** A run of a text that opens and closes with w backticks and has only shorter runs between. */
  predicate Delimits(r: Run, n: nat, w: nat) {
    r.start < r.end <= n && (r == Run(0, w) || (w <= n && r == Run(n - w, n)) || (w <= r.start && r.Length() < w))
  }

  lemma Ends(l: string, runs: seq<Run>, w: nat)
    requires AreRuns(l, runs, 0) && 0 < 2 * w < |l| && l[0] == '`'
    requires forall i :: |l| - w <= i < |l| ==> l[i] == '`'
    requires forall i :: 0 <= i < |runs| ==> Delimits(runs[i], |l|, w)
    ensures |runs| >= 2 && runs[0] == Run(0, w) && runs[|runs| - 1] == Run(|l| - w, |l|)
  {
    hide IsRun;
    var first :| 0 <= first < |runs| && runs[first].start <= 0 < runs[first].end;
    assert first == 0;
    assert l[|l| - 1] == '`';
    var last :| 0 <= last < |runs| && runs[last].start <= |l| - 1 < runs[last].end;
    assert runs[last].end == |l|;
    assert last == |runs| - 1 by {
      assert Delimits(runs[|runs| - 1], |l|, w);
    }
    assert Delimits(runs[0], |l|, w);
    LastRun(l, runs[last], w);
  }

  lemma LastRun(l: string, r: Run, w: nat)
    requires IsRun(l, r) && r.end == |l| && 0 < 2 * w < |l| && Delimits(r, |l|, w)
    requires forall i :: |l| - w <= i < |l| ==> l[i] == '`'
    ensures r == Run(|l| - w, |l|)
  {
  }

  /** The opening delimiter is the first run and the closing one the last. */
  lemma Delimiters(text: string)
    requires text != ""
    ensures var l, w, runs := Literal(text), Width(text), Runs(Literal(text));
      && |runs| >= 2 && runs[0] == Run(0, w) && runs[|runs| - 1] == Run(|l| - w, |l|)
      && forall i :: 0 < i < |runs| - 1 ==> runs[i].Length() != w
  {
    var l, w, runs := Literal(text), Width(text), Runs(Literal(text));
    RunsAre(l, 0);
    Shape(text);
    hide Literal, Runs, Padding, LongestRun;
    forall i | 0 <= i < |runs| ensures Delimits(runs[i], |l|, w) {
      LiteralRun(text, runs[i]);
    }
    hide IsRun;
    Ends(l, runs, w);
    forall i | 0 < i < |runs| - 1 ensures runs[i].Length() != w {
      assert Delimits(runs[i], |l|, w);
      assert runs[0].end < runs[i].start && runs[i].end < runs[|runs| - 1].start;
    }
  }

  lemma {:induction false} NoBreak(text: string, from: nat)
    requires from <= |text| && '\n' !in text
    ensures NextBreak(text, from).None?
    decreases |text| - from
  {
    if from < |text| { NoBreak(text, from + 1); }
  }

  lemma OneLine(text: string)
    requires '\n' !in text
    ensures '\n' !in Literal(text)
  {
    hide LongestRun;
    var t, p := Ticks(Width(text)), Padding(text);
    assert '\n' !in t && '\n' !in p;
  }

  /** Whatever nonempty one-line text is quoted, the quoted form is masked completely, as one code span. */
  lemma LiteralIsOneSpan(text: string)
    requires text != "" && '\n' !in text
    ensures var l := Literal(text); var runs := Runs(l);
      && |runs| >= 2 && AreRuns(l, runs, 0)
      && Closer(l, runs, 0) == Some(|runs| - 1) && runs[|runs| - 1].end == |l|
      && MaskedInline(l) == Blank(l)
  {
    var l := Literal(text);
    var runs := Runs(l);
    OneLine(text);
    NoBreak(l, 0);
    RunsAre(l, 0);
    Delimiters(text);
    hide Literal, Runs, Width, IsRun;
    assert Backslashes(l, 0) == 0;
    assert Closer(l, runs, 0) == Some(|runs| - 1);
    MaskEnd(l, runs, |l|);
    assert MaskRuns(l, runs, 0, 0) == l[0..0] + Blank(l[0..|l|]) + "";
    assert l[0..|l|] == l;
  }
}
