/** Blanking of code in Markdown, so that link syntax inside it stays invisible.
    Inline spans follow section 6.1 of the CommonMark specification, fences section 4.5.
    Masking keeps every position, so offsets in the masked text are offsets in the text. */
module CodeMask {
  import opened Text

  const MAX_LINKS := 20000

  function BlankChar(c: char): char { if c == '\n' then '\n' else ' ' }

  /** _blank. */
  function Blank(text: string): (b: string)
    ensures |b| == |text| && forall i :: 0 <= i < |text| ==> b[i] == BlankChar(text[i])
  {
    seq(|text|, i requires 0 <= i < |text| => BlankChar(text[i]))
  }

  /** Position by position, the masked text shows the text or its blank. */
  predicate Masks(masked: string, text: string) {
    |masked| == |text| && forall i :: 0 <= i < |text| ==> masked[i] == text[i] || masked[i] == BlankChar(text[i])
  }

  lemma MasksConcat(a: string, x: string, b: string, y: string)
    requires Masks(a, x) && Masks(b, y)
    ensures Masks(a + b, x + y)
  {
  }

  // Backtick runs

  /** A maximal run of backticks. */
  datatype Run = Run(start: nat, end: nat) {
    function Length(): int { end - start }
  }

  predicate IsRun(p: string, r: Run) {
    && r.start < r.end <= |p|
    && (forall i :: r.start <= i < r.end ==> p[i] == '`')
    && (r.start > 0 ==> p[r.start - 1] != '`') && (r.end < |p| ==> p[r.end] != '`')
  }

  function RunEnd(p: string, k: nat): (end: nat)
    requires k <= |p|
    ensures k <= end <= |p| && (forall i :: k <= i < end ==> p[i] == '`') && (end < |p| ==> p[end] != '`')
    decreases |p| - k
  {
    if k < |p| && p[k] == '`' then RunEnd(p, k + 1) else k
  }

  /** The runs from position k on, in order. */
  function RunsFrom(p: string, k: nat): seq<Run>
    requires k <= |p|
    decreases |p| - k
  {
    if k == |p| then []
    else if p[k] != '`' then RunsFrom(p, k + 1)
    else [Run(k, RunEnd(p, k))] + RunsFrom(p, RunEnd(p, k))
  }

  function Runs(p: string): seq<Run> { RunsFrom(p, 0) }

  /** All maximal runs from position k on, in order and apart. */
  predicate AreRuns(p: string, runs: seq<Run>, k: nat) {
    && (forall i :: 0 <= i < |runs| ==> IsRun(p, runs[i]) && k <= runs[i].start)
    && (forall i, j :: 0 <= i < j < |runs| ==> runs[i].end < runs[j].start)
    && (forall c :: k <= c < |p| && p[c] == '`' ==> exists i :: 0 <= i < |runs| && runs[i].start <= c < runs[i].end)
  }

  /** They are exactly the maximal runs. */
  lemma {:induction false} RunsAre(p: string, k: nat)
    requires k <= |p| && (0 < k < |p| && p[k] == '`' ==> p[k - 1] != '`')
    ensures AreRuns(p, RunsFrom(p, k), k)
    decreases |p| - k
  {
    if k == |p| {
    } else if p[k] != '`' {
      RunsAre(p, k + 1);
    } else {
      var end := RunEnd(p, k);
      if end < |p| {
        RunsAre(p, end);
        RunsSkip(p, end);
      }
      RunsCons(p, k, end, RunsFrom(p, end));
    }
  }

  lemma RunsCons(p: string, k: nat, end: nat, rest: seq<Run>)
    requires IsRun(p, Run(k, end)) && AreRuns(p, rest, end) && forall i :: 0 <= i < |rest| ==> end < rest[i].start
    ensures AreRuns(p, [Run(k, end)] + rest, k)
  {
    var all := [Run(k, end)] + rest;
    assert forall i :: 0 < i < |all| ==> all[i] == rest[i - 1];
    forall c | k <= c < |p| && p[c] == '`' ensures exists i :: 0 <= i < |all| && all[i].start <= c < all[i].end {
      if c < end {
        assert all[0].start <= c < all[0].end;
      } else {
        var i :| 0 <= i < |rest| && rest[i].start <= c < rest[i].end;
        assert all[i + 1] == rest[i];
      }
    }
  }

  lemma RunsSkip(p: string, end: nat)
    requires end < |p| && p[end] != '`' && AreRuns(p, RunsFrom(p, end), end)
    ensures forall i :: 0 <= i < |RunsFrom(p, end)| ==> end < RunsFrom(p, end)[i].start
  {
  }

  /** re.finditer over backticks. */
  method FindRuns(p: string) returns (runs: seq<Run>)
    ensures runs == Runs(p)
  {
    runs := [];
    var k := 0;
    while k < |p|
      invariant k <= |p| && runs + RunsFrom(p, k) == Runs(p)
    {
      if p[k] != '`' {
        k := k + 1;
      } else {
        var start: nat := k;
        while k < |p| && p[k] == '`'
          invariant start <= k <= |p| && RunEnd(p, start) == RunEnd(p, k)
          decreases |p| - k
        {
          k := k + 1;
        }
        runs := runs + [Run(start, k)];
      }
    }
  }

  // Which run closes which

  /** The number of backslashes directly before a position. */
  function Backslashes(p: string, at: nat): (n: nat)
    requires at <= |p|
    ensures n <= at
  {
    if at > 0 && p[at - 1] == '\\' then 1 + Backslashes(p, at - 1) else 0
  }

  /** An odd number of backslashes escapes the first backtick of a run, as an opener only. */
  function Escaped(p: string, r: Run): nat
    requires r.start <= |p|
  {
    Backslashes(p, r.start) % 2
  }

  function OpeningLength(p: string, r: Run): int
    requires r.start <= |p|
  {
    r.Length() - Escaped(p, r)
  }

  /** The naive rule, left to right: the first later run of exactly the given length. */
  function FirstOfLength(runs: seq<Run>, length: int, from: nat): (r: Option<nat>)
    requires from <= |runs|
    ensures r.Some? ==> from <= r.value < |runs| && runs[r.value].Length() == length
    ensures r.Some? ==> forall k :: from <= k < r.value ==> runs[k].Length() != length
    ensures r.None? ==> forall k :: from <= k < |runs| ==> runs[k].Length() != length
    decreases |runs| - from
  {
    if from == |runs| then None
    else if runs[from].Length() == length then Some(from)
    else FirstOfLength(runs, length, from + 1)
  }

  function Closer(p: string, runs: seq<Run>, i: nat): Option<nat>
    requires i < |runs| && runs[i].start <= |p|
  {
    var length := OpeningLength(p, runs[i]);
    if length > 0 then FirstOfLength(runs, length, i + 1) else None
  }

  method CountEscape(p: string, start: nat) returns (escaped: nat)
    requires start <= |p|
    ensures escaped == Backslashes(p, start) % 2
  {
    var before: nat := start;
    while before > 0 && p[before - 1] == '\\'
      invariant before <= start
      invariant Backslashes(p, start) == start - before + Backslashes(p, before)
    {
      before := before - 1;
    }
    escaped := (start - before) % 2;
  }

  /** `previous` remembers, for every length, the first run of that length from `index` on. */
  ghost predicate Remembers(previous: map<int, nat>, runs: seq<Run>, index: nat) {
    index <= |runs|
      && forall length: int ::
        (if length in previous then Some(previous[length]) else None) == FirstOfLength(runs, length, index)
  }

  lemma RememberOne(previous: map<int, nat>, runs: seq<Run>, index: nat)
    requires index < |runs| && Remembers(previous, runs, index + 1)
    ensures Remembers(previous[runs[index].Length() := index], runs, index)
  {
  }

  lemma RunInside(p: string, runs: seq<Run>, i: nat)
    requires AreRuns(p, runs, 0) && i < |runs|
    ensures runs[i].start < runs[i].end <= |p|
  {
    assert IsRun(p, runs[i]);
  }

  /** From run `index` on, the tables hold each run's opening and its closer by the naive rule. */
  predicate Paired(p: string, runs: seq<Run>, following: map<nat, Option<nat>>, openingStarts: map<nat, nat>,
      index: nat)
    requires AreRuns(p, runs, 0)
  {
    forall i: nat :: index <= i < |runs| ==>
      && i in following && following[i] == CloserAt(p, runs, i)
      && i in openingStarts && openingStarts[i] == OpensAt(p, runs, i)
  }

  function CloserAt(p: string, runs: seq<Run>, i: nat): Option<nat>
    requires AreRuns(p, runs, 0) && i < |runs|
  {
    RunInside(p, runs, i);
    Closer(p, runs, i)
  }

  function OpensAt(p: string, runs: seq<Run>, i: nat): nat
    requires AreRuns(p, runs, 0) && i < |runs|
  {
    RunInside(p, runs, i);
    runs[i].start + Escaped(p, runs[i])
  }

  lemma PairOne(p: string, runs: seq<Run>, following: map<nat, Option<nat>>, openingStarts: map<nat, nat>, index: nat,
      closer: Option<nat>, opens: nat)
    requires AreRuns(p, runs, 0) && index < |runs| && Paired(p, runs, following, openingStarts, index + 1)
    requires closer == CloserAt(p, runs, index) && opens == OpensAt(p, runs, index)
    ensures Paired(p, runs, following[index := closer], openingStarts[index := opens], index)
  {
    hide CloserAt, OpensAt, AreRuns;
  }

  lemma CloserRemembered(p: string, runs: seq<Run>, index: nat, previous: map<int, nat>, length: int)
    requires AreRuns(p, runs, 0) && index < |runs| && Remembers(previous, runs, index + 1)
    requires length == runs[index].Length() - (OpensAt(p, runs, index) - runs[index].start)
    ensures CloserAt(p, runs, index) == if length > 0 && length in previous then Some(previous[length]) else None
  {
    RunInside(p, runs, index);
    hide AreRuns, Backslashes;
  }

  /** The one right-to-left pass: for every run, where it opens and which run closes it. */
  method PairRuns(p: string, runs: seq<Run>) returns (following: map<nat, Option<nat>>, openingStarts: map<nat, nat>)
    requires AreRuns(p, runs, 0)
    ensures Paired(p, runs, following, openingStarts, 0)
  {
    following, openingStarts := map[], map[];
    var previous: map<int, nat> := map[];
    var index: nat := |runs|;
    assert Remembers(previous, runs, index);
    while index > 0
      invariant index <= |runs| && Remembers(previous, runs, index) && Paired(p, runs, following, openingStarts, index)
    {
      index := index - 1;
      RunInside(p, runs, index);
      var length := runs[index].Length();
      var escaped := CountEscape(p, runs[index].start);
      var opens := runs[index].start + escaped;
      assert opens == OpensAt(p, runs, index);
      hide AreRuns, Backslashes, Paired, Remembers, OpensAt, CloserAt;
      var openingLength := length - escaped;
      CloserRemembered(p, runs, index, previous, openingLength);
      var closer := if openingLength > 0 && openingLength in previous then Some(previous[openingLength]) else None;
      PairOne(p, runs, following, openingStarts, index, closer, opens);
      openingStarts := openingStarts[index := opens];
      following := following[index := closer];
      RememberOne(previous, runs, index);
      previous := previous[length := index];
    }
  }

  // Masking one paragraph

  /** Masking by the naive rule, from run `index` on, with everything before `cursor` done. */
  function MaskRuns(p: string, runs: seq<Run>, cursor: nat, index: nat): string
    requires AreRuns(p, runs, 0) && cursor <= |p| && index <= |runs|
    requires index < |runs| ==> cursor <= runs[index].start
    decreases |runs| - index
  {
    if index == |runs| then p[cursor..]
    else match Closer(p, runs, index)
      case None => MaskRuns(p, runs, cursor, index + 1)
      case Some(close) =>
        var start, end := runs[index].start + Escaped(p, runs[index]), runs[close].end;
        p[cursor..start] + Blank(p[start..end]) + MaskRuns(p, runs, end, close + 1)
  }

  /** A paragraph with its code spans blanked. */
  function MaskedParagraph(p: string): string {
    RunsAre(p, 0);
    MaskRuns(p, Runs(p), 0, 0)
  }

  lemma MasksParts(p: string, cursor: nat, start: nat, end: nat, tail: string)
    requires cursor <= start <= end <= |p| && Masks(tail, p[end..])
    ensures Masks(p[cursor..start] + Blank(p[start..end]) + tail, p[cursor..])
  {
  }

  lemma {:induction false} MaskRunsMasks(p: string, runs: seq<Run>, cursor: nat, index: nat)
    requires AreRuns(p, runs, 0) && cursor <= |p| && index <= |runs|
    requires index < |runs| ==> cursor <= runs[index].start
    ensures Masks(MaskRuns(p, runs, cursor, index), p[cursor..])
    decreases |runs| - index
  {
    hide Masks, Backslashes, MaskRuns, Closer, Escaped;
    if index == |runs| {
      MaskEnd(p, runs, cursor);
      WholeMasks(p[cursor..]);
    } else {
      RunInside(p, runs, index);
      MaskStep(p, runs, cursor, index);
      hide AreRuns;
      var close := Closer(p, runs, index);
      if close.None? {
        MaskRunsMasks(p, runs, cursor, index + 1);
      } else {
        var start, end := runs[index].start + Escaped(p, runs[index]), runs[close.value].end;
        MaskRunsMasks(p, runs, end, close.value + 1);
        MasksParts(p, cursor, start, end, MaskRuns(p, runs, end, close.value + 1));
      }
    }
  }

  lemma WholeMasks(text: string)
    ensures Masks(text, text)
  {
  }

  /** A span lies between its opener and its closer, and later runs lie behind it. */
  lemma SpanFits(p: string, runs: seq<Run>, i: nat)
    requires AreRuns(p, runs, 0) && i < |runs|
    ensures runs[i].start < runs[i].end <= |p| && (i + 1 < |runs| ==> runs[i].start <= runs[i + 1].start)
    ensures Closer(p, runs, i).Some? ==>
      var close := Closer(p, runs, i).value;
      && i < close < |runs| && runs[i].start + Escaped(p, runs[i]) <= runs[close].end <= |p|
      && (close + 1 < |runs| ==> runs[close].end <= runs[close + 1].start)
  {
    assert IsRun(p, runs[i]);
    var close := Closer(p, runs, i);
    if close.Some? { assert IsRun(p, runs[close.value]) && runs[i].end < runs[close.value].start; }
  }

  lemma MaskStep(p: string, runs: seq<Run>, cursor: nat, index: nat)
    requires AreRuns(p, runs, 0) && index < |runs| && cursor <= runs[index].start <= |p|
    ensures Closer(p, runs, index).None? ==>
      && (index + 1 < |runs| ==> cursor <= runs[index + 1].start)
      && MaskRuns(p, runs, cursor, index) == MaskRuns(p, runs, cursor, index + 1)
    ensures Closer(p, runs, index).Some? ==>
      var close := Closer(p, runs, index).value;
      var start, end := runs[index].start + Escaped(p, runs[index]), runs[close].end;
      && index < close < |runs| && cursor <= start <= end <= |p|
        && (close + 1 < |runs| ==> end <= runs[close + 1].start)
      && MaskRuns(p, runs, cursor, index) == p[cursor..start] + Blank(p[start..end]) + MaskRuns(p, runs, end, close + 1)
  {
    SpanFits(p, runs, index);
  }

  /** The loop over one paragraph of _mask_inline. */
  method MaskParagraph(p: string) returns (r: Option<string>)
    ensures r.Some? <==> |Runs(p)| <= MAX_LINKS * 2
    ensures r.Some? ==> r.value == MaskedParagraph(p)
  {
    hide Backslashes, IsRun, MaskRuns;
    var runs := FindRuns(p);
    if |runs| > MAX_LINKS * 2 { return None; }
    RunsAre(p, 0);
    var following, openingStarts := PairRuns(p, runs);
    var cursor, index, parts := 0, 0, "";
    MaskBegins(p);
    while index < |runs|
      invariant cursor <= |p| && index <= |runs| && Pending(p, runs, parts, cursor, index)
    {
      RunInside(p, runs, index);
      assert following[index] == CloserAt(p, runs, index) && openingStarts[index] == OpensAt(p, runs, index);
      hide Pending, AreRuns, Paired, OpensAt;
      var close := following[index];
      if close.None? {
        PendingSkip(p, runs, parts, cursor, index);
        index := index + 1;
      } else {
        var start, end := openingStarts[index], runs[close.value].end;
        PendingSpan(p, runs, parts, cursor, index, close.value, start, end);
        parts := parts + p[cursor..start] + Blank(p[start..end]);
        cursor, index := end, close.value + 1;
      }
    }
    MaskEnd(p, runs, cursor);
    return Some(parts + p[cursor..]);
  }

  /** What is done, followed by the masking of the rest, is the masked paragraph. */
  predicate Pending(p: string, runs: seq<Run>, parts: string, cursor: nat, index: nat)
    requires AreRuns(p, runs, 0)
  {
    && cursor <= |p| && index <= |runs| && (index < |runs| ==> cursor <= runs[index].start)
    && parts + MaskRuns(p, runs, cursor, index) == MaskedParagraph(p)
  }

  lemma PendingSkip(p: string, runs: seq<Run>, parts: string, cursor: nat, index: nat)
    requires AreRuns(p, runs, 0) && index < |runs| && Pending(p, runs, parts, cursor, index)
      && CloserAt(p, runs, index).None?
    ensures Pending(p, runs, parts, cursor, index + 1)
  {
    RunInside(p, runs, index);
    MaskStep(p, runs, cursor, index);
    hide MaskedParagraph, MaskRuns, Backslashes, IsRun, Closer;
  }

  lemma PendingSpan(p: string, runs: seq<Run>, parts: string, cursor: nat, index: nat, close: nat, start: nat, end: nat)
    requires AreRuns(p, runs, 0) && index < |runs| && Pending(p, runs, parts, cursor, index)
    requires CloserAt(p, runs, index) == Some(close) && close < |runs| && start == OpensAt(p, runs, index)
      && end == runs[close].end
    ensures cursor <= start <= end <= |p|
    ensures Pending(p, runs, parts + p[cursor..start] + Blank(p[start..end]), end, close + 1)
  {
    hide Backslashes, IsRun, CloserAt, OpensAt, MaskedParagraph, MaskRuns, AreRuns;
    SpanBounds(p, runs, cursor, index, close, start, end);
    MaskSpan(p, runs, cursor, index, close, start, end);
    Appended(parts, p[cursor..start], Blank(p[start..end]), MaskRuns(p, runs, end, close + 1),
      MaskRuns(p, runs, cursor, index), MaskedParagraph(p));
  }

  lemma SpanBounds(p: string, runs: seq<Run>, cursor: nat, index: nat, close: nat, start: nat, end: nat)
    requires AreRuns(p, runs, 0) && index < |runs| && cursor <= runs[index].start
    requires CloserAt(p, runs, index) == Some(close) && close < |runs| && start == OpensAt(p, runs, index)
      && end == runs[close].end
    ensures cursor <= start <= end <= |p| && (close + 1 < |runs| ==> end <= runs[close + 1].start)
  {
    hide Backslashes, FirstOfLength;
    SpanFits(p, runs, index);
  }

  lemma MaskSpan(p: string, runs: seq<Run>, cursor: nat, index: nat, close: nat, start: nat, end: nat)
    requires AreRuns(p, runs, 0) && index < |runs| && cursor <= runs[index].start
    requires CloserAt(p, runs, index) == Some(close) && close < |runs| && start == OpensAt(p, runs, index)
      && end == runs[close].end
    requires cursor <= start <= end <= |p| && (close + 1 < |runs| ==> end <= runs[close + 1].start)
    ensures MaskRuns(p, runs, cursor, index) ==
      p[cursor..start] + Blank(p[start..end]) + MaskRuns(p, runs, end, close + 1)
  {
    hide Backslashes, FirstOfLength, AreRuns;
  }

  lemma Appended(parts: string, a: string, b: string, rest: string, pending: string, all: string)
    requires pending == a + b + rest && parts + pending == all
    ensures parts + a + b + rest == all
  {
    Regroup(parts, a, b, rest);
  }

  lemma MaskBegins(p: string)
    ensures AreRuns(p, Runs(p), 0) && "" + MaskRuns(p, Runs(p), 0, 0) == MaskedParagraph(p)
  {
    RunsAre(p, 0);
    hide MaskRuns;
  }

  lemma MaskEnd(p: string, runs: seq<Run>, cursor: nat)
    requires AreRuns(p, runs, 0) && cursor <= |p|
    ensures MaskRuns(p, runs, cursor, |runs|) == p[cursor..]
  {
  }

  lemma Regroup(a: string, b: string, c: string, d: string)
    ensures a + (b + c + d) == a + b + c + d
  {
  }

  // Paragraphs

  predicate BlankIn(c: char) { c == ' ' || c == '\t' }

  function SkipBlanks(text: string, from: nat): (to: nat)
    requires from <= |text|
    ensures from <= to <= |text|
    decreases |text| - from
  {
    if from < |text| && BlankIn(text[from]) then SkipBlanks(text, from + 1) else from
  }

  /** Does a paragraph break (an empty line) begin here? Then where does it end? */
  function BreakAt(text: string, at: nat): (end: Option<nat>)
    requires at <= |text|
    ensures end.Some? ==> at + 1 < end.value <= |text|
  {
    if at < |text| && text[at] == '\n' then
      var to := SkipBlanks(text, at + 1);
      if to < |text| && text[to] == '\n' then Some(to + 1) else None
    else None
  }

  /** A break is a line end, blanks and another line end. */
  lemma BreakIff(text: string, at: nat, end: nat)
    requires at <= |text|
    ensures BreakAt(text, at) == Some(end) <==>
      && at + 1 < end <= |text| && text[at] == '\n' && text[end - 1] == '\n'
      && forall k :: at < k < end - 1 ==> BlankIn(text[k])
  {
    if at < |text| {
      SkippedBlanks(text, at + 1);
      var to := SkipBlanks(text, at + 1);
      if at + 1 < end <= |text| && text[end - 1] == '\n' && forall k :: at < k < end - 1 ==> BlankIn(text[k]) {
        assert to == end - 1;
      }
    }
  }

  lemma {:induction false} SkippedBlanks(text: string, from: nat)
    requires from <= |text|
    ensures var to := SkipBlanks(text, from);
      (forall k :: from <= k < to ==> BlankIn(text[k])) && (to < |text| ==> !BlankIn(text[to]))
    decreases |text| - from
  {
    if from < |text| && BlankIn(text[from]) { SkippedBlanks(text, from + 1); }
  }

  /** The first paragraph break from a position on. */
  function NextBreak(text: string, from: nat): (r: Option<(nat, nat)>)
    requires from <= |text|
    ensures r.Some? ==> from <= r.value.0 < r.value.1 <= |text| && BreakAt(text, r.value.0) == Some(r.value.1)
    decreases |text| - from
  {
    if BreakAt(text, from).Some? then Some((from, BreakAt(text, from).value))
    else if from == |text| then None
    else NextBreak(text, from + 1)
  }

  function MaskedInline(text: string): string
    decreases |text|
  {
    match NextBreak(text, 0)
    case None => MaskedParagraph(text)
    case Some((start, end)) =>
      MaskedParagraph(text[..start]) + MaskedParagraph(text[start..end]) + MaskedInline(text[end..])
  }

  predicate FewRuns(text: string)
    decreases |text|
  {
    match NextBreak(text, 0)
    case None => |Runs(text)| <= MAX_LINKS * 2
    case Some((start, end)) =>
      |Runs(text[..start])| <= MAX_LINKS * 2 && |Runs(text[start..end])| <= MAX_LINKS * 2 && FewRuns(text[end..])
  }

  lemma ParagraphMasks(p: string)
    ensures Masks(MaskedParagraph(p), p)
  {
    RunsAre(p, 0);
    MaskRunsMasks(p, Runs(p), 0, 0);
    assert p[0..] == p;
  }

  lemma {:induction false} InlineMasks(text: string)
    ensures Masks(MaskedInline(text), text)
    decreases |text|
  {
    hide Masks, MaskedParagraph;
    match NextBreak(text, 0) {
      case None => ParagraphMasks(text);
      case Some((start, end)) =>
        ParagraphMasks(text[..start]);
        ParagraphMasks(text[start..end]);
        InlineMasks(text[end..]);
        MasksConcat(MaskedParagraph(text[..start]), text[..start], MaskedParagraph(text[start..end]), text[start..end]);
        MasksConcat(MaskedParagraph(text[..start]) + MaskedParagraph(text[start..end]),
          text[..start] + text[start..end], MaskedInline(text[end..]), text[end..]);
        assert text == text[..start] + text[start..end] + text[end..];
    }
  }

  /** _mask_inline: paragraphs and the breaks between them, one after the other. */
  method MaskInline(text: string) returns (r: Option<string>)
    ensures r.Some? <==> FewRuns(text)
    ensures r.Some? ==> r.value == MaskedInline(text)
  {
    hide MaskedParagraph, Runs;
    var rest, pieces := text, "";
    while true
      invariant pieces + MaskedInline(rest) == MaskedInline(text)
      invariant FewRuns(rest) <==> FewRuns(text)
      decreases |rest|
    {
      match NextBreak(rest, 0) {
        case None =>
          var last := MaskParagraph(rest);
          if last.None? { return None; }
          return Some(pieces + last.value);
        case Some((start, end)) =>
          var paragraph := MaskParagraph(rest[..start]);
          if paragraph.None? { return None; }
          var gap := MaskParagraph(rest[start..end]);
          if gap.None? { return None; }
          Regroup(pieces, paragraph.value, gap.value, MaskedInline(rest[end..]));
          pieces, rest := pieces + paragraph.value + gap.value, rest[end..];
      }
    }
  }

  // Lines and fences

  /** The characters at which str.splitlines ends a line. */
  predicate EndsLine(c: char) {
    c in "\n\r" || c in ['\U{000B}', '\U{000C}', '\U{001C}', '\U{001D}', '\U{001E}', '\U{0085}', '\U{2028}', '\U{2029}']
  }

  function LineEnd(text: string, from: nat): (end: nat)
    requires from < |text|
    ensures from < end <= |text|
    decreases |text| - from
  {
    if EndsLine(text[from]) then
      if text[from] == '\r' && from + 1 < |text| && text[from + 1] == '\n' then from + 2 else from + 1
    else if from + 1 == |text| then |text|
    else LineEnd(text, from + 1)
  }

  /** A line goes up to its line end, and a carriage return takes a line feed with it. */
  lemma {:induction false} LineEndIs(text: string, from: nat)
    requires from < |text|
    ensures var end := LineEnd(text, from);
      && (end < |text| ==> EndsLine(text[end - 1]))
      && (end < |text| ==> !(text[end - 1] == '\r' && text[end] == '\n'))
      && forall k :: from <= k < end - 1 && EndsLine(text[k]) ==>
        k == end - 2 && text[k] == '\r' && text[k + 1] == '\n'
    decreases |text| - from
  {
    if !EndsLine(text[from]) && from + 1 < |text| { LineEndIs(text, from + 1); }
  }

  /** str.splitlines(keepends=True). */
  function Lines(text: string): seq<string>
    decreases |text|
  {
    if text == "" then [] else [text[..LineEnd(text, 0)]] + Lines(text[LineEnd(text, 0)..])
  }

  function Concat(parts: seq<string>): string { if parts == [] then "" else parts[0] + Concat(parts[1..]) }

  lemma {:induction false} LinesConcat(text: string)
    ensures Concat(Lines(text)) == text
    decreases |text|
  {
    if text != "" {
      var end := LineEnd(text, 0);
      var head, rest := text[..end], text[end..];
      LinesConcat(rest);
      assert Lines(text) == [head] + Lines(rest);
      assert ([head] + Lines(rest))[1..] == Lines(rest);
      assert head + rest == text;
    }
  }

  /** str.isspace. */
  predicate PySpace(c: char) {
    || c in " \t\n\r" || '\U{000B}' <= c <= '\U{000C}' || '\U{001C}' <= c <= '\U{001F}'
    || c in ['\U{0085}', '\U{00A0}', '\U{1680}', '\U{2028}', '\U{2029}', '\U{202F}', '\U{205F}', '\U{3000}']
      || '\U{2000}' <= c <= '\U{200A}'
  }

  datatype Fence = Fence(mark: char, length: nat, info: string)

  function Leading(line: string, c: char): (n: nat)
    ensures n <= |line|
  {
    if line != "" && line[0] == c then 1 + Leading(line[1..], c) else 0
  }

  function UpToNewline(s: string): string { if s == "" || s[0] == '\n' then "" else [s[0]] + UpToNewline(s[1..]) }

  /** A fence marker: at most three spaces, then at least three backticks or tildes. */
  function FenceOf(line: string): Option<Fence> {
    var indent := Leading(line, ' ');
    if indent > 3 || indent == |line| || (line[indent] != '`' && line[indent] != '~') then None
    else
      var mark := line[indent];
      var length := Leading(line[indent..], mark);
      if length < 3 then None else Some(Fence(mark, length, UpToNewline(line[indent..][length..])))
  }

  predicate Closes(open: Fence, f: Option<Fence>) {
    f.Some? && f.value.mark == open.mark && f.value.length >= open.length
      && forall i :: 0 <= i < |f.value.info| ==> PySpace(f.value.info[i])
  }

  /** Spaces, then as many of one mark as there are. */
  predicate FenceShape(line: string, indent: nat, mark: char, length: nat) {
    && (mark == '`' || mark == '~') && length > 0 && indent + length <= |line|
    && (forall k :: 0 <= k < indent ==> line[k] == ' ')
    && (forall k :: indent <= k < indent + length ==> line[k] == mark)
    && (indent + length < |line| ==> line[indent + length] != mark)
  }

  /** The text of a line from a position on, up to its line feed. */
  predicate IsInfo(line: string, from: nat, info: string) {
    && from + |info| <= |line| && line[from..from + |info|] == info && '\n' !in info
    && (from + |info| < |line| ==> line[from + |info|] == '\n')
  }

  lemma {:induction false} LeadingIs(line: string, c: char, n: nat)
    requires n <= |line| && (forall k :: 0 <= k < n ==> line[k] == c) && (n < |line| ==> line[n] != c)
    ensures Leading(line, c) == n
  {
    if n > 0 { LeadingIs(line[1..], c, n - 1); }
  }

  lemma {:induction false} LeadingAre(line: string, c: char)
    ensures var n := Leading(line, c);
      (forall k :: 0 <= k < n ==> line[k] == c) && (n < |line| ==> line[n] != c)
  {
    if line != "" && line[0] == c {
      LeadingAre(line[1..], c);
      assert forall k :: 1 <= k < Leading(line, c) ==> line[k] == line[1..][k - 1];
    }
  }

  lemma {:induction false} UpToNewlineIs(s: string)
    ensures IsInfo(s, 0, UpToNewline(s))
  {
    if s != "" && s[0] != '\n' {
      UpToNewlineIs(s[1..]);
      var rest := UpToNewline(s[1..]);
      assert s[1..][0..|rest|] == rest;
      assert s[0..1 + |rest|] == [s[0]] + rest;
    }
  }

  /** Exactly the runs of at least three marks behind at most three spaces open a fence, and it has their length and the
      rest of the line. */
  lemma FenceIff(line: string, indent: nat, mark: char, length: nat)
    requires FenceShape(line, indent, mark, length)
    ensures FenceOf(line).Some? <==> indent <= 3 && length >= 3
    ensures FenceOf(line).Some? ==>
      var f := FenceOf(line).value; f.mark == mark && f.length == length && IsInfo(line, indent + length, f.info)
  {
    assert line[indent] == mark;
    LeadingIs(line, ' ', indent);
    LeadingIs(line[indent..], mark, length);
    var rest := line[indent..][length..];
    UpToNewlineIs(rest);
    assert rest == line[indent + length..];
    hide Leading, UpToNewline;
    if FenceOf(line).Some? {
      var info := FenceOf(line).value.info;
      assert line[indent + length..indent + length + |info|] == rest[0..|info|];
    }
  }

  /** And nothing else does. */
  lemma FenceHasShape(line: string)
    requires FenceOf(line).Some?
    ensures exists indent, length :: FenceShape(line, indent, FenceOf(line).value.mark, length)
  {
    var indent := Leading(line, ' ');
    LeadingAre(line, ' ');
    var mark := line[indent];
    LeadingAre(line[indent..], mark);
    var length := Leading(line[indent..], mark);
    hide Leading, UpToNewline;
    assert forall k :: indent <= k < indent + length ==> line[k] == line[indent..][k - indent];
    assert FenceShape(line, indent, mark, length);
  }

  /** The fence of a line, from its parts. */
  lemma FenceIs(line: string, indent: nat, mark: char, length: nat, info: string)
    requires FenceShape(line, indent, mark, length) && IsInfo(line, indent + length, info)
    ensures FenceOf(line) == if indent <= 3 && length >= 3 then Some(Fence(mark, length, info)) else None
  {
    hide *;
    FenceIff(line, indent, mark, length);
    if FenceOf(line).Some? { OneInfo(line, indent + length, info, FenceOf(line).value.info); }
  }

  lemma OneInfo(line: string, from: nat, a: string, b: string)
    requires IsInfo(line, from, a) && IsInfo(line, from, b)
    ensures a == b
  {
    hide *;
    NoShorter(line, from, a, b);
    NoShorter(line, from, b, a);
    SameStretch(line, from, a, b);
  }

  /** A fence closes at the same mark, at least as long, with nothing but blanks behind it. */
  lemma ClosesIff(open: Fence, line: string, indent: nat, mark: char, length: nat, info: string)
    requires FenceShape(line, indent, mark, length) && IsInfo(line, indent + length, info)
    ensures Closes(open, FenceOf(line)) <==>
      && indent <= 3 && length >= 3 && mark == open.mark && length >= open.length
      && forall i :: 0 <= i < |info| ==> PySpace(info[i])
  {
    hide FenceOf, PySpace, IsInfo, FenceShape;
    FenceIs(line, indent, mark, length, info);
  }

  lemma NoShorter(line: string, from: nat, a: string, b: string)
    requires IsInfo(line, from, a) && IsInfo(line, from, b)
    ensures |a| >= |b|
  {
    assert forall k :: 0 <= k < |b| ==> line[from..from + |b|][k] == b[k] && b[k] in b;
  }

  lemma SameStretch(line: string, from: nat, a: string, b: string)
    requires IsInfo(line, from, a) && IsInfo(line, from, b) && |a| == |b|
    ensures a == b
  {
  }

  /** The masked text of the remaining lines, given the ordinary text gathered so far
      and the open fence; refused on an unclosed fence, a backtick fence whose info has
      backticks, or too many runs. */
  function MaskLines(lines: seq<string>, ordinary: string, fence: Option<Fence>): Option<string> {
    if lines == [] then
      if fence.Some? || !FewRuns(ordinary) then None else Some(MaskedInline(ordinary))
    else
      var f := FenceOf(lines[0]);
      if fence.Some? then
        match MaskLines(lines[1..], ordinary, if Closes(fence.value, f) then None else fence)
        case None => None
        case Some(rest) => Some(Blank(lines[0]) + rest)
      else if f.Some? then
        if !FewRuns(ordinary) || (f.value.mark == '`' && '`' in f.value.info) then None
        else match MaskLines(lines[1..], "", f)
          case None => None
          case Some(rest) => Some(MaskedInline(ordinary) + Blank(lines[0]) + rest)
      else MaskLines(lines[1..], ordinary + lines[0], None)
  }

  function MaskedCode(text: string): Option<string> { MaskLines(Lines(text), "", None) }

  lemma {:induction false} LinesMask(lines: seq<string>, ordinary: string, fence: Option<Fence>)
    requires fence.Some? ==> ordinary == ""
    ensures MaskLines(lines, ordinary, fence).Some? ==>
      Masks(MaskLines(lines, ordinary, fence).value, ordinary + Concat(lines))
  {
    hide Masks, MaskedInline, FewRuns, FenceOf, Closes;
    if lines == [] {
      InlineMasks(ordinary);
      assert ordinary + "" == ordinary;
    } else if MaskLines(lines, ordinary, fence).Some? {
      var line, f, rest := lines[0], FenceOf(lines[0]), Concat(lines[1..]);
      BlankMasks(line);
      if fence.Some? {
        var next := if Closes(fence.value, f) then None else fence;
        LinesMask(lines[1..], ordinary, next);
        MasksConcat(Blank(line), line, MaskLines(lines[1..], ordinary, next).value, ordinary + rest);
        assert ordinary + Concat(lines) == line + (ordinary + rest);
      } else if f.Some? {
        LinesMask(lines[1..], "", f);
        InlineMasks(ordinary);
        var tail := MaskLines(lines[1..], "", f).value;
        assert "" + rest == rest;
        MasksConcat(MaskedInline(ordinary), ordinary, Blank(line), line);
        MasksConcat(MaskedInline(ordinary) + Blank(line), ordinary + line, tail, rest);
        assert ordinary + (line + rest) == ordinary + line + rest;
      } else {
        LinesMask(lines[1..], ordinary + line, None);
        assert ordinary + (line + rest) == ordinary + line + rest;
      }
    }
  }

  lemma BlankMasks(line: string)
    ensures Masks(Blank(line), line)
  {
  }

  /** Masking keeps every position: what is not blanked is the text itself. */
  lemma CodeMasks(text: string)
    requires MaskedCode(text).Some?
    ensures Masks(MaskedCode(text).value, text)
  {
    LinesMask(Lines(text), "", None);
    LinesConcat(text);
    assert "" + text == text;
  }

  /** _mask_code. */
  method MaskCode(text: string) returns (r: Option<string>)
    ensures r == MaskedCode(text)
    ensures r.Some? ==> Masks(r.value, text)
  {
    hide MaskedInline, FewRuns, FenceOf, Closes, Masks;
    var lines := Lines(text);
    var result, ordinary := "", "";
    var fence: Option<Fence> := None;
    assert lines[0..] == lines;
    PrependNothing(MaskLines(lines, "", None));
    for i := 0 to |lines|
      invariant fence.Some? ==> ordinary == ""
      invariant MaskedCode(text) == Prepend(result, MaskLines(lines[i..], ordinary, fence))
    {
      var line := lines[i];
      assert lines[i..][1..] == lines[i + 1..];
      var found := FenceOf(line);
      PrependTwice(result, Blank(line),
        MaskLines(lines[i + 1..], ordinary, if fence.Some? && Closes(fence.value, found) then None else fence));
      if fence.Some? {
        if Closes(fence.value, found) { fence := None; }
        result := result + Blank(line);
      } else if found.Some? {
        var inline := MaskInline(ordinary);
        if inline.None? { return None; }
        if found.value.mark == '`' && '`' in found.value.info { return None; }
        PrependTwice(result, inline.value + Blank(line), MaskLines(lines[i + 1..], "", found));
        assert result + (inline.value + Blank(line)) == result + inline.value + Blank(line);
        result := result + inline.value + Blank(line);
        ordinary := "";
        fence := found;
      } else {
        ordinary := ordinary + line;
      }
    }
    if fence.Some? { return None; }
    var last := MaskInline(ordinary);
    if last.None? { return None; }
    CodeMasks(text);
    return Some(result + last.value);
  }

  function Prepend(a: string, r: Option<string>): Option<string>
  {
    match r case None => None case Some(b) => Some(a + b)
  }

  lemma PrependNothing(r: Option<string>)
    ensures Prepend("", r) == r
  {
    if r.Some? { assert "" + r.value == r.value; }
  }

  lemma PrependTwice(a: string, b: string, r: Option<string>)
    ensures Prepend(a, Prepend(b, r)) == Prepend(a + b, r)
  {
    if r.Some? { assert a + (b + r.value) == (a + b) + r.value; }
  }
}
