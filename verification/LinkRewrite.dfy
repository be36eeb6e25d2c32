/** Relocation of inline Markdown links: which stretches of a document change, and that nothing else does. */
module LinkRewrite {
  import opened Sets
  import opened Text
  import opened CodeMask
  import opened CodeLiteral
  import opened LinkSyntax

  /** What a destination resolves to. */
  datatype Resolution =
    | Refused
    | Elsewhere                                         // an external or fragment-only destination
    | Installed(url: string, line: Option<string>)      // a document that is installed too
    | SourceOnly(reference: string)                     // known, but only in the source tree

  /** What the surrounding packager supplies: constructs it refuses, and the inventory. */
  datatype Rules = Rules(unsupported: (string, string) -> bool, resolve: string -> Resolution)

  /** A stretch of the text and what takes its place. */
  datatype Span = Span(from: nat, start: nat, close: nat, to: nat, replacement: string)

  function Find(text: string, c: char, from: nat): (at: Option<nat>)
    ensures at.Some? ==> from <= at.value < |text| && text[at.value] == c
    decreases |text| - from
  {
    if from >= |text| then None else if text[from] == c then Some(from) else Find(text, c, from + 1)
  }

  /** The `!` of an image belongs to its link. */
  function LinkStart(masked: string, start: nat): (from: nat)
    requires start < |masked|
    ensures from <= start
  {
    if start > 0 && masked[start - 1] == '!' then start - 1 else start
  }

  function Replacement(text: string, from: nat, start: nat, close: nat, d: Destination, r: Resolution): string
    requires from <= start < close <= d.tokenStart <= d.tokenEnd < d.end <= |text| && !r.Refused?
  {
    match r
    case Elsewhere => text[from..d.end]
    case Installed(url, line) =>
      text[from..d.tokenStart] + url + text[d.tokenEnd..d.end]
      + if line.Some? then " (line " + line.value + ")" else ""
    case SourceOnly(reference) => text[start + 1..close] + " (source checkout: " + Literal(reference) + ")"
  }

  /** The link that opens at an unescaped bracket, if it is one. */
  datatype Candidate = NotALink | Refuse | Link(span: Span)

  function CandidateAt(text: string, masked: string, resolve: string -> Resolution, start: nat): (c: Candidate)
    requires start < |masked| == |text|
    ensures c.Link? ==> c.span.from <= start == c.span.start < c.span.close < c.span.to - 2 && c.span.to <= |text|
    ensures c.Link? ==> text[c.span.to - 1] == ')' && masked[c.span.close] == ']' && masked[c.span.close + 1] == '('
  {
    var end := if Backslashes(masked, start) % 2 == 1 then None else LabelEnd(masked, start + 1, 0);
    if end.None? then NotALink
    else
      var close := end.value;
      if close + 1 < |masked| && masked[close + 1] == '[' then Refuse
      else if !(close + 1 < |masked| && masked[close + 1] == '(') then NotALink
      else
        match Dest(text, close + 2)
        case None => Refuse
        case Some(d) =>
          if resolve(d.target).Refused? then Refuse
          else
            var from := LinkStart(masked, start);
            Link(Span(from, start, close, d.end, Replacement(text, from, start, close, d, resolve(d.target))))
  }

  /** All links from a position on, or none if one of them is refused. */
  function ScanLinks(text: string, masked: string, resolve: string -> Resolution, scan: nat,
      links: nat): Option<seq<Span>>
    requires |masked| == |text|
    decreases |text| - scan
  {
    match Find(masked, '[', scan)
    case None => Some([])
    case Some(start) =>
      match CandidateAt(text, masked, resolve, start)
      case NotALink => ScanLinks(text, masked, resolve, start + 1, links)
      case Refuse => None
      case Link(span) =>
        if links + 1 > MAX_LINKS then None
        else
          match ScanLinks(text, masked, resolve, span.to, links + 1)
          case None => None
          case Some(rest) => Some([span] + rest)
  }

  // Splicing

  /** Stretches in order, apart, from a position on. */
  ghost predicate Ordered(spans: seq<Span>, cursor: nat, n: nat) {
    && cursor <= n
    && (spans != [] ==>
      cursor <= spans[0].from <= spans[0].start < spans[0].close < spans[0].to <= n
        && Ordered(spans[1..], spans[0].to, n))
  }

  ghost function Splice(text: string, spans: seq<Span>, cursor: nat): string
    requires Ordered(spans, cursor, |text|)
  {
    if spans == [] then text[cursor..]
    else text[cursor..spans[0].from] + spans[0].replacement + Splice(text, spans[1..], spans[0].to)
  }

  /** The first opening bracket is at or after the cursor even for an image directly behind a link:
      the character before the cursor is a closing parenthesis, seen or blanked, never an exclamation mark. */
  lemma {:induction false} ScanOrdered(text: string, masked: string, resolve: string -> Resolution, cursor: nat,
      scan: nat, links: nat)
    requires Masks(masked, text) && cursor <= scan && cursor <= |text|
    requires cursor > 0 ==> text[cursor - 1] == ')'
    requires ScanLinks(text, masked, resolve, scan, links).Some?
    ensures Ordered(ScanLinks(text, masked, resolve, scan, links).value, cursor, |text|)
    decreases |text| - scan
  {
    hide Replacement, Dest, LabelEnd, Backslashes;
    var start := Find(masked, '[', scan);
    if start.Some? {
      var c := CandidateAt(text, masked, resolve, start.value);
      if c.NotALink? {
        ScanOrdered(text, masked, resolve, cursor, start.value + 1, links);
      } else {
        ScanOrdered(text, masked, resolve, c.span.to, c.span.to, links + 1);
        FromCursor(text, masked, resolve, cursor, start.value);
      }
    }
  }

  lemma FromCursor(text: string, masked: string, resolve: string -> Resolution, cursor: nat, start: nat)
    requires Masks(masked, text) && cursor <= start < |text| && CandidateAt(text, masked, resolve, start).Link?
    requires cursor > 0 ==> text[cursor - 1] == ')'
    ensures var span := CandidateAt(text, masked, resolve, start).span;
      cursor <= span.from <= start < span.to <= |text| && text[span.to - 1] == ')'
  {
    hide Replacement, Dest, LabelEnd, Backslashes;
  }

  // The visible marks

  /** Where the masked text shows the middle of a link. */
  predicate MarkAt(masked: string, at: nat) {
    at + 1 < |masked| && masked[at] == ']' && masked[at + 1] == '('
  }

  function MarksFrom(masked: string, from: nat): set<nat> {
    set at: nat | from <= at < |masked| && MarkAt(masked, at)
  }

  /** str.count of the two characters: occurrences that do not overlap, from left to right. */
  function Count(masked: string, from: nat): nat
    decreases |masked| - from
  {
    if from >= |masked| then 0
    else if MarkAt(masked, from) then 1 + Count(masked, from + 2)
    else Count(masked, from + 1)
  }

  /** No two occurrences overlap, so all are counted. */
  lemma {:induction false} CountIsMarks(masked: string, from: nat)
    ensures Count(masked, from) == |MarksFrom(masked, from)|
    decreases |masked| - from
  {
    if from >= |masked| {
      assert MarksFrom(masked, from) == {};
    } else if MarkAt(masked, from) {
      CountIsMarks(masked, from + 2);
      assert MarksFrom(masked, from) == {from} + MarksFrom(masked, from + 2);
    } else {
      CountIsMarks(masked, from + 1);
      assert MarksFrom(masked, from) == MarksFrom(masked, from + 1);
    }
  }

  function Closes(spans: seq<Span>): set<nat> { set s | s in spans :: s.close }

  /** Each rewritten link closes at its own visible mark. */
  lemma {:induction false} ClosesAreMarks(text: string, masked: string, resolve: string -> Resolution, cursor: nat,
      scan: nat, links: nat)
    requires Masks(masked, text) && cursor <= scan && cursor <= |text|
    requires cursor > 0 ==> text[cursor - 1] == ')'
    requires ScanLinks(text, masked, resolve, scan, links).Some?
    ensures var spans := ScanLinks(text, masked, resolve, scan, links).value;
      Closes(spans) <= MarksFrom(masked, cursor) && |Closes(spans)| == |spans|
    decreases |text| - scan
  {
    hide Replacement, Dest, LabelEnd, Backslashes;
    var start := Find(masked, '[', scan);
    if start.None? {
      assert Closes([]) == {};
    } else {
      var c := CandidateAt(text, masked, resolve, start.value);
      if c.NotALink? {
        ClosesAreMarks(text, masked, resolve, cursor, start.value + 1, links);
      } else {
        var rest := ScanLinks(text, masked, resolve, c.span.to, links + 1).value;
        ClosesAreMarks(text, masked, resolve, c.span.to, c.span.to, links + 1);
        AddClose(c.span, rest, masked, cursor);
      }
    }
  }

  lemma AddClose(span: Span, rest: seq<Span>, masked: string, cursor: nat)
    requires cursor <= span.close < span.to && MarkAt(masked, span.close)
    requires Closes(rest) <= MarksFrom(masked, span.to) && |Closes(rest)| == |rest|
    ensures Closes([span] + rest) <= MarksFrom(masked, cursor) && |Closes([span] + rest)| == 1 + |rest|
  {
    assert Closes([span] + rest) == {span.close} + Closes(rest) by {
      forall at | at in {span.close} + Closes(rest) ensures at in Closes([span] + rest) {
        if at == span.close {
          assert ([span] + rest)[0] == span;
        } else {
          var s :| s in rest && s.close == at;
          assert s in [span] + rest;
        }
      }
    }
    assert forall at :: at in MarksFrom(masked, span.to) ==> at in MarksFrom(masked, cursor);
  }

  // The whole document

  ghost predicate Accepted(text: string, rules: Rules) {
    && MaskedCode(text).Some?
    && var masked := MaskedCode(text).value;
    && |masked| == |text| && !rules.unsupported(text, masked) && !TooDeep(masked, 0, 0)
    && ScanLinks(text, masked, rules.resolve, 0, 0).Some?
    && Count(masked, 0) == |ScanLinks(text, masked, rules.resolve, 0, 0).value|
  }

  ghost function Links(text: string, rules: Rules): seq<Span>
    requires Accepted(text, rules)
  {
    ScanLinks(text, MaskedCode(text).value, rules.resolve, 0, 0).value
  }

  ghost function Rewritten(text: string, rules: Rules): Option<string> {
    if Accepted(text, rules) then
      CodeMasks(text);
      ScanOrdered(text, MaskedCode(text).value, rules.resolve, 0, 0, 0);
      Some(Splice(text, Links(text, rules), 0))
    else None
  }

  /** In an accepted document the links are apart and in order, and they are exactly the visible marks. */
  lemma LinksAreTheMarks(text: string, rules: Rules)
    requires Accepted(text, rules)
    ensures Ordered(Links(text, rules), 0, |text|)
    ensures Closes(Links(text, rules)) == MarksFrom(MaskedCode(text).value, 0)
    ensures |Closes(Links(text, rules))| == |Links(text, rules)|
  {
    var masked := MaskedCode(text).value;
    CodeMasks(text);
    ScanOrdered(text, masked, rules.resolve, 0, 0, 0);
    ClosesAreMarks(text, masked, rules.resolve, 0, 0, 0);
    CountIsMarks(masked, 0);
    SubsetOfSameSize(Closes(Links(text, rules)), MarksFrom(masked, 0));
  }

  /** How far a position outside all links moves. */
  ghost function Shift(spans: seq<Span>, at: nat): int {
    if spans == [] || at < spans[0].from then 0
    else |spans[0].replacement| - (spans[0].to - spans[0].from) + Shift(spans[1..], at)
  }

  predicate Outside(spans: seq<Span>, at: nat) {
    forall s :: s in spans ==> at < s.from || s.to <= at
  }

  /** Every character outside the links is kept, and moves by what the links before it grew or shrank. */
  lemma {:induction false} OutsideKept(text: string, spans: seq<Span>, cursor: nat, at: nat)
    requires Ordered(spans, cursor, |text|) && cursor <= at < |text| && Outside(spans, at)
    ensures var moved := at - cursor + Shift(spans, at);
      0 <= moved < |Splice(text, spans, cursor)| && Splice(text, spans, cursor)[moved] == text[at]
    decreases |spans|
  {
    if spans != [] {
      var head, rest := spans[0], Splice(text, spans[1..], spans[0].to);
      assert head in spans;
      if at >= head.from {
        OutsideKept(text, spans[1..], head.to, at);
        var before := text[cursor..head.from] + head.replacement;
        assert Splice(text, spans, cursor) == before + rest;
        assert (before + rest)[|before| + (at - head.to + Shift(spans[1..], at))] ==
          rest[at - head.to + Shift(spans[1..], at)];
      } else {
        assert text[cursor..head.from][at - cursor] == text[at];
      }
    }
  }

  /** Two characters outside the links keep their order. */
  lemma {:induction false} OrderKept(text: string, spans: seq<Span>, cursor: nat, p: nat, q: nat)
    requires Ordered(spans, cursor, |text|) && cursor <= p < q < |text| && Outside(spans, p) && Outside(spans, q)
    ensures p + Shift(spans, p) < q + Shift(spans, q)
    decreases |spans|
  {
    if spans != [] {
      var head := spans[0];
      assert head in spans;
      if p >= head.from {
        OrderKept(text, spans[1..], head.to, p, q);
      } else if q >= head.from {
        OutsideKept(text, spans[1..], head.to, q);
      }
    }
  }

  /** In a rewritten document every character outside the links is still there, in order. */
  lemma RestIsKept(text: string, rules: Rules, p: nat)
    requires Accepted(text, rules) && p < |text| && Outside(Links(text, rules), p)
    ensures Rewritten(text, rules).Some?
    ensures var out, spans := Rewritten(text, rules).value, Links(text, rules);
      0 <= p + Shift(spans, p) < |out| && out[p + Shift(spans, p)] == text[p]
    ensures forall q :: p < q < |text| && Outside(Links(text, rules), q) ==>
      p + Shift(Links(text, rules), p) < q + Shift(Links(text, rules), q)
  {
    LinksAreTheMarks(text, rules);
    var spans := Links(text, rules);
    OutsideKept(text, spans, 0, p);
    forall q | p < q < |text| && Outside(spans, q) ensures p + Shift(spans, p) < q + Shift(spans, q) {
      OrderKept(text, spans, 0, p, q);
    }
  }

  /** Putting back what was there changes nothing. */
  lemma {:induction false} SpliceOfSame(text: string, spans: seq<Span>, cursor: nat)
    requires Ordered(spans, cursor, |text|)
    requires forall s :: s in spans ==> s.from <= s.to <= |text| && s.replacement == text[s.from..s.to]
    ensures Splice(text, spans, cursor) == text[cursor..]
    decreases |spans|
  {
    if spans != [] {
      assert spans[0] in spans;
      SpliceOfSame(text, spans[1..], spans[0].to);
      assert text[cursor..spans[0].from] + text[spans[0].from..spans[0].to] + text[spans[0].to..] == text[cursor..];
    }
  }

  lemma {:induction false} AllElsewhere(text: string, masked: string, resolve: string -> Resolution, scan: nat,
      links: nat)
    requires |masked| == |text| && ScanLinks(text, masked, resolve, scan, links).Some?
    requires forall target :: resolve(target).Elsewhere? || resolve(target).Refused?
    ensures forall s :: s in ScanLinks(text, masked, resolve, scan, links).value ==>
      s.from <= s.to <= |text| && s.replacement == text[s.from..s.to]
    decreases |text| - scan
  {
    hide Dest, LabelEnd, Backslashes;
    var start := Find(masked, '[', scan);
    if start.Some? {
      var c := CandidateAt(text, masked, resolve, start.value);
      AllElsewhere(text, masked, resolve,
        if c.NotALink? then start.value + 1 else c.span.to, if c.NotALink? then links else links + 1);
    }
  }

  /** A document that refers to nothing in the inventory comes out as it went in. */
  lemma OutsideDocumentUnchanged(text: string, rules: Rules)
    requires Accepted(text, rules)
    requires forall target :: rules.resolve(target).Elsewhere? || rules.resolve(target).Refused?
    ensures Rewritten(text, rules) == Some(text)
  {
    LinksAreTheMarks(text, rules);
    AllElsewhere(text, MaskedCode(text).value, rules.resolve, 0, 0);
    SpliceOfSame(text, Links(text, rules), 0);
    assert text[0..] == text;
  }

  // The loop

  /** What the loop still has to append behind a cursor. */
  ghost function Rest(text: string, masked: string, resolve: string -> Resolution, cursor: nat, scan: nat,
      links: nat): Option<string>
    requires Masks(masked, text) && cursor <= scan && cursor <= |text|
    requires cursor > 0 ==> text[cursor - 1] == ')'
  {
    var spans := ScanLinks(text, masked, resolve, scan, links);
    if spans.None? then None
    else
      ScanOrdered(text, masked, resolve, cursor, scan, links);
      Some(Splice(text, spans.value, cursor))
  }

  /** Between two rounds of the loop: what is joined, and what the rest of the document still brings, is the whole. */
  ghost predicate Loop(text: string, masked: string, resolve: string -> Resolution, pieces: string, cursor: nat,
      scan: nat, links: nat) {
    && Masks(masked, text) && cursor <= scan && cursor <= |text| && (cursor > 0 ==> text[cursor - 1] == ')')
    && var all, rest := ScanLinks(text, masked, resolve, 0, 0), ScanLinks(text, masked, resolve, scan, links);
    && (all.Some? <==> rest.Some?)
    && (all.Some? ==> |all.value| == links + |rest.value|)
    && Rest(text, masked, resolve, 0, 0, 0) == Prepend(pieces, Rest(text, masked, resolve, cursor, scan, links))
  }

  /** All links rewritten, if there are as many as visible marks. */
  ghost function Outcome(text: string, masked: string, resolve: string -> Resolution): Option<string>
    requires Masks(masked, text)
  {
    var all := ScanLinks(text, masked, resolve, 0, 0);
    if all.Some? && |all.value| == Count(masked, 0) then Rest(text, masked, resolve, 0, 0, 0) else None
  }

  lemma LoopBegins(text: string, masked: string, resolve: string -> Resolution)
    requires Masks(masked, text)
    ensures Loop(text, masked, resolve, "", 0, 0, 0)
  {
    PrependNothing(Rest(text, masked, resolve, 0, 0, 0));
  }

  lemma LoopSkips(text: string, masked: string, resolve: string -> Resolution, pieces: string, cursor: nat, scan: nat,
      links: nat, start: nat)
    requires Loop(text, masked, resolve, pieces, cursor, scan, links)
    requires Find(masked, '[', scan) == Some(start) && |masked| == |text|
      && CandidateAt(text, masked, resolve, start).NotALink?
    ensures Loop(text, masked, resolve, pieces, cursor, start + 1, links)
  {
    hide CandidateAt, Masks;
  }

  lemma LoopStops(text: string, masked: string, resolve: string -> Resolution, pieces: string, cursor: nat, scan: nat,
      links: nat, start: nat)
    requires Masks(masked, text) && Loop(text, masked, resolve, pieces, cursor, scan, links)
    requires Find(masked, '[', scan) == Some(start) && |masked| == |text|
    requires CandidateAt(text, masked, resolve, start).Refuse?
      || (CandidateAt(text, masked, resolve, start).Link? && links + 1 > MAX_LINKS)
    ensures Outcome(text, masked, resolve).None?
  {
    hide CandidateAt, Masks, Rest;
  }

  lemma LoopLinks(text: string, masked: string, resolve: string -> Resolution, pieces: string, cursor: nat, scan: nat,
      links: nat, start: nat, span: Span)
    requires Loop(text, masked, resolve, pieces, cursor, scan, links) && links + 1 <= MAX_LINKS
    requires Find(masked, '[', scan) == Some(start) && |masked| == |text|
      && CandidateAt(text, masked, resolve, start) == Link(span)
    ensures cursor <= span.from <= |text|
    ensures Loop(text, masked, resolve, pieces + text[cursor..span.from] + span.replacement, span.to, span.to,
      links + 1)
  {
    hide CandidateAt, Masks, ScanLinks, Rest, Find;
    FromCursor(text, masked, resolve, cursor, start);
    RestLinks(text, masked, resolve, cursor, scan, links, start, span);
    ScanCounts(text, masked, resolve, scan, links, start, span);
    var between := text[cursor..span.from];
    PrependTwice(pieces, between + span.replacement, Rest(text, masked, resolve, span.to, span.to, links + 1));
    assert pieces + (between + span.replacement) == pieces + between + span.replacement;
  }

  lemma ScanCounts(text: string, masked: string, resolve: string -> Resolution, scan: nat, links: nat, start: nat,
      span: Span)
    requires |masked| == |text| && Find(masked, '[', scan) == Some(start)
    requires CandidateAt(text, masked, resolve, start) == Link(span) && links + 1 <= MAX_LINKS
    ensures var all, rest :=
      ScanLinks(text, masked, resolve, scan, links), ScanLinks(text, masked, resolve, span.to, links + 1);
      (all.Some? <==> rest.Some?) && (all.Some? ==> |all.value| == 1 + |rest.value|)
  {
    hide CandidateAt;
  }

  lemma RestLinks(text: string, masked: string, resolve: string -> Resolution, cursor: nat, scan: nat, links: nat,
      start: nat, span: Span)
    requires Masks(masked, text) && cursor <= scan && cursor <= |text| && |masked| == |text|
    requires cursor > 0 ==> text[cursor - 1] == ')'
    requires Find(masked, '[', scan) == Some(start) && CandidateAt(text, masked, resolve, start) == Link(span)
      && links + 1 <= MAX_LINKS
    requires cursor <= span.from <= |text|
    ensures Rest(text, masked, resolve, cursor, scan, links)
      == Prepend(text[cursor..span.from] + span.replacement, Rest(text, masked, resolve, span.to, span.to, links + 1))
  {
    hide CandidateAt, Masks;
    var spans := ScanLinks(text, masked, resolve, scan, links);
    if spans.Some? {
      ScanOrdered(text, masked, resolve, cursor, scan, links);
      ScanOrdered(text, masked, resolve, span.to, span.to, links + 1);
      assert spans.value[1..] == ScanLinks(text, masked, resolve, span.to, links + 1).value;
    }
  }

  lemma LoopEnds(text: string, masked: string, resolve: string -> Resolution, pieces: string, cursor: nat, scan: nat,
      links: nat)
    requires Masks(masked, text) && Loop(text, masked, resolve, pieces, cursor, scan, links) && |masked| == |text|
    requires Find(masked, '[', scan).None?
    ensures cursor <= |text|
    ensures Outcome(text, masked, resolve) == if Count(masked, 0) == links then Some(pieces + text[cursor..]) else None
  {
  }

  /** The map of labels decides as the naive rule does. */
  lemma Classified(text: string, masked: string, ends: map<nat, nat>, resolve: string -> Resolution, start: nat)
    requires LabelsAre(masked, ends) && start < |masked| == |text| && masked[start] == '['
    ensures var c, plain := CandidateAt(text, masked, resolve, start), Backslashes(masked, start) % 2 == 0;
      if !plain || start !in ends then c.NotALink?
      else
        var close := ends[start];
        start < close < |masked|
        && if close + 1 < |masked| && masked[close + 1] == '[' then c.Refuse?
        else if !(close + 1 < |masked| && masked[close + 1] == '(') then c.NotALink?
        else if Dest(text, close + 2).None? || resolve(Dest(text, close + 2).value.target).Refused? then c.Refuse?
        else
          var d, from := Dest(text, close + 2).value, LinkStart(masked, start);
          c == Link(Span(from, start, close, d.end, Replacement(text, from, start, close, d, resolve(d.target))))
  {
    hide Backslashes, LabelEnd, Dest, Replacement;
    assert Backslashes(masked, start) % 2 == 0 <==> Opens(masked, start);
    assert Opens(masked, start) ==> (LabelEnd(masked, start + 1, 0).Some? <==> start in ends);
  }

  /** rewrite_markdown, from the decoded text to the joined pieces. */
  method RewriteMarkdown(text: string, rules: Rules) returns (result: Option<string>)
    ensures result == Rewritten(text, rules)
  {
    var code := MaskCode(text);
    if code.None? { return None; }
    var masked := code.value;
    CodeMasks(text);
    if rules.unsupported(text, masked) { return None; }
    var labels := LabelEnds(masked);
    if labels.None? { return None; }
    var spliced := RewriteLinks(text, masked, labels.value, rules.resolve);
    return spliced;
  }

  /** The main loop: the text between links, and each link replaced. */
  method RewriteLinks(text: string, masked: string, ends: map<nat, nat>, resolve: string -> Resolution)
    returns (result: Option<string>)
    requires Masks(masked, text) && |masked| == |text| && LabelsAre(masked, ends)
    ensures result == Outcome(text, masked, resolve)
  {
    hide Replacement, Dest, LabelEnd, Backslashes, Masks, Count, Literal, LabelsAre, CandidateAt, ScanLinks, Rest, Find,
      Loop, Outcome;
    var pieces: string := "";
    var cursor: nat, scan: nat, links: nat := 0, 0, 0;
    LoopBegins(text, masked, resolve);
    var found := Find(masked, '[', scan);
    while found.Some?
      invariant found == Find(masked, '[', scan)
      invariant Loop(text, masked, resolve, pieces, cursor, scan, links)
      decreases |masked| - scan
    {
      var start := found.value;
      Classified(text, masked, ends, resolve, start);
      var escaped := CountEscape(masked, start);
      if escaped == 1 || start !in ends {
        LoopSkips(text, masked, resolve, pieces, cursor, scan, links, start);
        scan := start + 1;
        found := Find(masked, '[', scan);
        continue;
      }
      var close := ends[start];
      if close + 1 < |masked| && masked[close + 1] == '[' {
        LoopStops(text, masked, resolve, pieces, cursor, scan, links, start);
        return None;
      }
      if !(close + 1 < |masked| && masked[close + 1] == '(') {
        LoopSkips(text, masked, resolve, pieces, cursor, scan, links, start);
        scan := start + 1;
        found := Find(masked, '[', scan);
        continue;
      }
      var destination := ReadDestination(text, close + 2);
      if destination.None? || resolve(destination.value.target).Refused? || links + 1 > MAX_LINKS {
        LoopStops(text, masked, resolve, pieces, cursor, scan, links, start);
        return None;
      }
      var d, from := destination.value, LinkStart(masked, start);
      var replacement := Replacement(text, from, start, close, d, resolve(d.target));
      LoopLinks(text, masked, resolve, pieces, cursor, scan, links, start,
        Span(from, start, close, d.end, replacement));
      pieces := pieces + text[cursor..from] + replacement;
      cursor, scan, links := d.end, d.end, links + 1;
      found := Find(masked, '[', scan);
    }
    LoopEnds(text, masked, resolve, pieces, cursor, scan, links);
    if Count(masked, 0) != links { return None; }
    return Some(pieces + text[cursor..]);
  }
}
