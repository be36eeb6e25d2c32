/** What a relocated link means: read in the output at its own mark, an installed link has its new destination, and the
    other links read as declared. */
module LinkMeaning {
  import opened Text
  import opened CodeMask
  import opened CodeLiteral
  import opened LinkSyntax
  import opened LinkRewrite

  // Reading is local: only the characters up to where it stops matter

  /** The characters of `t` from `o` on are those of `s` from `a` on, n of them. */
  predicate Agree(s: string, a: nat, t: string, o: nat, n: nat) {
    a + n <= |s| && o + n <= |t| && s[a..a + n] == t[o..o + n]
  }

  lemma AgreeBounds(s: string, a: nat, t: string, o: nat, n: nat)
    requires Agree(s, a, t, o, n)
    ensures a + n <= |s| && o + n <= |t|
  {
  }

  lemma AgreeAt(s: string, a: nat, t: string, o: nat, n: nat, i: nat)
    requires Agree(s, a, t, o, n) && i < n
    ensures s[a + i] == t[o + i]
  {
    assert s[a..a + n][i] == t[o..o + n][i];
  }

  lemma AgreeLater(s: string, a: nat, t: string, o: nat, n: nat, i: nat)
    requires Agree(s, a, t, o, n) && i <= n
    ensures Agree(s, a + i, t, o + i, n - i)
  {
    assert s[a + i..a + n] == s[a..a + n][i..] && t[o + i..o + n] == t[o..o + n][i..];
  }

  lemma BackslashIsNoSpace()
    ensures !PySpace('\\')
  {
  }

  lemma {:induction false} TokenIsLocal(s: string, a: nat, t: string, o: nat, angle: bool, depth: nat, to: nat,
      open: nat)
    requires a <= to < |s| && TokenEnd(s, a, angle, depth) == Some((to, open)) && Agree(s, a, t, o, to + 1 - a)
    ensures TokenEnd(t, o, angle, depth) == Some((o + to - a, open))
    decreases |s| - a
  {
    hide *;
    AgreeBounds(s, a, t, o, to + 1 - a);
    AgreeAt(s, a, t, o, to + 1 - a, 0);
    TokenUnfolds(s, a, angle, depth);
    TokenUnfolds(t, o, angle, depth);
    if a == to {
      Unescaped(t, o);
      StopIsNoEscape(s[a], angle, depth);
    } else {
      EscapesAgree(s, a, t, o, to + 1 - a);
      if EscapedAt(s, a) {
        AgreeLater(s, a, t, o, to + 1 - a, 2);
        TokenIsLocal(s, a + 2, t, o + 2, angle, depth, to, open);
      } else {
        AgreeLater(s, a, t, o, to + 1 - a, 1);
        TokenIsLocal(s, a + 1, t, o + 1, angle, Deeper(s[a], angle, depth), to, open);
      }
    }
  }

  /** A character that may not stand in a destination; one that ends it; and how deep it leads otherwise. */
  predicate Bad(c: char, angle: bool) { c in "\r\n" || (angle && c == '<') }

  predicate Stop(c: char, angle: bool, depth: nat) {
    if angle then c == '>' else (c == ')' && depth == 0) || PySpace(c)
  }

  function Deeper(c: char, angle: bool, depth: nat): nat {
    if angle then depth else if c == '(' then depth + 1 else if c == ')' && depth > 0 then depth - 1 else depth
  }

  lemma TokenUnfolds(s: string, a: nat, angle: bool, depth: nat)
    requires a < |s|
    ensures EscapedAt(s, a) ==> a + 2 <= |s| && TokenEnd(s, a, angle, depth) == TokenEnd(s, a + 2, angle, depth)
    ensures !EscapedAt(s, a) ==>
      TokenEnd(s, a, angle, depth) ==
      if Bad(s[a], angle) then None
      else if Stop(s[a], angle, depth) then Some((a, depth)) else TokenEnd(s, a + 1, angle, Deeper(s[a], angle, depth))
  {
    ParenthesisIsNoSpace();
    hide PySpace, Punctuation;
  }

  lemma ParenthesisIsNoSpace()
    ensures !PySpace('(') && !PySpace(')')
  {
  }

  lemma StopIsNoEscape(c: char, angle: bool, depth: nat)
    ensures Stop(c, angle, depth) ==> c != '\\'
  {
    BackslashIsNoSpace();
  }

  lemma Unescaped(s: string, a: nat)
    ensures a < |s| && s[a] != '\\' ==> !EscapedAt(s, a)
  {
  }

  lemma EscapesAgree(s: string, a: nat, t: string, o: nat, n: nat)
    requires Agree(s, a, t, o, n) && n >= 2
    ensures EscapedAt(s, a) <==> EscapedAt(t, o)
    ensures EscapedAt(s, a) ==> a + 1 < |s|
  {
    AgreeAt(s, a, t, o, n, 0);
    AgreeAt(s, a, t, o, n, 1);
  }

  lemma {:induction false} BlanksAreLocal(s: string, a: nat, t: string, o: nat, to: nat)
    requires a <= to < |s| && SkipBlanks(s, a) == to && Agree(s, a, t, o, to + 1 - a)
    ensures SkipBlanks(t, o) == o + to - a
    decreases |s| - a
  {
    hide Agree;
    AgreeBounds(s, a, t, o, to + 1 - a);
    AgreeAt(s, a, t, o, to + 1 - a, 0);
    if a < to {
      AgreeLater(s, a, t, o, to + 1 - a, 1);
      BlanksAreLocal(s, a + 1, t, o + 1, to);
    }
  }

  /** Blanks that agree are skipped, whatever follows them. */
  lemma {:induction false} LeadingBlanks(s: string, a: nat, t: string, o: nat, to: nat)
    requires a <= to <= |s| && SkipBlanks(s, a) == to && Agree(s, a, t, o, to - a)
    ensures o + to - a <= |t| && SkipBlanks(t, o) == SkipBlanks(t, o + to - a)
    decreases |s| - a
  {
    hide Agree;
    AgreeBounds(s, a, t, o, to - a);
    if a < to {
      AgreeAt(s, a, t, o, to - a, 0);
      AgreeLater(s, a, t, o, to - a, 1);
      LeadingBlanks(s, a + 1, t, o + 1, to);
    }
  }

  // A destination put in the place of another

  /** A text that is read back as one whole destination before a given character. */
  predicate Readable(url: string, angle: bool, next: char) {
    && TokenEnd(url + [next], 0, angle, 0) == Some((|url|, 0))
    && (angle || !(BlankIn((url + [next])[0]) || (url + [next])[0] == '<'))
  }

  predicate Angle(text: string, start: nat)
    requires start <= |text|
  {
    var lead := SkipBlanks(text, start); lead < |text| && text[lead] == '<'
  }

  /** `out` from `at` on is the destination of `text` from `start` on with another token. */
  predicate Retargeted(text: string, start: nat, d: Destination, out: string, at: nat, url: string)
    requires start <= d.tokenStart <= d.tokenEnd < d.end <= |text|
  {
    var to := at + (d.tokenStart - start);
    && Agree(text, start, out, at, d.tokenStart - start)
    && Agree(url, 0, out, to, |url|)
    && Agree(text, d.tokenEnd, out, to + |url|, d.end - d.tokenEnd)
  }

  /** The shape of a destination that was read. */
  lemma DestShape(text: string, start: nat, d: Destination)
    requires start <= |text| && Dest(text, start) == Some(d)
    ensures var lead, angle := SkipBlanks(text, start), Angle(text, start);
      && lead < |text| && d.tokenStart == (if angle then lead + 1 else lead)
      && TokenEnd(text, d.tokenStart, angle, 0) == Some((d.tokenEnd, 0)) && (angle ==> text[d.tokenEnd] == '>')
      && d.end - 1 == SkipBlanks(text, if angle then d.tokenEnd + 1 else d.tokenEnd) && text[d.end - 1] == ')'
      && d.target == Unescape(text[d.tokenStart..d.tokenEnd])
  {
    hide Unescape;
    if !Angle(text, start) { TokenShape(text, d.tokenStart, false, 0); }
  }

  lemma RetargetedMeans(text: string, start: nat, d: Destination, out: string, at: nat, url: string)
    requires start <= d.tokenStart <= d.tokenEnd < d.end <= |text| && Retargeted(text, start, d, out, at, url)
    ensures var to := at + (d.tokenStart - start);
      && Agree(text, start, out, at, d.tokenStart - start)
        && Agree(text, d.tokenEnd, out, to + |url|, d.end - d.tokenEnd)
      && to + |url| < |out| && out[to + |url|] == text[d.tokenEnd] && out[to..to + |url|] == url
  {
    var to := at + (d.tokenStart - start);
    AgreeAt(text, d.tokenEnd, out, to + |url|, d.end - d.tokenEnd, 0);
    assert url[0..|url|] == url;
  }

  /** Where the new token is looked for: directly behind the blanks, and the angle, that were there before. */
  lemma NewLead(text: string, start: nat, d: Destination, out: string, at: nat, url: string)
    requires start <= |text| && at <= |out| && Dest(text, start) == Some(d) && Retargeted(text, start, d, out, at, url)
    ensures var to, angle := at + (d.tokenStart - start), Angle(text, start);
      if angle then Angle(out, at) && SkipBlanks(out, at) == to - 1
      else at <= to <= |out| && SkipBlanks(out, at) == SkipBlanks(out, to)
  {
    DestShape(text, start, d);
    RetargetedMeans(text, start, d, out, at, url);
    hide Dest, TokenEnd, Retargeted, Agree, Unescape;
    var lead := SkipBlanks(text, start);
    if Angle(text, start) {
      AgreeAt(text, start, out, at, d.tokenStart - start, lead - start);
      BlanksAreLocal(text, start, out, at, lead);
    } else {
      LeadingBlanks(text, start, out, at, lead);
    }
  }

  lemma NewClose(text: string, start: nat, d: Destination, out: string, at: nat, url: string)
    requires start <= |text| && Dest(text, start) == Some(d) && Retargeted(text, start, d, out, at, url)
    ensures var to, angle := at + (d.tokenStart - start) + |url|, Angle(text, start);
      to < |out|
      && var close := SkipBlanks(out, if angle then to + 1 else to);
      close == to + (d.end - d.tokenEnd) - 1 && close < |out| && out[close] == ')'
  {
    hide *;
    DestShape(text, start, d);
    RetargetedMeans(text, start, d, out, at, url);
    var to, n, k := at + (d.tokenStart - start) + |url|, d.end - d.tokenEnd, if Angle(text, start) then 1 else 0;
    AgreeLater(text, d.tokenEnd, out, to, n, k);
    CloseIsLocal(text, d.tokenEnd + k, out, to + k, d.end - 1);
  }

  lemma CloseIsLocal(s: string, a: nat, t: string, o: nat, close: nat)
    requires a <= close < |s| && SkipBlanks(s, a) == close && s[close] == ')' && Agree(s, a, t, o, close + 1 - a)
    ensures var there := o + close - a; there < |t| && SkipBlanks(t, o) == there && t[there] == ')'
  {
    hide *;
    BlanksAreLocal(s, a, t, o, close);
    AgreeBounds(s, a, t, o, close + 1 - a);
    AgreeAt(s, a, t, o, close + 1 - a, close - a);
  }

  /** What is read once the token is replaced: the new text, as one token, in the same place, exactly if it is readable
      there. */
  lemma NewDestination(text: string, start: nat, d: Destination, out: string, at: nat, url: string)
    requires start <= |text| && at <= |out| && Dest(text, start) == Some(d) && Retargeted(text, start, d, out, at, url)
    ensures var to := at + (d.tokenStart - start);
      Dest(out, at) == Some(Destination(Unescape(url), to, to + |url|, to + |url| + (d.end - d.tokenEnd)))
      <==> Readable(url, Angle(text, start), text[d.tokenEnd])
  {
    hide Dest, TokenEnd, Retargeted, Agree, Unescape, SkipBlanks, Readable, Angle;
    DestShape(text, start, d);
    if Readable(url, Angle(text, start), text[d.tokenEnd]) { ReadThere(text, start, d, out, at, url); }
    var to := at + (d.tokenStart - start);
    var there := Destination(Unescape(url), to, to + |url|, to + |url| + (d.end - d.tokenEnd));
    if Dest(out, at) == Some(there) { OnlyIfReadable(text, start, d, out, at, url, there); }
  }

  lemma OnlyIfReadable(text: string, start: nat, d: Destination, out: string, at: nat, url: string, there: Destination)
    requires start <= |text| && at <= |out| && Dest(text, start) == Some(d) && Retargeted(text, start, d, out, at, url)
    requires Dest(out, at) == Some(there)
    requires there.tokenStart == at + (d.tokenStart - start) && there.tokenEnd == there.tokenStart + |url|
    ensures Readable(url, Angle(text, start), text[d.tokenEnd])
  {
    hide Dest, TokenEnd, Retargeted, Agree, Unescape, SkipBlanks;
    DestShape(text, start, d);
    RetargetedMeans(text, start, d, out, at, url);
    NewLead(text, start, d, out, at, url);
    DestShape(out, at, there);
    var to, next := there.tokenStart, text[d.tokenEnd];
    SameToken(url, next, out, to);
    if !Angle(text, start) { LeadIsThere(out, at, to); }
    TokenIsLocal(out, to, url + [next], 0, Angle(text, start), 0, to + |url|, 0);
  }

  lemma SameToken(url: string, next: char, out: string, to: nat)
    requires to + |url| < |out| && out[to + |url|] == next && out[to..to + |url|] == url
    ensures Agree(url + [next], 0, out, to, |url| + 1) && Agree(out, to, url + [next], 0, |url| + 1)
    ensures (url + [next])[0] == out[to]
  {
    var whole := url + [next];
    assert out[to..to + |url| + 1] == whole == whole[0..|url| + 1];
    assert out[to..to + |url| + 1][0] == whole[0];
  }

  lemma ReadThere(text: string, start: nat, d: Destination, out: string, at: nat, url: string)
    requires start <= |text| && at <= |out| && Dest(text, start) == Some(d) && Retargeted(text, start, d, out, at, url)
    requires Readable(url, Angle(text, start), text[d.tokenEnd])
    ensures var to := at + (d.tokenStart - start);
      Dest(out, at) == Some(Destination(Unescape(url), to, to + |url|, to + |url| + (d.end - d.tokenEnd)))
  {
    hide *;
    var to := at + (d.tokenStart - start);
    DestShape(text, start, d);
    RetargetedMeans(text, start, d, out, at, url);
    NewToken(text, start, d, out, at, url);
    NewClose(text, start, d, out, at, url);
    DestFrom(out, at, to, to + |url|, to + |url| + (d.end - d.tokenEnd) - 1);
  }

  /** A readable text is one token where the other was. */
  lemma NewToken(text: string, start: nat, d: Destination, out: string, at: nat, url: string)
    requires start <= |text| && at <= |out| && Dest(text, start) == Some(d) && Retargeted(text, start, d, out, at, url)
    requires Readable(url, Angle(text, start), text[d.tokenEnd])
    ensures var to, angle := at + (d.tokenStart - start), Angle(text, start);
      && to <= |out| && Angle(out, at) == angle
        && to == (if angle then SkipBlanks(out, at) + 1 else SkipBlanks(out, at))
      && TokenEnd(out, to, angle, 0) == Some((to + |url|, 0))
  {
    hide *;
    var to, angle, next := at + (d.tokenStart - start), Angle(text, start), text[d.tokenEnd];
    DestShape(text, start, d);
    RetargetedMeans(text, start, d, out, at, url);
    NewLead(text, start, d, out, at, url);
    SameToken(url, next, out, to);
    ReadableMeans(url, angle, next);
    TokenIsLocal(url + [next], 0, out, to, angle, 0, |url|, 0);
    if !angle {
      NoBlankThere(out, to);
      NoAngleThere(out, at, to);
    }
  }

  lemma ReadableMeans(url: string, angle: bool, next: char)
    requires Readable(url, angle, next)
    ensures TokenEnd(url + [next], 0, angle, 0) == Some((|url|, 0))
    ensures !angle ==> !BlankIn((url + [next])[0]) && (url + [next])[0] != '<'
  {
  }

  lemma NoAngleThere(out: string, at: nat, to: nat)
    requires at <= to < |out| && SkipBlanks(out, at) == to && out[to] != '<'
    ensures !Angle(out, at)
  {
  }

  lemma NoBlankThere(out: string, to: nat)
    requires to < |out| && !BlankIn(out[to])
    ensures SkipBlanks(out, to) == to
  {
  }

  /** The converse of the shape. */
  lemma DestFrom(text: string, start: nat, from: nat, to: nat, close: nat)
    requires start <= |text| && SkipBlanks(text, start) < |text| && from <= to < |text| && close < |text|
    requires from == if Angle(text, start) then SkipBlanks(text, start) + 1 else SkipBlanks(text, start)
    requires TokenEnd(text, from, Angle(text, start), 0) == Some((to, 0)) && (Angle(text, start) ==> text[to] == '>')
    requires close == SkipBlanks(text, if Angle(text, start) then to + 1 else to) && text[close] == ')'
    ensures Dest(text, start) == Some(Destination(Unescape(text[from..to]), from, to, close + 1))
  {
    hide TokenEnd, SkipBlanks, Unescape;
  }

  /** A token that begins at a place up to which there are only blanks begins there without an angle. */
  lemma LeadIsThere(out: string, at: nat, to: nat)
    requires at <= to < |out| && SkipBlanks(out, at) == SkipBlanks(out, to)
    requires to == if Angle(out, at) then SkipBlanks(out, at) + 1 else SkipBlanks(out, at)
    ensures !Angle(out, at) && !BlankIn(out[to]) && out[to] != '<'
  {
  }

  // Which texts are readable

  /** Nothing that ends or escapes a destination. */
  predicate Plain(url: string) {
    url != "" && forall i :: 0 <= i < |url| ==> !PySpace(url[i]) && url[i] !in "()<>\\"
  }

  lemma {:induction false} PlainToken(url: string, next: char, at: nat, angle: bool)
    requires Plain(url) && at <= |url| && next !in "\r\n"
    requires if angle then next == '>' else PySpace(next) || next == ')'
    ensures TokenEnd(url + [next], at, angle, 0) == Some((|url|, 0))
    decreases |url| - at
  {
    var whole := url + [next];
    if at < |url| {
      assert whole[at] == url[at];
      PlainToken(url, next, at + 1, angle);
    }
  }

  lemma {:induction false} PlainUnescaped(url: string)
    requires forall i :: 0 <= i < |url| ==> url[i] != '\\'
    ensures Unescape(url) == url
  {
    if url != "" {
      PlainUnescaped(url[1..]);
    }
  }

  /** A destination without blanks, parentheses, angle brackets and backslashes is always readable, and means itself. */
  lemma PlainIsReadable(text: string, start: nat, d: Destination, url: string)
    requires start <= |text| && Dest(text, start) == Some(d) && Plain(url)
    ensures Readable(url, Angle(text, start), text[d.tokenEnd]) && Unescape(url) == url
  {
    DestShape(text, start, d);
    TokenShape(text, d.tokenStart, Angle(text, start), 0);
    NotALineEnd(text, d.tokenStart, Angle(text, start), 0);
    hide Unescape;
    PlainToken(url, text[d.tokenEnd], 0, Angle(text, start));
    PlainUnescaped(url);
    assert (url + [text[d.tokenEnd]])[0] == url[0];
  }

  lemma {:induction false} NotALineEnd(text: string, at: nat, angle: bool, depth: nat)
    requires at <= |text| && TokenEnd(text, at, angle, depth).Some?
    ensures var (to, open) := TokenEnd(text, at, angle, depth).value; to < |text| ==> text[to] !in "\r\n"
    decreases |text| - at
  {
    if at < |text| {
      var (to, open) := TokenEnd(text, at, angle, depth).value;
      if EscapedAt(text, at) {
        NotALineEnd(text, at + 2, angle, depth);
      } else if to > at {
        NotALineEnd(text, at + 1, angle,
          if angle then depth else if text[at] == '(' then depth + 1 else if text[at] == ')' then depth - 1 else depth);
      }
    }
  }

  /** A closing parenthesis that no opening one matches cuts a destination short. */
  lemma LooseParenthesisIsCut()
    ensures !Readable("a)b", false, ')') && Readable("a\\)b", false, ')') && Unescape("a\\)b") == "a)b"
  {
    var whole, escaped := "a)b" + [')'], "a\\)b" + [')'];
    assert TokenEnd(whole, 1, false, 0) == Some((1, 0));
    assert TokenEnd(whole, 0, false, 0) == Some((1, 0));
    assert TokenEnd(escaped, 4, false, 0) == Some((4, 0));
    assert TokenEnd(escaped, 3, false, 0) == Some((4, 0));
    assert EscapedAt(escaped, 1);
    assert TokenEnd(escaped, 1, false, 0) == Some((4, 0));
    assert TokenEnd(escaped, 0, false, 0) == Some((4, 0));
    assert "a\\)b"[1..] == "\\)b" && "\\)b"[2..] == "b";
    assert EscapedAt("\\)b", 0);
    assert Unescape("b") == "b";
  }

  /** Every punctuation character escaped. */
  function Escape(s: string): string {
    if s == "" then "" else (if Punctuation(s[0]) then ['\\', s[0]] else [s[0]]) + Escape(s[1..])
  }

  /** Unescaping undoes it. */
  lemma {:induction false} UnescapeEscape(s: string)
    ensures Unescape(Escape(s)) == s
  {
    if s != "" {
      UnescapeEscape(s[1..]);
      var rest := Escape(s[1..]);
      if Punctuation(s[0]) {
        assert Escape(s)[2..] == rest;
      } else {
        assert Escape(s)[1..] == rest && s[0] != '\\';
      }
      assert s == [s[0]] + s[1..];
    }
  }

  // Each link of a document

  /** How much the first k links grew. */
  ghost function Growth(spans: seq<Span>, k: nat): int
    requires k <= |spans|
  {
    if k == 0 then 0 else |spans[0].replacement| - (spans[0].to - spans[0].from) + Growth(spans[1..], k - 1)
  }

  /** Where the k-th replacement stands in the output. */
  lemma {:induction false} ReplacementStands(text: string, spans: seq<Span>, cursor: nat, k: nat)
    requires Ordered(spans, cursor, |text|) && k < |spans|
    ensures var at := spans[k].from - cursor + Growth(spans, k);
      && 0 <= at && at + |spans[k].replacement| <= |Splice(text, spans, cursor)|
      && Splice(text, spans, cursor)[at..at + |spans[k].replacement|] == spans[k].replacement
  {
    hide *;
    SpliceUnfolds(text, spans, cursor);
    GrowthUnfolds(spans, k);
    var head, rest := spans[0], Splice(text, spans[1..], spans[0].to);
    var before := text[cursor..head.from];
    if k == 0 {
      MiddlePiece(before, head.replacement, rest);
    } else {
      var at, n := spans[k].from - head.to + Growth(spans[1..], k - 1), |spans[k].replacement|;
      assert spans[1..][k - 1] == spans[k];
      ReplacementStands(text, spans[1..], head.to, k - 1);
      LastPiece(before, head.replacement, rest, at, n);
    }
  }

  lemma SpliceUnfolds(text: string, spans: seq<Span>, cursor: nat)
    requires Ordered(spans, cursor, |text|) && spans != []
    ensures cursor <= spans[0].from <= |text| && Ordered(spans[1..], spans[0].to, |text|)
    ensures Splice(text, spans, cursor) ==
      text[cursor..spans[0].from] + spans[0].replacement + Splice(text, spans[1..], spans[0].to)
  {
  }

  lemma GrowthUnfolds(spans: seq<Span>, k: nat)
    requires k <= |spans|
    ensures k == 0 ==> Growth(spans, k) == 0
    ensures k > 0 ==>
      Growth(spans, k) == |spans[0].replacement| - (spans[0].to - spans[0].from) + Growth(spans[1..], k - 1)
  {
  }

  lemma MiddlePiece(a: string, b: string, c: string)
    ensures (a + b + c)[|a|..|a| + |b|] == b
  {
  }

  lemma LastPiece(a: string, b: string, c: string, at: nat, n: nat)
    requires at + n <= |c|
    ensures (a + b + c)[|a| + |b| + at..|a| + |b| + at + n] == c[at..at + n]
  {
  }

  /** The mark of an image belongs to its link, and nothing else before the bracket does. */
  lemma ImageMarks(text: string, rules: Rules, k: nat)
    requires Accepted(text, rules) && k < |Links(text, rules)|
    ensures var s, masked := Links(text, rules)[k], MaskedCode(text).value;
      && |masked| == |text| && s.from <= s.start < |text| && masked[s.start] == '['
      && s.start - s.from == if s.start > 0 && masked[s.start - 1] == '!' then 1 else 0
  {
    hide *;
    LinksScanned(text, rules);
    LinksAreCandidates(text, MaskedCode(text).value, rules.resolve, 0, 0);
    CandidateFrom(text, MaskedCode(text).value, rules.resolve, Links(text, rules)[k].start);
    LinksAtBrackets(text, MaskedCode(text).value, rules.resolve, 0, 0);
  }

  lemma CandidateFrom(text: string, masked: string, resolve: string -> Resolution, start: nat)
    requires start < |masked| == |text| && CandidateAt(text, masked, resolve, start).Link?
    ensures var s := CandidateAt(text, masked, resolve, start).span;
      s.start - s.from == if start > 0 && masked[start - 1] == '!' then 1 else 0
  {
    hide Replacement, LabelEnd, Backslashes, Dest;
  }

  lemma {:induction false} LinksAtBrackets(text: string, masked: string, resolve: string -> Resolution, scan: nat,
      links: nat)
    requires |masked| == |text| && ScanLinks(text, masked, resolve, scan, links).Some?
    ensures forall s :: s in ScanLinks(text, masked, resolve, scan, links).value ==>
      s.start < |masked| && masked[s.start] == '['
    decreases |text| - scan
  {
    hide CandidateAt;
    var start := Find(masked, '[', scan);
    if start.Some? {
      var c := CandidateAt(text, masked, resolve, start.value);
      CandidateSpans(text, masked, resolve, start.value);
      LinksAtBrackets(text, masked, resolve,
        if c.NotALink? then start.value + 1 else c.span.to, if c.NotALink? then links else links + 1);
    }
  }

  /** Every link found is the candidate at its bracket. */
  lemma {:induction false} LinksAreCandidates(text: string, masked: string, resolve: string -> Resolution, scan: nat,
      links: nat)
    requires |masked| == |text| && ScanLinks(text, masked, resolve, scan, links).Some?
    ensures forall s :: s in ScanLinks(text, masked, resolve, scan, links).value ==>
      s.start < |text| && CandidateAt(text, masked, resolve, s.start) == Link(s)
    decreases |text| - scan
  {
    hide CandidateAt;
    var start := Find(masked, '[', scan);
    if start.Some? {
      var c := CandidateAt(text, masked, resolve, start.value);
      LinksAreCandidates(text, masked, resolve,
        if c.NotALink? then start.value + 1 else c.span.to, if c.NotALink? then links else links + 1);
      CandidateSpans(text, masked, resolve, start.value);
    }
  }

  lemma CandidateSpans(text: string, masked: string, resolve: string -> Resolution, start: nat)
    requires start < |masked| == |text|
    ensures var c := CandidateAt(text, masked, resolve, start);
      c.Link? ==> start < c.span.to <= |text| && c.span.start == start
  {
  }

  /** The destination of a link, as it was read. */
  lemma LinkReads(text: string, masked: string, resolve: string -> Resolution, s: Span)
    requires s.start < |text| == |masked| && CandidateAt(text, masked, resolve, s.start) == Link(s)
    ensures s.from <= s.start < s.close && s.close + 2 <= |text| && Dest(text, s.close + 2).Some?
    ensures var d := Dest(text, s.close + 2).value;
      && d.end == s.to && !resolve(d.target).Refused?
      && s.replacement == Replacement(text, s.from, s.start, s.close, d, resolve(d.target))
  {
    hide Replacement, LabelEnd, Backslashes;
  }

  /** The only visible mark of a link is the one between its label and its destination. */
  lemma OneMarkPerLink(text: string, rules: Rules, k: nat, at: nat)
    requires Accepted(text, rules) && k < |Links(text, rules)|
    requires Links(text, rules)[k].from <= at < Links(text, rules)[k].to && MarkAt(MaskedCode(text).value, at)
    ensures at == Links(text, rules)[k].close
  {
    hide MaskedCode, TooDeep;
    var spans := Links(text, rules);
    LinksAreTheMarks(text, rules);
    assert at in MarksFrom(MaskedCode(text).value, 0);
    var s :| s in spans && s.close == at;
    var j :| 0 <= j < |spans| && spans[j] == s;
    if j != k { SpansApart(spans, 0, |text|, if j < k then j else k, if j < k then k else j); }
  }

  lemma {:induction false} SpansApart(spans: seq<Span>, cursor: nat, n: nat, j: nat, k: nat)
    requires Ordered(spans, cursor, n) && j < k < |spans|
    ensures spans[j].from < spans[j].to <= spans[k].from < spans[k].to && spans[j].close < spans[j].to
    ensures spans[k].from <= spans[k].close < spans[k].to
  {
    SpanFrom(spans[1..], spans[0].to, n, k - 1);
    if j > 0 { SpansApart(spans[1..], spans[0].to, n, j - 1, k - 1); }
  }

  lemma {:induction false} SpanFrom(spans: seq<Span>, cursor: nat, n: nat, k: nat)
    requires Ordered(spans, cursor, n) && k < |spans|
    ensures cursor <= spans[k].from <= spans[k].close < spans[k].to <= n
  {
    if k > 0 { SpanFrom(spans[1..], spans[0].to, n, k - 1); }
  }

  lemma LinkStands(text: string, rules: Rules, k: nat)
    requires Accepted(text, rules) && k < |Links(text, rules)|
    ensures var s := Links(text, rules)[k]; var at := s.from + Growth(Links(text, rules), k);
      && Rewritten(text, rules).Some? && 0 <= at
      && at + |s.replacement| <= |Rewritten(text, rules).value|
      && Rewritten(text, rules).value[at..at + |s.replacement|] == s.replacement
    ensures var s := Links(text, rules)[k];
      s.from <= s.start < s.close && s.close + 2 <= |text| && Dest(text, s.close + 2).Some?
    ensures var s := Links(text, rules)[k]; var d := Dest(text, s.close + 2).value;
      && d.end == s.to && !rules.resolve(d.target).Refused?
      && s.replacement == Replacement(text, s.from, s.start, s.close, d, rules.resolve(d.target))
  {
    hide *;
    LinksScanned(text, rules);
    var spans, masked := Links(text, rules), MaskedCode(text).value;
    ReplacementStands(text, spans, 0, k);
    LinksAreCandidates(text, masked, rules.resolve, 0, 0);
    LinkReads(text, masked, rules.resolve, spans[k]);
  }

  lemma LinksScanned(text: string, rules: Rules)
    requires Accepted(text, rules)
    ensures MaskedCode(text).Some? && |MaskedCode(text).value| == |text|
    ensures ScanLinks(text, MaskedCode(text).value, rules.resolve, 0, 0) == Some(Links(text, rules))
    ensures Ordered(Links(text, rules), 0, |text|)
    ensures Rewritten(text, rules) == Some(Splice(text, Links(text, rules), 0))
  {
    hide MaskedCode, ScanLinks, Splice, Ordered, TooDeep, Count;
    LinksAreTheMarks(text, rules);
  }

  /** A link of an accepted document: its stretch, the destination it was read with, what that resolves to, the
      rewritten document and where in it the link comes to stand. */
  datatype Relocation = Relocation(span: Span, destination: Destination, resolution: Resolution, out: string, at: nat) {
    predicate Valid(text: string) {
      && span.from <= span.start < span.close
      && span.close + 2 <= destination.tokenStart <= destination.tokenEnd < destination.end <= |text|
      && destination.end == span.to && Dest(text, span.close + 2) == Some(destination) && !resolution.Refused?
      && at + |span.replacement| <= |out| && out[at..at + |span.replacement|] == span.replacement
      && span.replacement == Replacement(text, span.from, span.start, span.close, destination, resolution)
    }

    /** Where the label and the mark end, and where the new destination begins and ends. */
    function Mark(): int { at + (span.close + 2 - span.from) }

    function Token(): int { Mark() + (destination.tokenStart - (span.close + 2)) }

    function End(): int
      requires resolution.Installed?
    {
      Token() + |resolution.url| + (destination.end - destination.tokenEnd)
    }
  }

  ghost function RelocationOf(text: string, rules: Rules, k: nat): (r: Relocation)
    requires Accepted(text, rules) && k < |Links(text, rules)|
    ensures r.Valid(text) && Rewritten(text, rules) == Some(r.out) && r.span == Links(text, rules)[k]
    ensures r.resolution == rules.resolve(r.destination.target)
  {
    hide *;
    LinkStands(text, rules, k);
    var s := Links(text, rules)[k];
    var d, at := Dest(text, s.close + 2).value, s.from + Growth(Links(text, rules), k);
    var r := Relocation(s, d, rules.resolve(d.target), Rewritten(text, rules).value, at);
    RelocationIsValid(text, r);
    r
  }

  lemma RelocationIsValid(text: string, r: Relocation)
    requires r.span.from <= r.span.start < r.span.close && r.span.close + 2 <= |text|
    requires Dest(text, r.span.close + 2) == Some(r.destination) && r.destination.end == r.span.to
    requires !r.resolution.Refused?
    requires r.span.replacement ==
      Replacement(text, r.span.from, r.span.start, r.span.close, r.destination, r.resolution)
    requires r.at + |r.span.replacement| <= |r.out|
      && r.out[r.at..r.at + |r.span.replacement|] == r.span.replacement
    ensures r.Valid(text)
  {
    hide Dest, Replacement;
  }

  /** A link to an installed document, in the output: the label and its mark as they were; behind the mark, exactly if
      the new destination is readable there, that destination; then the line, if one was given. */
  lemma InstalledLinkIsRelocated(text: string, rules: Rules, k: nat)
    requires Accepted(text, rules) && k < |Links(text, rules)|
    requires RelocationOf(text, rules, k).resolution.Installed?
    ensures var r := RelocationOf(text, rules, k); IsRelocated(text, r, r.resolution.url, r.resolution.line)
  {
    hide Accepted, Links, Rewritten, Dest, Replacement;
    LinkIsRelocated(text, RelocationOf(text, rules, k));
  }

  predicate IsRelocated(text: string, r: Relocation, url: string, line: Option<string>)
    requires r.Valid(text) && r.resolution.Installed?
  {
    var d, to, next := r.destination, r.Token(), text[r.destination.tokenEnd];
    && r.End() <= |r.out| && r.out[r.at..r.Mark()] == text[r.span.from..r.span.close + 2]
    && (Reads(r.out, r.Mark(), Unescape(url), to, to + |url|, r.End()) <==>
      Readable(url, Angle(text, r.span.close + 2), next))
    && (Plain(url) ==> Reads(r.out, r.Mark(), url, to, to + |url|, r.End()))
    && (line.Some? ==>
      var note := " (line " + line.value + ")";
      r.End() + |note| <= |r.out| && r.out[r.End()..r.End() + |note|] == note)
  }

  /** Behind a mark stands one destination, with this target, this token and this end. */
  predicate Reads(out: string, mark: int, target: string, from: int, to: int, end: int) {
    && 0 <= mark <= |out| && 0 <= from && 0 <= to && 0 <= end
    && Dest(out, mark) == Some(Destination(target, from, to, end))
  }

  lemma LinkIsRelocated(text: string, r: Relocation)
    requires r.Valid(text) && r.resolution.Installed?
    ensures IsRelocated(text, r, r.resolution.url, r.resolution.line)
  {
    hide Dest, Replacement, Readable, Angle, Plain, Unescape, Retargeted;
    InstalledParts(text, r);
    NewDestination(text, r.span.close + 2, r.destination, r.out, r.Mark(), r.resolution.url);
    if Plain(r.resolution.url) { PlainIsReadable(text, r.span.close + 2, r.destination, r.resolution.url); }
  }

  lemma InstalledParts(text: string, r: Relocation)
    requires r.Valid(text) && r.resolution.Installed?
    ensures r.at <= r.Mark() <= r.End() <= |r.out|
    ensures r.out[r.at..r.Mark()] == text[r.span.from..r.span.close + 2]
    ensures Retargeted(text, r.span.close + 2, r.destination, r.out, r.Mark(), r.resolution.url)
    ensures r.resolution.line.Some? ==>
      var note := " (line " + r.resolution.line.value + ")";
      r.End() + |note| <= |r.out| && r.out[r.End()..r.End() + |note|] == note
  {
    hide Dest, Replacement, Retargeted;
    var s, d, url := r.span, r.destination, r.resolution.url;
    var shown, lead, tail := text[s.from..s.close + 2], text[s.close + 2..d.tokenStart], text[d.tokenEnd..d.end];
    var note := Note(r.resolution.line);
    InstalledText(text, s, d, r.resolution);
    FivePieces(r.out, r.at, shown, lead, url, tail, note);
    hide Relocation.Valid;
    PiecesRetargeted(text, s.close + 2, d, r.out, r.Mark(), url);
  }

  lemma PiecesRetargeted(text: string, start: nat, d: Destination, out: string, at: nat, url: string)
    requires start <= d.tokenStart <= d.tokenEnd < d.end <= |text|
    requires var to := at + (d.tokenStart - start);
      && to + |url| + (d.end - d.tokenEnd) <= |out| && out[at..to] == text[start..d.tokenStart]
      && out[to..to + |url|] == url
      && out[to + |url|..to + |url| + (d.end - d.tokenEnd)] == text[d.tokenEnd..d.end]
    ensures Retargeted(text, start, d, out, at, url)
  {
    assert url[0..|url|] == url;
  }

  function Note(line: Option<string>): string { if line.Some? then " (line " + line.value + ")" else "" }

  lemma InstalledText(text: string, s: Span, d: Destination, r: Resolution)
    requires s.from <= s.start < s.close && s.close + 2 <= d.tokenStart <= d.tokenEnd < d.end <= |text| && r.Installed?
    ensures Replacement(text, s.from, s.start, s.close, d, r) ==
      text[s.from..s.close + 2] + text[s.close + 2..d.tokenStart] + r.url + text[d.tokenEnd..d.end] + Note(r.line)
  {
    assert text[s.from..d.tokenStart] == text[s.from..s.close + 2] + text[s.close + 2..d.tokenStart];
  }

  /** A text that stands somewhere stands there piece by piece. */
  lemma FivePieces(out: string, at: nat, a: string, b: string, c: string, d: string, e: string)
    requires at + |a + b + c + d + e| <= |out| && out[at..at + |a + b + c + d + e|] == a + b + c + d + e
    ensures var i, j, k, l := at + |a|, at + |a| + |b|, at + |a| + |b| + |c|, at + |a| + |b| + |c| + |d|;
      out[at..i] == a && out[i..j] == b && out[j..k] == c && out[k..l] == d && out[l..l + |e|] == e
  {
    TwoPieces(out, at, a + b + c + d, e);
    TwoPieces(out, at, a + b + c, d);
    TwoPieces(out, at, a + b, c);
    TwoPieces(out, at, a, b);
  }

  lemma TwoPieces(out: string, at: nat, head: string, tail: string)
    requires at + |head + tail| <= |out| && out[at..at + |head + tail|] == head + tail
    ensures out[at..at + |head|] == head && out[at + |head|..at + |head| + |tail|] == tail
  {
    var whole := head + tail;
    assert out[at..at + |head|] == out[at..at + |whole|][..|head|];
    assert out[at + |head|..at + |head| + |tail|] == out[at..at + |whole|][|head|..];
  }

  /** A link to a document that is not installed, in the output: its label, which shows no mark, and the reference
      quoted as one code span. */
  lemma SourceLinkIsQuoted(text: string, rules: Rules, k: nat)
    requires Accepted(text, rules) && k < |Links(text, rules)|
    requires RelocationOf(text, rules, k).resolution.SourceOnly?
    ensures var r := RelocationOf(text, rules, k);
      IsQuoted(text[r.span.start + 1..r.span.close], r.resolution.reference, r.out, r.at)
    ensures var s := RelocationOf(text, rules, k).span;
      forall i :: s.start < i < s.close ==> !MarkAt(MaskedCode(text).value, i)
  {
    hide *;
    LinksScanned(text, rules);
    var r := RelocationOf(text, rules, k);
    SpanBounds(text, r);
    forall i | r.span.start < i < r.span.close ensures !MarkAt(MaskedCode(text).value, i) {
      if MarkAt(MaskedCode(text).value, i) { OneMarkPerLink(text, rules, k, i); }
    }
    PlacedText(text, r);
    QuotedPieces(r.out, r.at, text[r.span.start + 1..r.span.close], r.resolution.reference);
  }

  lemma SpanBounds(text: string, r: Relocation)
    requires r.Valid(text)
    ensures r.span.from <= r.span.start < r.span.close < r.span.to <= |text|
  {
    hide Dest, Replacement;
  }

  function SourceNote(): string { " (source checkout: " }

  predicate IsQuoted(shown: string, reference: string, out: string, at: nat) {
    var from := at + |shown| + |SourceNote()|;
    var to := from + |Literal(reference)|;
    && to < |out| && out[at..at + |shown|] == shown && out[at + |shown|..from] == SourceNote()
    && out[from..to] == Literal(reference) && out[to] == ')'
    && (reference != "" && '\n' !in reference ==> MaskedInline(out[from..to]) == Blank(out[from..to]))
  }

  lemma QuotedPieces(out: string, at: nat, shown: string, reference: string)
    requires var whole := shown + SourceNote() + Literal(reference) + ")" + "";
      at + |whole| <= |out| && out[at..at + |whole|] == whole
    ensures IsQuoted(shown, reference, out, at)
  {
    hide Literal, MaskedInline, Blank, SourceNote;
    FivePieces(out, at, shown, SourceNote(), Literal(reference), ")", "");
    LastOfPiece(out, at + |shown| + |SourceNote()| + |Literal(reference)|, ')');
    if reference != "" && '\n' !in reference { LiteralIsOneSpan(reference); }
  }

  lemma LastOfPiece(out: string, at: nat, c: char)
    requires at + 1 <= |out| && out[at..at + |[c]|] == [c]
    ensures out[at] == c
  {
    assert out[at] == out[at..at + 1][0];
  }

  /** What stands in the output for a link that is not installed. */
  lemma PlacedText(text: string, r: Relocation)
    requires r.Valid(text) && r.resolution.SourceOnly?
    ensures r.span.start < r.span.close <= |text|
    ensures var whole :=
      text[r.span.start + 1..r.span.close] + SourceNote() + Literal(r.resolution.reference) + ")" + "";
      r.at + |whole| <= |r.out| && r.out[r.at..r.at + |whole|] == whole
  {
    hide Dest, Literal, Replacement;
    QuotedText(text, r.span, r.destination, r.resolution);
  }

  lemma QuotedText(text: string, s: Span, d: Destination, r: Resolution)
    requires s.from <= s.start < s.close && s.close + 2 <= d.tokenStart <= d.tokenEnd < d.end <= |text| && r.SourceOnly?
    ensures Replacement(text, s.from, s.start, s.close, d, r) ==
      text[s.start + 1..s.close] + SourceNote() + Literal(r.reference) + ")" + ""
  {
    hide Literal;
  }

  /** A link to elsewhere stands in the output as it was. */
  lemma ElsewhereLinkIsKept(text: string, rules: Rules, k: nat)
    requires Accepted(text, rules) && k < |Links(text, rules)|
    requires RelocationOf(text, rules, k).resolution.Elsewhere?
    ensures var r := RelocationOf(text, rules, k);
      r.out[r.at..r.at + |r.span.replacement|] == text[r.span.from..r.span.to]
  {
    hide Accepted, Links, Dest, Rewritten;
  }
}
