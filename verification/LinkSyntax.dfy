/** The two scanners beneath Markdown link relocation: bracket matching and link destinations
    (section 6.3 of the CommonMark specification, restricted to inline links without titles). */
module LinkSyntax {
  import opened Text
  import opened CodeMask

  // Labels

  /** The naive rule for one label: from inside it, the first closing bracket that no inner label takes. */
  function LabelEnd(text: string, at: nat, depth: nat): (end: Option<nat>)
    ensures end.Some? ==> at <= end.value < |text| && text[end.value] == ']'
    decreases |text| - at
  {
    if at >= |text| then None
    else if text[at] == '\\' then LabelEnd(text, at + 2, depth)
    else if text[at] == '[' then LabelEnd(text, at + 1, depth + 1)
    else if text[at] == ']' then if depth == 0 then Some(at) else LabelEnd(text, at + 1, depth - 1)
    else LabelEnd(text, at + 1, depth)
  }

  /** Does a scan that holds `height` open labels ever hold more than the limit? */
  predicate TooDeep(text: string, at: nat, height: nat)
    decreases |text| - at
  {
    if at >= |text| then false
    else if text[at] == '\\' then TooDeep(text, at + 2, height)
    else if text[at] == '[' then height + 1 > MAX_LINKS || TooDeep(text, at + 1, height + 1)
    else if text[at] == ']' && height > 0 then TooDeep(text, at + 1, height - 1)
    else TooDeep(text, at + 1, height)
  }

  /** An opening bracket that no backslash escapes. */
  predicate Opens(text: string, at: nat) {
    at < |text| && text[at] == '[' && Backslashes(text, at) % 2 == 0
  }

  /** Between two steps of the scan: settled labels end where the naive rule ends them, and every bracket
      on the stack is still to be ended by the rest of the scan, the innermost first. */
  ghost predicate Scanning(text: string, stack: seq<nat>, ends: map<nat, nat>, at: nat) {
    && (at <= |text| ==> Backslashes(text, at) % 2 == 0)
    && (forall s :: s in ends ==> s < at && Opens(text, s) && LabelEnd(text, s + 1, 0) == Some(ends[s]))
    && (forall i :: 0 <= i < |stack| ==> Waits(text, stack[i], |stack| - 1 - i, at))
    && (forall s: nat :: s < at && Opens(text, s) ==> s in ends || s in stack)
  }

  ghost predicate Waits(text: string, s: nat, inner: nat, at: nat) {
    s < at && Opens(text, s) && LabelEnd(text, s + 1, 0) == LabelEnd(text, at, inner)
  }

  /** The map of all labels, by the naive rule. */
  ghost predicate LabelsAre(text: string, ends: map<nat, nat>) {
    && (forall s :: s in ends ==> Opens(text, s) && LabelEnd(text, s + 1, 0) == Some(ends[s]))
    && (forall s: nat :: Opens(text, s) && LabelEnd(text, s + 1, 0).Some? ==> s in ends)
  }

  /** The scan stands at positions with an even number of backslashes before them, and skips the others. */
  lemma EscapesSkipped(text: string, at: nat)
    requires at < |text| && Backslashes(text, at) % 2 == 0
    ensures text[at] != '\\' ==> Backslashes(text, at + 1) == 0
    ensures text[at] == '\\' ==> Backslashes(text, at + 1) % 2 == 1
    ensures text[at] == '\\' && at + 2 <= |text| ==> Backslashes(text, at + 2) % 2 == 0
  {
    if text[at] == '\\' && at + 2 <= |text| {
      if text[at + 1] == '\\' {
        assert Backslashes(text, at + 2) == 1 + Backslashes(text, at + 1) == 2 + Backslashes(text, at);
      }
    }
  }

  lemma ScanPasses(text: string, stack: seq<nat>, ends: map<nat, nat>, at: nat)
    requires Scanning(text, stack, ends, at) && at < |text| && text[at] != '[' && (text[at] == ']' ==> stack == [])
    ensures Scanning(text, stack, ends, if text[at] == '\\' then at + 2 else at + 1)
  {
    EscapesSkipped(text, at);
    var next := if text[at] == '\\' then at + 2 else at + 1;
    assert !Opens(text, at) && (next == at + 2 ==> !Opens(text, at + 1));
    hide Backslashes, Opens;
  }

  lemma ScanOpens(text: string, stack: seq<nat>, ends: map<nat, nat>, at: nat)
    requires Scanning(text, stack, ends, at) && at < |text| && text[at] == '['
    ensures Scanning(text, stack + [at], ends, at + 1)
  {
    EscapesSkipped(text, at);
    assert Opens(text, at);
    hide Backslashes, Opens;
    var more := stack + [at];
    forall i | 0 <= i < |more| ensures Waits(text, more[i], |more| - 1 - i, at + 1) {
      if i < |stack| { assert Waits(text, stack[i], |stack| - 1 - i, at); }
    }
    forall s: nat | s < at + 1 && Opens(text, s) ensures s in ends || s in more {
      if s < at { assert s in stack ==> s in more; } else { assert more[|stack|] == s; }
    }
  }

  lemma ScanCloses(text: string, rest: seq<nat>, top: nat, ends: map<nat, nat>, at: nat)
    requires Scanning(text, rest + [top], ends, at) && at < |text| && text[at] == ']'
    ensures Scanning(text, rest, ends[top := at], at + 1)
  {
    EscapesSkipped(text, at);
    assert !Opens(text, at);
    hide Backslashes, Opens;
    var stack := rest + [top];
    assert Waits(text, stack[|rest|], 0, at);
    assert LabelEnd(text, at, 0) == Some(at);
    forall i | 0 <= i < |rest| ensures Waits(text, rest[i], |rest| - 1 - i, at + 1) {
      assert Waits(text, stack[i], |stack| - 1 - i, at);
    }
  }

  lemma ScanEnds(text: string, stack: seq<nat>, ends: map<nat, nat>, at: nat)
    requires Scanning(text, stack, ends, at) && at >= |text|
    ensures LabelsAre(text, ends)
  {
    hide Backslashes;
    assert forall i ::
      0 <= i < |stack| ==> Waits(text, stack[i], |stack| - 1 - i, at) ==> LabelEnd(text, stack[i] + 1, 0).None?;
  }

  /** _label_ends: one pass with a stack finds what the naive rule finds for each bracket alone. */
  method LabelEnds(text: string) returns (ends: Option<map<nat, nat>>)
    ensures ends.None? <==> TooDeep(text, 0, 0)
    ensures ends.Some? ==> LabelsAre(text, ends.value)
  {
    var stack: seq<nat> := [];
    var found: map<nat, nat> := map[];
    var cursor: nat := 0;
    assert Scanning(text, stack, found, cursor);
    hide Scanning, LabelsAre;
    while cursor < |text|
      invariant TooDeep(text, 0, 0) == TooDeep(text, cursor, |stack|)
      invariant Scanning(text, stack, found, cursor)
      decreases |text| - cursor
    {
      if text[cursor] == '\\' {
        ScanPasses(text, stack, found, cursor);
        cursor := cursor + 2;
        continue;
      }
      if text[cursor] == '[' {
        ScanOpens(text, stack, found, cursor);
        stack := stack + [cursor];
        if |stack| > MAX_LINKS { return None; }
      } else if text[cursor] == ']' && stack != [] {
        var top := stack[|stack| - 1];
        assert stack == stack[..|stack| - 1] + [top];
        ScanCloses(text, stack[..|stack| - 1], top, found, cursor);
        stack := stack[..|stack| - 1];
        found := found[top := cursor];
      } else {
        ScanPasses(text, stack, found, cursor);
      }
      cursor := cursor + 1;
    }
    ScanEnds(text, stack, found, cursor);
    return Some(found);
  }

  // Destinations

  /** string.punctuation. */
  predicate Punctuation(c: char) { '!' <= c <= '/' || ':' <= c <= '@' || '[' <= c <= '`' || '{' <= c <= '~' }

  predicate EscapedAt(text: string, at: nat) {
    at + 1 < |text| && text[at] == '\\' && Punctuation(text[at + 1])
  }

  /** Backslash escapes removed. */
  function Unescape(token: string): (s: string)
    ensures |s| <= |token|
  {
    if token == "" then ""
    else if EscapedAt(token, 0) then [token[1]] + Unescape(token[2..])
    else [token[0]] + Unescape(token[1..])
  }

  /** Where a destination token stops, and how many parentheses it leaves open. */
  function TokenEnd(text: string, at: nat, angle: bool, depth: nat): (r: Option<(nat, nat)>)
    requires at <= |text|
    ensures r.Some? ==> at <= r.value.0 <= |text|
    decreases |text| - at
  {
    if at == |text| then Some((at, depth))
    else if EscapedAt(text, at) then TokenEnd(text, at + 2, angle, depth)
    else if text[at] in "\r\n" then None
    else if angle then
      if text[at] == '>' then Some((at, depth))
      else if text[at] == '<' then None else TokenEnd(text, at + 1, angle, depth)
    else if text[at] == '(' then TokenEnd(text, at + 1, angle, depth + 1)
    else if text[at] == ')' then if depth == 0 then Some((at, depth)) else TokenEnd(text, at + 1, angle, depth - 1)
    else if PySpace(text[at]) then Some((at, depth))
    else TokenEnd(text, at + 1, angle, depth)
  }

  datatype Destination = Destination(target: string, tokenStart: nat, tokenEnd: nat, end: nat)

  function Dest(text: string, start: nat): (d: Option<Destination>)
    requires start <= |text|
    ensures d.Some? ==> start <= d.value.tokenStart <= d.value.tokenEnd < d.value.end <= |text|
    ensures d.Some? ==> text[d.value.end - 1] == ')'
  {
    var lead := SkipBlanks(text, start);
    var angle := lead < |text| && text[lead] == '<';
    var from := if angle then lead + 1 else lead;
    match TokenEnd(text, from, angle, 0)
    case None => None
    case Some((to, depth)) =>
      if angle && (to == |text| || text[to] != '>') then None
      else
        var close := SkipBlanks(text, if angle then to + 1 else to);
        if close == |text| || text[close] != ')' || depth != 0 then None
        else Some(Destination(Unescape(text[from..to]), from, to, close + 1))
  }

  /** Parentheses of a token, escapes aside: how many stay open, or none if one closes too much. */
  function OpenAfter(token: string, depth: nat): Option<nat> {
    if token == "" then Some(depth)
    else if EscapedAt(token, 0) then OpenAfter(token[2..], depth)
    else if token[0] == '(' then OpenAfter(token[1..], depth + 1)
    else if token[0] == ')' then if depth == 0 then None else OpenAfter(token[1..], depth - 1)
    else OpenAfter(token[1..], depth)
  }

  /** A token stays on its line, and outside angle brackets its parentheses are the ones counted. */
  lemma {:induction false} TokenShape(text: string, at: nat, angle: bool, depth: nat)
    requires at <= |text| && TokenEnd(text, at, angle, depth).Some?
    ensures var (to, open) := TokenEnd(text, at, angle, depth).value;
      && (forall i :: at <= i < to ==> text[i] !in "\r\n")
      && (!angle ==> OpenAfter(text[at..to], depth) == Some(open))
      && (angle ==> open == depth)
      && (to < |text| ==> if angle then text[to] == '>' else PySpace(text[to]) || text[to] == ')')
    decreases |text| - at
  {
    var (to, open) := TokenEnd(text, at, angle, depth).value;
    var token := text[at..to];
    if at == |text| {
    } else if EscapedAt(text, at) {
      TokenShape(text, at + 2, angle, depth);
      assert token[0] == text[at] && token[1] == text[at + 1] && token[2..] == text[at + 2..to];
    } else if to > at {
      assert token[0] == text[at] && token[1..] == text[at + 1..to];
      assert !EscapedAt(token, 0) || to == at + 1;
      TokenShape(text, at + 1, angle,
        if angle then depth else if text[at] == '(' then depth + 1 else if text[at] == ')' then depth - 1 else depth);
    }
  }

  /** _destination. */
  method ReadDestination(text: string, start: nat) returns (d: Option<Destination>)
    requires start <= |text|
    ensures d == Dest(text, start)
  {
    hide Unescape, PySpace;
    var cursor: nat := start;
    while cursor < |text| && BlankIn(text[cursor])
      invariant cursor <= |text| && SkipBlanks(text, start) == SkipBlanks(text, cursor)
    {
      cursor := cursor + 1;
    }
    var angle := cursor < |text| && text[cursor] == '<';
    var tokenStart: nat := if angle then cursor + 1 else cursor;
    cursor := tokenStart;
    var depth: nat := 0;
    while cursor < |text|
      invariant tokenStart <= cursor <= |text|
      invariant TokenEnd(text, tokenStart, angle, 0) == TokenEnd(text, cursor, angle, depth)
      invariant angle ==> depth == 0
      decreases |text| - cursor
    {
      var c := text[cursor];
      if EscapedAt(text, cursor) {
        cursor := cursor + 2;
        continue;
      }
      if c in "\r\n" { return None; }
      if angle {
        if c == '>' { break; }
        if c == '<' { return None; }
      } else if c == '(' {
        depth := depth + 1;
      } else if c == ')' {
        if depth == 0 { break; }
        depth := depth - 1;
      } else if PySpace(c) {
        break;
      }
      cursor := cursor + 1;
    }
    assert TokenEnd(text, tokenStart, angle, 0) == Some((cursor, depth));
    var tokenEnd := cursor;
    if angle {
      if cursor == |text| || text[cursor] != '>' { return None; }
      cursor := cursor + 1;
    }
    ghost var after := cursor;
    while cursor < |text| && BlankIn(text[cursor])
      invariant after <= cursor <= |text| && SkipBlanks(text, after) == SkipBlanks(text, cursor)
    {
      cursor := cursor + 1;
    }
    if cursor == |text| || text[cursor] != ')' || depth != 0 { return None; }
    return Some(Destination(Unescape(text[tokenStart..tokenEnd]), tokenStart, tokenEnd, cursor + 1));
  }
}
