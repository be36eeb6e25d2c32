/** Text as the host tools print it: words separated by white space, fields
    separated by one character, and canonical decimal numbers. Every writer here
    is paired with its reader. */
module Text {

  datatype Option<+T> = None | Some(value: T)

  predicate IsSpace(c: char) { c in " \t\n\r" || c == '\U{000B}' || c == '\U{000C}' }

  /** A word: nonempty and free of white space. */
  predicate Word(s: string) { s != "" && forall i :: 0 <= i < |s| ==> !IsSpace(s[i]) }

  predicate Words(ws: seq<string>) { forall i :: 0 <= i < |ws| ==> Word(ws[i]) }

  /** strings.Join(ws, " "). */
  function Join(ws: seq<string>): string {
    if |ws| == 0 then "" else if |ws| == 1 then ws[0] else ws[0] + " " + Join(ws[1..])
  }

  function WordEnd(s: string): (n: nat)
    ensures n <= |s|
    ensures forall i :: 0 <= i < n ==> !IsSpace(s[i])
    ensures n < |s| ==> IsSpace(s[n])
  {
    if s == "" || IsSpace(s[0]) then 0 else 1 + WordEnd(s[1..])
  }

  /** strings.Fields: the maximal runs of non-space characters, in order. */
  function Fields(s: string): (ws: seq<string>)
    decreases |s|
  {
    if s == "" then []
    else if IsSpace(s[0]) then Fields(s[1..])
    else [s[..WordEnd(s)]] + Fields(s[WordEnd(s)..])
  }

  lemma {:induction false} FieldsAreWords(s: string)
    ensures Words(Fields(s))
    decreases |s|
  {
    if s == "" {
    } else if IsSpace(s[0]) {
      FieldsAreWords(s[1..]);
    } else {
      FieldsAreWords(s[WordEnd(s)..]);
    }
  }

  lemma {:induction false} FieldsOfWordThen(w: string, rest: string)
    requires Word(w)
    requires rest == "" || IsSpace(rest[0])
    ensures Fields(w + rest) == [w] + Fields(rest)
  {
    var s := w + rest;
    assert forall i :: 0 <= i < |w| ==> s[i] == w[i];
    assert rest != "" ==> s[|w|] == rest[0];
    assert WordEnd(s) == |w|;
    assert s[..|w|] == w && s[|w|..] == rest;
  }

  /** Splitting what was joined gives the words back. */
  lemma {:induction false} FieldsJoin(ws: seq<string>)
    requires Words(ws)
    ensures Fields(Join(ws)) == ws
  {
    if |ws| == 0 {
    } else if |ws| == 1 {
      FieldsOfWordThen(ws[0], "");
      assert ws[0] + "" == ws[0];
      assert Fields("") == [];
      assert ws == [ws[0]];
    } else {
      var rest := " " + Join(ws[1..]);
      assert Join(ws) == ws[0] + rest;
      FieldsOfWordThen(ws[0], rest);
      assert rest[1..] == Join(ws[1..]);
      FieldsJoin(ws[1..]);
    }
  }

  // Canonical decimal numbers

  predicate Digit(c: char) { '0' <= c <= '9' }

  function DigitText(d: nat): (c: char)
    requires d < 10
  {
    "0123456789"[d]
  }

  function DigitValue(c: char): (d: nat)
    requires Digit(c)
    ensures d < 10 && DigitText(d) == c
  {
    c as int - '0' as int
  }

  /** strconv.FormatUint(n, 10). */
  function NatText(n: nat): (s: string)
    ensures s != ""
    ensures forall i :: 0 <= i < |s| ==> Digit(s[i])
  {
    if n < 10 then [DigitText(n)] else NatText(n / 10) + [DigitText(n % 10)]
  }

  /** Reads digits from the right; anything else is refused. */
  function Digits(s: string): (v: Option<nat>) {
    if s == "" then Some(0)
    else if !Digit(s[|s| - 1]) then None
    else match Digits(s[..|s| - 1])
      case None => None
      case Some(hi) => Some(10 * hi + DigitValue(s[|s| - 1]))
  }

  /** A decimal number written without sign, blank or leading zero. */
  function ParseNat(s: string): (v: Option<nat>) {
    if s == "" || (|s| > 1 && s[0] == '0') then None else Digits(s)
  }

  lemma {:induction false} DigitsOfNatText(n: nat)
    ensures Digits(NatText(n)) == Some(n)
    ensures |NatText(n)| > 1 ==> NatText(n)[0] != '0'
    ensures n > 0 ==> NatText(n)[0] != '0'
  {
    var s := NatText(n);
    if n < 10 {
      assert s[..|s| - 1] == "";
    } else {
      DigitsOfNatText(n / 10);
      assert s[..|s| - 1] == NatText(n / 10);
    }
  }

  /** Writing then reading a number gives it back. */
  lemma ParseNatText(n: nat)
    ensures ParseNat(NatText(n)) == Some(n)
  {
    DigitsOfNatText(n);
  }

  /** The format %03d. */
  function Pad(n: nat): string
  {
    if n < 10 then "00" + NatText(n) else if n < 100 then "0" + NatText(n) else NatText(n)
  }

  lemma {:induction false} LeadingZero(s: string)
    ensures Digits("0" + s) == Digits(s)
  {
    if s != "" {
      LeadingZero(s[..|s| - 1]);
      assert ("0" + s)[..|s|] == "0" + s[..|s| - 1];
    } else {
      assert ("0" + s)[..|s|] == "";
    }
  }

  /** Reading gives the number back, whatever the leading zeros. */
  lemma PadReads(n: nat)
    ensures Digits(Pad(n)) == Some(n)
  {
    hide Digits, NatText;
    DigitsOfNatText(n);
    LeadingZero(NatText(n));
    LeadingZero("0" + NatText(n));
    assert "0" + ("0" + NatText(n)) == "00" + NatText(n);
  }

  lemma {:induction false} DigitsCanonical(s: string)
    requires s != "" && s[0] != '0' && Digits(s).Some?
    ensures Digits(s).value > 0 && NatText(Digits(s).value) == s
  {
    var hi, d := s[..|s| - 1], DigitValue(s[|s| - 1]);
    assert s == hi + [s[|s| - 1]];
    if hi == "" {
      assert Digits(hi) == Some(0);
    } else {
      assert hi[0] == s[0];
      DigitsCanonical(hi);
      var n := Digits(s).value;
      assert n == 10 * Digits(hi).value + d;
      assert n / 10 == Digits(hi).value && n % 10 == d;
    }
  }

  /** Only the canonical text of a number reads as that number. */
  lemma ParseNatCanonical(s: string)
    requires ParseNat(s).Some?
    ensures s == NatText(ParseNat(s).value)
  {
    if |s| == 1 && s[0] == '0' {
      assert s == "0";
      assert s[..0] == "";
      assert Digits("") == Some(0);
    } else {
      DigitsCanonical(s);
    }
  }

  /** strconv.Itoa. */
  function IntText(i: int): (s: string) { if i < 0 then "-" + NatText(-i) else NatText(i) }

  /** strconv.Atoi restricted to texts that strconv.Itoa would print. */
  function ParseInt(s: string): (v: Option<int>) {
    if s != "" && s[0] == '-' then
      var n := ParseNat(s[1..]);
      if n.Some? && n.value > 0 then Some(0 - n.value) else None
    else var n := ParseNat(s);
      if n.Some? then Some(0 + n.value) else None
  }

  lemma ParseIntText(i: int)
    ensures ParseInt(IntText(i)) == Some(i)
  {
    if i < 0 {
      ParseNatText(-i);
      var digits := NatText(-i);
      assert ("-" + digits)[1..] == digits;
    } else {
      ParseNatText(i);
      assert Digit(NatText(i)[0]);
    }
  }

  // Fields separated by one character

  function Split(s: string, c: char): (parts: seq<string>)
    ensures |parts| > 0
  {
    if s == "" then [""]
    else var rest := Split(s[1..], c);
      if s[0] == c then [""] + rest else [[s[0]] + rest[0]] + rest[1..]
  }

  function JoinWith(parts: seq<string>, c: char): string
    requires |parts| > 0
  {
    if |parts| == 1 then parts[0] else parts[0] + [c] + JoinWith(parts[1..], c)
  }

  /** What was split joins back to the same text. */
  lemma {:induction false} JoinSplit(s: string, c: char)
    ensures JoinWith(Split(s, c), c) == s
  {
    if s != "" {
      var rest := Split(s[1..], c);
      JoinSplit(s[1..], c);
      if s[0] == c {
        assert ([""] + rest)[1..] == rest;
        assert s == [c] + s[1..];
      } else {
        var parts := [[s[0]] + rest[0]] + rest[1..];
        assert parts[1..] == rest[1..];
        assert s == [s[0]] + s[1..];
        if |rest| > 1 {
          assert JoinWith(parts, c) == [s[0]] + (rest[0] + [c] + JoinWith(rest[1..], c));
        }
      }
    }
  }

  lemma {:induction false} SplitPrefix(a: string, c: char, rest: string)
    requires c !in a
    ensures Split(a + [c] + rest, c) == [a] + Split(rest, c)
  {
    var s := a + [c] + rest;
    if a == "" {
      assert s[1..] == rest;
    } else {
      assert s[1..] == a[1..] + [c] + rest;
      SplitPrefix(a[1..], c, rest);
      assert a == [a[0]] + a[1..];
    }
  }

  lemma {:induction false} SplitWhole(a: string, c: char)
    requires c !in a
    ensures Split(a, c) == [a]
  {
    if a != "" {
      SplitWhole(a[1..], c);
      assert a == [a[0]] + a[1..];
    }
  }

  /** What was joined from parts without the separator splits back to them. */
  lemma {:induction false} SplitJoin(parts: seq<string>, c: char)
    requires |parts| > 0 && forall i :: 0 <= i < |parts| ==> c !in parts[i]
    ensures Split(JoinWith(parts, c), c) == parts
  {
    if |parts| == 1 {
      SplitWhole(parts[0], c);
      assert parts == [parts[0]];
    } else {
      SplitPrefix(parts[0], c, JoinWith(parts[1..], c));
      SplitJoin(parts[1..], c);
    }
  }
}
