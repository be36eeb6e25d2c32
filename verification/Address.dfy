/** IPv4 addresses and their dotted text, as net/netip prints and reads them. */
module Address {
  import opened Text

  type Addr = n: int | 0 <= n < 0x1_0000_0000 witness 0

  const BROADCAST: Addr := 0xFFFF_FFFF

  function Octets(a: Addr): (o: seq<nat>)
    ensures |o| == 4 && forall i :: 0 <= i < 4 ==> o[i] < 256
  {
    [a / 0x100_0000, a / 0x1_0000 % 0x100, a / 0x100 % 0x100, a % 0x100]
  }

  function FromOctets(o: seq<nat>): (a: Addr)
    requires |o| == 4 && forall i :: 0 <= i < 4 ==> o[i] < 256
  {
    o[0] * 0x100_0000 + o[1] * 0x1_0000 + o[2] * 0x100 + o[3]
  }

  lemma OctetsOf(o: seq<nat>)
    requires |o| == 4 && forall i :: 0 <= i < 4 ==> o[i] < 256
    ensures Octets(FromOctets(o)) == o
  {
    var a := FromOctets(o);
    assert a / 0x100 == o[0] * 0x1_0000 + o[1] * 0x100 + o[2];
    assert a / 0x1_0000 == o[0] * 0x100 + o[1];
    assert a / 0x100_0000 == o[0];
  }

  lemma FromOctetsOf(a: Addr)
    ensures FromOctets(Octets(a)) == a
  {
    assert a / 0x100 == (a / 0x1_0000) * 0x100 + a / 0x100 % 0x100;
    assert a / 0x1_0000 == (a / 0x100_0000) * 0x100 + a / 0x1_0000 % 0x100;
  }

  /** netip.Addr.String. */
  function AddrText(a: Addr): string {
    var o := Octets(a);
    JoinWith([NatText(o[0]), NatText(o[1]), NatText(o[2]), NatText(o[3])], '.')
  }

  function ParseOctet(s: string): (v: Option<nat>)
    ensures v.Some? ==> v.value < 256
  {
    match ParseNat(s)
    case Some(n) => if n < 256 then Some(n) else None
    case None => None
  }

  /** netip.ParseAddr restricted to IPv4 text. */
  function ParseAddr(s: string): (a: Option<Addr>) {
    var parts := Split(s, '.');
    if |parts| != 4 then None
    else
      var o := [ParseOctet(parts[0]), ParseOctet(parts[1]), ParseOctet(parts[2]), ParseOctet(parts[3])];
      if o[0].None? || o[1].None? || o[2].None? || o[3].None? then None
      else Some(FromOctets([o[0].value, o[1].value, o[2].value, o[3].value]))
  }

  /** Reading an address's text gives the address back. */
  lemma ParseAddrText(a: Addr)
    ensures ParseAddr(AddrText(a)) == Some(a)
  {
    var o := Octets(a);
    forall i | 0 <= i < 4 ensures ParseOctet(NatText(o[i])) == Some(o[i]) && '.' !in NatText(o[i]) {
      ParseNatText(o[i]);
    }
    SplitJoin([NatText(o[0]), NatText(o[1]), NatText(o[2]), NatText(o[3])], '.');
    FromOctetsOf(a);
    assert o == [o[0], o[1], o[2], o[3]];
  }

  /** Only an address's own text reads as that address. */
  lemma ParseAddrCanonical(s: string)
    requires ParseAddr(s).Some?
    ensures s == AddrText(ParseAddr(s).value)
  {
    var p := Split(s, '.');
    forall i | 0 <= i < 4 ensures ParseOctet(p[i]).Some? && p[i] == NatText(ParseOctet(p[i]).value) {
      ParseNatCanonical(p[i]);
    }
    var o := [ParseOctet(p[0]).value, ParseOctet(p[1]).value, ParseOctet(p[2]).value, ParseOctet(p[3]).value];
    OctetsOf(o);
    assert p == [NatText(o[0]), NatText(o[1]), NatText(o[2]), NatText(o[3])];
    JoinSplit(s, '.');
  }

  /** The text of the single-address block of `a`. */
  function HostText(a: Addr): string { AddrText(a) + "/32" }

  lemma AddrTextParts(a: Addr)
    ensures var o := Octets(a);
      AddrText(a) == NatText(o[0]) + "." + (NatText(o[1]) + "." + (NatText(o[2]) + "." + NatText(o[3])))
  {
    var o := Octets(a);
    var p := [NatText(o[0]), NatText(o[1]), NatText(o[2]), NatText(o[3])];
    assert p[3..] == [p[3]];
    assert p[2..][1..] == p[3..];
    assert JoinWith(p[2..], '.') == p[2] + "." + p[3];
    assert p[1..][1..] == p[2..];
    assert JoinWith(p[1..], '.') == p[1] + "." + JoinWith(p[2..], '.');
  }

  lemma HostTextIsWord(a: Addr)
    ensures Word(HostText(a))
  {
    AddrTextParts(a);
    var o := Octets(a);
    forall i | 0 <= i < 4 ensures Word(NatText(o[i])) {}
  }

  /** netip.ParsePrefix restricted to canonical IPv4 /32 blocks. */
  function ParseHost(s: string): (a: Option<Addr>) {
    if |s| >= 3 && s[|s| - 3..] == "/32" then ParseAddr(s[..|s| - 3]) else None
  }

  /** A text reads as a host block exactly when it is that block's text. */
  lemma ParseHostIff(s: string, a: Addr)
    ensures ParseHost(s) == Some(a) <==> s == HostText(a)
  {
    ParseAddrText(a);
    if s == HostText(a) {
      assert s[..|s| - 3] == AddrText(a);
      assert s[|s| - 3..] == "/32";
    }
    if ParseHost(s) == Some(a) {
      ParseAddrCanonical(s[..|s| - 3]);
      assert s == s[..|s| - 3] + s[|s| - 3..];
    }
  }

  /** netip.Addr.IsPrivate: the RFC 1918 blocks. */
  predicate Private(a: Addr) {
    || a / 0x100_0000 == 10
    || a / 0x10_0000 == 0xAC1
    || a / 0x1_0000 == 0xC0A8
  }

  /** A masked block of /30 or wider that starts inside private space has a private first host. */
  lemma FirstHostIsPrivate(base: Addr)
    requires Private(base) && base % 4 == 0
    ensures base + 1 < 0x1_0000_0000 && Private(base + 1)
  {
  }
}
