/** What an accepted firewall state does to packets. The meaning of a chain is
    given by first-match evaluation of its printed rules, independently of how
    the rules were generated or recognised. */
module FirewallMeaning {
  import opened Text
  import opened Address
  import opened FirewallPolicy
  import opened FirewallCheck

  datatype Packet = Packet(iface: string, destination: Addr, protocol: string, sport: nat, dport: nat)

  /** Does the packet meet one option of a rule? Unknown options have no meaning here. */
  function Meets(option: string, value: string, p: Packet): (r: Option<bool>) {
    if option == "-i" then Some(p.iface == value)
    else if option == "-d" then
      (match ParseHost(value) case Some(a) => Some(p.destination == a) case None => None)
    else if option == "-p" then Some(p.protocol == value)
    else if option == "-m" then Some(true)
    else if option == "--sport" then (match ParseNat(value) case Some(n) => Some(p.sport == n) case None => None)
    else if option == "--dport" then (match ParseNat(value) case Some(n) => Some(p.dport == n) case None => None)
    else None
  }

  datatype Effect = Skip | Jump(target: string) | Unknown

  /** The effect of one rule: its options are tested in order, then it jumps. */
  function RuleEffect(a: seq<string>, p: Packet): Effect {
    if |a| < 2 then Unknown
    else if a[0] == "-j" then if |a| == 2 then Jump(a[1]) else Unknown
    else match Meets(a[0], a[1], p)
      case None => Unknown
      case Some(false) => Skip
      case Some(true) => RuleEffect(a[2..], p)
  }

  datatype Verdict = Passed | Dropped | Continue | Undefined

  /** Evaluation of the helper chain of direct rules. */
  function Walk(bodies: seq<string>, p: Packet): Verdict {
    if bodies == [] then Continue
    else match RuleEffect(Fields(bodies[0]), p)
      case Skip => Walk(bodies[1..], p)
      case Jump(target) => if target == "ACCEPT" then Passed else if target == "DROP" then Dropped else Undefined
      case Unknown => Undefined
  }

  /** Evaluation of the INPUT chain, which may jump to the chain of direct rules. */
  function WalkInput(bodies: seq<string>, direct: seq<string>, p: Packet): Verdict {
    if bodies == [] then Continue
    else match RuleEffect(Fields(bodies[0]), p)
      case Skip => WalkInput(bodies[1..], direct, p)
      case Unknown => Undefined
      case Jump(target) =>
        if target == "ACCEPT" then Passed
        else if target == "DROP" then Dropped
        else if target != "INPUT_direct" then Undefined
        else match Walk(direct, p)
          case Continue => WalkInput(bodies[1..], direct, p)
          case v => v
  }

  /** The kernel's listing of both chains, without their declarations: the INPUT
      policy line is "-P INPUT ACCEPT". */
  datatype Listing = Listing(input: seq<string>, direct: seq<string>)

  /** The verdict of the mangle INPUT table, whose policy is ACCEPT. */
  function KernelVerdict(l: Listing, p: Packet): Verdict
    requires AllHaveBody(l.input, "INPUT") && AllHaveBody(l.direct, "INPUT_direct")
  {
    match WalkInput(Bodies(l.input, "INPUT"), Bodies(l.direct, "INPUT_direct"), p)
    case Continue => Passed
    case v => v
  }

  const TRAMPOLINE := "-A INPUT -j INPUT_direct"

  /** protectedKernel, one pass: which listings are accepted for the expected rules. */
  predicate KernelAccepted(l: Listing, expected: map<string, KernelRule>) {
    if l.input == [TRAMPOLINE] then ChainMatches(l.direct, "INPUT_direct", expected)
    else l.direct == [] && ChainMatches(l.input, "INPUT", expected)
  }

  /** One pass over the kernel: the printed lines of both chains, declarations included. */
  datatype Snapshot = Snapshot(input: seq<string>, direct: seq<string>) {
    predicate Trampoline() { |input| == 2 && input[1] == TRAMPOLINE }

    /** The direct chain is read only behind a trampoline. */
    function Read(): Snapshot { if Trampoline() then this else Snapshot(input, []) }

    predicate Declares() {
      |input| > 0 && input[0] == "-P INPUT ACCEPT" && (Trampoline() ==> |direct| > 0 && direct[0] == "-N INPUT_direct")
    }

    function Rules(): Listing
      requires |input| > 0 && (Trampoline() ==> |direct| > 0)
    {
      Listing(input[1..], if Trampoline() then direct[1..] else [])
    }

    predicate Accepted(expected: map<string, KernelRule>) { Declares() && KernelAccepted(Rules(), expected) }
  }

  lemma ExpectedIsUnique(a: map<string, KernelRule>, b: map<string, KernelRule>, lines: set<string>)
    requires forall line :: line in lines ==> LineOk(line)
    requires IsExpected(a, lines) && IsExpected(b, lines)
    ensures a == b
  {
    hide Recognise, Join, Fields, Passthrough, CustomChain;
    forall body | body in a.Keys + b.Keys ensures body in a && body in b && a[body] == b[body] {
      var line :| line in lines && InputLine(line) && RuleOf(line).body == body;
    }
  }

  /** protectedKernel: both passes must show the same accepted chains. */
  method ProtectedKernel(inventory: Inventory, passes: seq<Snapshot>) returns (r: Option<map<string, KernelRule>>)
    requires |passes| == 2 && forall i :: 0 <= i < 2 ==> |passes[i].input| > 0 && |passes[i].direct| > 0
    ensures r.Some? ==> Comparable(inventory) && IsExpected(r.value, inventory.runtime)
    ensures r.Some? ==> passes[0].Read() == passes[1].Read() && passes[1].Accepted(r.value)
    ensures Comparable(inventory) && passes[0].Read() == passes[1].Read() && r.None? ==>
      forall e :: IsExpected(e, inventory.runtime) ==> !passes[0].Accepted(e) || !passes[1].Accepted(e)
  {
    var found := ProtectedKernelExpected(inventory);
    if found.None? { return None; }
    var expected := found.value;
    forall e | IsExpected(e, inventory.runtime) ensures e == expected {
      ExpectedIsUnique(e, expected, inventory.runtime);
    }
    var previous := Snapshot([], []);
    for pass := 0 to 2
      invariant pass > 0 ==> previous == passes[pass - 1].Read()
      invariant forall k :: 0 <= k < pass ==> passes[k].Accepted(expected)
      invariant pass == 2 ==> passes[0].Read() == passes[1].Read()
    {
      var now := passes[pass];
      if now.input[0] != "-P INPUT ACCEPT" { return None; }
      var ok: bool;
      if now.Trampoline() {
        if now.direct[0] != "-N INPUT_direct" { return None; }
        ok := MatchProtectedKernelBody(now.direct[1..], "INPUT_direct", expected);
        assert now.input[1..] == [TRAMPOLINE];
      } else {
        ok := MatchProtectedKernelBody(now.input[1..], "INPUT", expected);
        assert |now.input| == 2 ==> now.input[1..] == [now.input[1]];
      }
      if !ok { return None; }
      var snapshot := now.Read();
      if pass == 1 && snapshot != previous { return None; }
      previous := snapshot;
    }
    return Some(expected);
  }

  lemma RecognisedPriority(line: string)
    requires LineOk(line) && InputLine(line)
    ensures RuleOf(line).priority >= LOWEST
  {
    hide Fields, Join, ParseInt, ParseHost, BridgeName, Private;
  }

  /** What a kernel that mirrors a comparable inventory prints: every such inventory has an acceptable listing. */
  method MirrorKernel(inventory: Inventory) returns (s: Snapshot)
    requires Comparable(inventory)
    ensures |s.input| > 0 && |s.direct| > 0 && forall e :: IsExpected(e, inventory.runtime) ==> s.Accepted(e)
  {
    hide LineOk, InputLine, RuleOf;
    var found := ProtectedKernelExpected(inventory);
    var expected := found.value;
    forall e | IsExpected(e, inventory.runtime) ensures e == expected {
      ExpectedIsUnique(e, expected, inventory.runtime);
    }
    forall body | body in expected ensures expected[body].priority >= LOWEST {
      var line :| line in inventory.runtime && InputLine(line) && RuleOf(line).body == body;
      RecognisedPriority(line);
    }
    var lines := MirrorChain(expected, "INPUT_direct");
    s := Snapshot(["-P INPUT ACCEPT", TRAMPOLINE], ["-N INPUT_direct"] + lines);
    assert s.Rules() == Listing([TRAMPOLINE], lines);
  }

  /** The host services a definition opens to its guests. */
  predicate Declared(d: Definition, p: Packet)
    requires d.Valid() && d.base.Some?
  {
    && d.dhcp
    && (|| (p.protocol == "udp" && p.sport == 68 && p.dport == 67 && p.destination in [BROADCAST, d.Gateway()])
        || (p.protocol in ["udp", "tcp"] && p.dport == 53 && p.destination == d.Gateway()))
  }

  // The effect of recognised rules

  lemma PortTexts()
    ensures ParseNat("67") == Some(67) && ParseNat("68") == Some(68) && ParseNat("53") == Some(53)
  {
    assert NatText(67) == "67" && NatText(68) == "68" && NatText(53) == "53";
    ParseNatText(67);
    ParseNatText(68);
    ParseNatText(53);
  }

  lemma DropEffect(a: seq<string>, p: Packet)
    requires DropRule(DROP_PRIORITY, a)
    ensures RuleEffect(a, p) == if p.iface == a[1] then Jump("DROP") else Skip
  {
    var t := a[2..];
    assert RuleEffect(t, p) == Jump("DROP");
  }

  lemma DhcpEffect(priority: int, a: seq<string>, p: Packet)
    requires DhcpRule(priority, a)
    ensures RuleEffect(a, p) ==
      if p.destination == ParseHost(a[1]).value && p.iface == a[3] && p.protocol == "udp" && p.sport == 68
        && p.dport == 67
      then Jump("ACCEPT") else Skip
  {
    PortTexts();
    var t6, t5, t4, t3, t2, t1 := a[12..], a[10..], a[8..], a[6..], a[4..], a[2..];
    assert RuleEffect(t6, p) == Jump("ACCEPT");
    assert t5[2..] == t6;
    assert RuleEffect(t5, p) == if p.dport == 67 then Jump("ACCEPT") else Skip;
    assert t4[2..] == t5;
    assert RuleEffect(t4, p) == if p.sport == 68 then RuleEffect(t5, p) else Skip;
    assert t3[2..] == t4;
    assert RuleEffect(t3, p) == RuleEffect(t4, p);
    assert t2[2..] == t3;
    assert RuleEffect(t2, p) == if p.protocol == "udp" then RuleEffect(t3, p) else Skip;
    assert t1[2..] == t2;
    assert RuleEffect(t1, p) == if p.iface == a[3] then RuleEffect(t2, p) else Skip;
  }

  lemma DnsEffect(priority: int, a: seq<string>, p: Packet)
    requires DnsRule(priority, a)
    ensures RuleEffect(a, p) ==
      if p.destination == ParseHost(a[1]).value && p.iface == a[3] && p.protocol == a[5] && p.dport == 53
      then Jump("ACCEPT") else Skip
  {
    PortTexts();
    var t5, t4, t3, t2, t1 := a[10..], a[8..], a[6..], a[4..], a[2..];
    assert RuleEffect(t5, p) == Jump("ACCEPT");
    assert t4[2..] == t5;
    assert RuleEffect(t4, p) == if p.dport == 53 then Jump("ACCEPT") else Skip;
    assert t3[2..] == t4;
    assert RuleEffect(t3, p) == RuleEffect(t4, p);
    assert t2[2..] == t3;
    assert RuleEffect(t2, p) == if p.protocol == a[5] then RuleEffect(t3, p) else Skip;
    assert t1[2..] == t2;
    assert RuleEffect(t1, p) == if p.iface == a[3] then RuleEffect(t2, p) else Skip;
  }

  /** The input interface a recognised rule body names. */
  function Iface(a: seq<string>): string
    requires |a| == 4 || |a| == 12 || |a| == 14
  {
    if |a| == 4 then a[1] else a[3]
  }

  lemma RecognisedShape(line: string)
    requires LineOk(line) && InputLine(line)
    ensures var f := Fields(line);
      && |f| >= 4 && Words(f) && f[4..] == Fields(RuleOf(line).body) && (|f| == 8 || |f| == 16 || |f| == 18)
  {
    FieldsAreWords(line);
    FieldsJoin(Fields(line)[4..]);
  }

  function BodyWords(line: string): (a: seq<string>)
    requires LineOk(line) && InputLine(line)
    ensures |a| == 4 || |a| == 12 || |a| == 14
  {
    RecognisedShape(line);
    Fields(RuleOf(line).body)
  }

  /** A recognised rule skips foreign interfaces, and otherwise skips, accepts or is the final drop. */
  lemma RecognisedEffect(line: string, p: Packet)
    requires LineOk(line) && InputLine(line)
    ensures var e := RuleEffect(BodyWords(line), p); var r := RuleOf(line);
      && (p.iface != Iface(BodyWords(line)) ==> e == Skip)
      && e in [Skip, Jump("ACCEPT"), Jump("DROP")]
      && (r.priority < DROP_PRIORITY ==> e != Jump("DROP"))
      && r.priority <= DROP_PRIORITY
  {
    RecognisedShape(line);
    var a, r := BodyWords(line), RuleOf(line);
    if DropRule(r.priority, a) {
      DropEffect(a, p);
    } else if DhcpRule(r.priority, a) {
      DhcpEffect(r.priority, a, p);
    } else {
      DnsEffect(r.priority, a, p);
    }
  }

  // First-match evaluation

  function EffectAt(bodies: seq<string>, i: nat, p: Packet): Effect
    requires i < |bodies|
  {
    RuleEffect(Fields(bodies[i]), p)
  }

  /** Up to the final drop at `d`, the first accept decides; without one the drop does. */
  lemma {:induction false} WalkTo(bodies: seq<string>, d: nat, p: Packet)
    requires d < |bodies| && EffectAt(bodies, d, p) == Jump("DROP")
    requires forall i: nat :: i < d ==> EffectAt(bodies, i, p) in [Skip, Jump("ACCEPT")]
    ensures Walk(bodies, p) == if exists i: nat ::
      i < d && EffectAt(bodies, i, p) == Jump("ACCEPT") then Passed else Dropped
  {
    if d > 0 && EffectAt(bodies, 0, p) == Skip {
      var rest := bodies[1..];
      assert forall i: nat :: i < |rest| ==> EffectAt(rest, i, p) == EffectAt(bodies, i + 1, p);
      WalkTo(rest, d - 1, p);
      if i: nat :| i < d && EffectAt(bodies, i, p) == Jump("ACCEPT") {
        assert EffectAt(rest, i - 1, p) == Jump("ACCEPT");
      }
    }
  }

  lemma {:induction false} WalkSkips(bodies: seq<string>, p: Packet)
    requires forall i: nat :: i < |bodies| ==> EffectAt(bodies, i, p) == Skip
    ensures Walk(bodies, p) == Continue
  {
    if bodies != [] {
      var rest := bodies[1..];
      assert forall i: nat :: i < |rest| ==> EffectAt(rest, i, p) == EffectAt(bodies, i + 1, p);
      assert EffectAt(bodies, 0, p) == Skip;
      WalkSkips(rest, p);
    }
  }

  lemma {:induction false} WalkInputIsWalk(bodies: seq<string>, direct: seq<string>, p: Packet)
    requires forall i: nat :: i < |bodies| ==> EffectAt(bodies, i, p) in [Skip, Jump("ACCEPT"), Jump("DROP")]
    ensures WalkInput(bodies, direct, p) == Walk(bodies, p)
  {
    if bodies != [] {
      var rest := bodies[1..];
      assert forall i: nat :: i < |rest| ==> EffectAt(rest, i, p) == EffectAt(bodies, i + 1, p);
      assert EffectAt(bodies, 0, p) in [Skip, Jump("ACCEPT"), Jump("DROP")];
      WalkInputIsWalk(rest, direct, p);
    }
  }

  // Accepted states

  /** What both checks establish before the helper answers. */
  predicate Accepted(d: Definition, inventory: Inventory, expected: map<string, KernelRule>, l: Listing)
    requires d.Valid()
  {
    && OnlyPolicyOn(d.bridge, Policy(d), inventory)
    && Comparable(inventory)
    && IsExpected(expected, inventory.runtime)
    && KernelAccepted(l, expected)
  }

  predicate AllRuntimePresent(d: Definition, inventory: Inventory)
    requires d.Valid()
  {
    forall i :: 0 <= i < |Runtime(d)| ==> RuleLine(Runtime(d)[i]) in inventory.runtime
  }

  /** The direct rules as the kernel evaluates them, wherever the chain keeps them. */
  function DirectBodies(l: Listing): seq<string>
    requires if l.input == [TRAMPOLINE] then AllHaveBody(l.direct, "INPUT_direct") else AllHaveBody(l.input, "INPUT")
  {
    if l.input == [TRAMPOLINE] then Bodies(l.direct, "INPUT_direct") else Bodies(l.input, "INPUT")
  }

  lemma TrampolineBody()
    ensures HasBody(TRAMPOLINE, "INPUT") && Fields(BodyOf(TRAMPOLINE, "INPUT")) == ["-j", "INPUT_direct"]
  {
    assert ChainPrefix("INPUT") == "-A INPUT ";
    assert BodyOf(TRAMPOLINE, "INPUT") == "-j INPUT_direct";
    var ws := ["-j", "INPUT_direct"];
    assert ws[1..] == ["INPUT_direct"];
    assert Join(ws) == "-j INPUT_direct";
    FieldsJoin(ws);
  }

  lemma {:induction false} EveryBodyHasItsLine(d: Definition, inventory: Inventory, expected: map<string, KernelRule>,
      l: Listing, i: nat)
      returns (line: string)
    requires d.Valid() && Accepted(d, inventory, expected, l) && i < |DirectBodies(l)|
    ensures line in inventory.runtime && InputLine(line) && LineOk(line) && RuleOf(line).body == DirectBodies(l)[i]
    ensures expected[DirectBodies(l)[i]] == RuleOf(line)
  {
    var body := DirectBodies(l)[i];
    assert body in expected;
    line :| line in inventory.runtime && InputLine(line) && RuleOf(line).body == body;
  }

  lemma TrampolineWalk(direct: seq<string>, p: Packet)
    ensures HasBody(TRAMPOLINE, "INPUT")
    ensures WalkInput([BodyOf(TRAMPOLINE, "INPUT")], direct, p) == Walk(direct, p)
  {
    TrampolineBody();
    var bodies := [BodyOf(TRAMPOLINE, "INPUT")];
    assert bodies[1..] == [];
    assert RuleEffect(Fields(bodies[0]), p) == Jump("INPUT_direct");
  }

  lemma InputWalk(d: Definition, inventory: Inventory, expected: map<string, KernelRule>, l: Listing, p: Packet)
    requires d.Valid() && Accepted(d, inventory, expected, l) && l.input != [TRAMPOLINE]
    ensures WalkInput(Bodies(l.input, "INPUT"), [], p) == Walk(Bodies(l.input, "INPUT"), p)
  {
    forall i: nat | i < |l.input|
      ensures EffectAt(Bodies(l.input, "INPUT"), i, p) in [Skip, Jump("ACCEPT"), Jump("DROP")]
    {
      var line := EveryBodyHasItsLine(d, inventory, expected, l, i);
      RecognisedEffect(line, p);
    }
    WalkInputIsWalk(Bodies(l.input, "INPUT"), [], p);
  }

  /** Whether or not the trampoline is used, the verdict is that of the direct rules. */
  lemma VerdictOfDirectRules(d: Definition, inventory: Inventory, expected: map<string, KernelRule>, l: Listing,
      p: Packet)
    requires d.Valid() && Accepted(d, inventory, expected, l)
    ensures AllHaveBody(l.input, "INPUT") && AllHaveBody(l.direct, "INPUT_direct")
    ensures KernelVerdict(l, p) == match Walk(DirectBodies(l), p) case Continue => Passed case v => v
  {
    if l.input == [TRAMPOLINE] {
      TrampolineWalk(DirectBodies(l), p);
      assert Bodies(l.input, "INPUT") == [BodyOf(TRAMPOLINE, "INPUT")];
    } else {
      InputWalk(d, inventory, expected, l, p);
      assert Bodies(l.direct, "INPUT_direct") == [];
    }
  }

  /** Packets from an interface that no rule names always pass. */
  lemma UnnamedInterfacePasses(d: Definition, inventory: Inventory, expected: map<string, KernelRule>, l: Listing,
      p: Packet)
    requires d.Valid() && Accepted(d, inventory, expected, l)
    requires forall line :: line in inventory.runtime && InputLine(line) ==> p.iface !in Fields(line)
    ensures AllHaveBody(l.input, "INPUT") && AllHaveBody(l.direct, "INPUT_direct")
    ensures KernelVerdict(l, p) == Passed
  {
    VerdictOfDirectRules(d, inventory, expected, l, p);
    hide Accepted, DirectBodies;
    forall i: nat | i < |DirectBodies(l)| ensures EffectAt(DirectBodies(l), i, p) == Skip {
      var line := EveryBodyHasItsLine(d, inventory, expected, l, i);
      RecognisedShape(line);
      var f := Fields(line);
      assert Iface(BodyWords(line)) == f[if |f| == 8 then 5 else 7];
      RecognisedEffect(line, p);
    }
    WalkSkips(DirectBodies(l), p);
  }
}
