/** The generated rules are recognised as what they are, and an accepted state
    that holds all of them gives every packet the verdict its definition intends. */
module FirewallTheorem {
  import opened Text
  import opened Address
  import opened FirewallPolicy
  import opened FirewallCheck
  import opened FirewallMeaning

  // The inventory lines of generated rules

  lemma FamilyWords()
    ensures Words(["ipv4", "mangle", "INPUT", "eb", "filter", "-32768"])
  {
  }

  lemma OptionWords()
    ensures Words(["-d", "-i", "-p", "-m", "-j", "--sport", "--dport"])
  {
  }

  lemma ValueWords()
    ensures Words(["udp", "tcp", "68", "67", "53", "ACCEPT", "DROP"])
  {
  }

  lemma DhcpWords(destination: string, bridge: string)
    requires Word(destination) && Word(bridge)
    ensures Words(DhcpBody(destination, bridge))
  {
    hide Word;
    OptionWords();
    ValueWords();
    var o, v :=
      ["-d", "-i", "-p", "-m", "-j", "--sport", "--dport"], ["udp", "tcp", "68", "67", "53", "ACCEPT", "DROP"];
    var a := DhcpBody(destination, bridge);
    assert a == [o[0], destination, o[1], bridge, o[2], v[0], o[3], v[0], o[5], v[2], o[6], v[3], o[4], v[5]];
  }

  lemma DnsWords(destination: string, bridge: string, protocol: string)
    requires Word(destination) && Word(bridge) && Word(protocol)
    ensures Words(DnsBody(destination, bridge, protocol))
  {
    hide Word;
    OptionWords();
    ValueWords();
    var o, v :=
      ["-d", "-i", "-p", "-m", "-j", "--sport", "--dport"], ["udp", "tcp", "68", "67", "53", "ACCEPT", "DROP"];
    var a := DnsBody(destination, bridge, protocol);
    assert a == [o[0], destination, o[1], bridge, o[2], protocol, o[3], protocol, o[6], v[4], o[4], v[5]];
  }

  lemma EbWords(chain: string, direction: string, bridge: string, protocol: string)
    requires Word(chain) && Word(direction) && Word(bridge) && Word(protocol)
    ensures Words(EbFields(chain, direction, bridge, protocol))
  {
    hide Word;
    FamilyWords();
    OptionWords();
    ValueWords();
    var f, o, v :=
      ["ipv4", "mangle", "INPUT", "eb", "filter", "-32768"], ["-d", "-i", "-p", "-m", "-j", "--sport", "--dport"],
      ["udp", "tcp", "68", "67", "53", "ACCEPT", "DROP"];
    assert EbFields(chain, direction, bridge, protocol) ==
      [f[3], f[4], chain, f[5], direction, bridge, o[2], protocol, o[4], v[6]];
  }

  lemma IntTextIsWord(i: int)
    ensures Word(IntText(i))
  {
    var digits := NatText(if i < 0 then -i else i);
    assert Word(digits);
    if i < 0 { assert IntText(i) == "-" + digits; }
  }

  lemma BridgeIsWord(bridge: string)
    requires BridgeName(bridge)
    ensures Word(bridge)
  {
    assert bridge[0] == bridge[..2][0] && bridge[1] == bridge[..2][1];
  }

  function MangleFields(priority: int, body: seq<string>): seq<string> {
    ["ipv4", "mangle", "INPUT", IntText(priority)] + body
  }

  lemma LineStartsAtFamily(x: string, y: string, line: seq<string>)
    requires x !in ["eb", "ipv4", "ipv6"] && y !in ["eb", "ipv4", "ipv6"]
    requires line != [] && line[0] in ["eb", "ipv4", "ipv6"]
    ensures RuleLine([x, y] + line) == Join(line)
  {
    var tail := [y] + line;
    assert tail[1..] == line;
    assert RuleLine(tail) == RuleLine(line) == Join(line);
    assert ([x, y] + line)[1..] == tail;
  }

  lemma MangleLine(priority: int, body: seq<string>)
    ensures RuleLine(MangleArgs(priority, body)) == Join(MangleFields(priority, body))
  {
    var line := MangleFields(priority, body);
    assert MangleArgs(priority, body) == ["--direct", "--add-rule"] + line;
    LineStartsAtFamily("--direct", "--add-rule", line);
  }

  lemma MangleLineFields(priority: int, body: seq<string>)
    requires Words(body)
    ensures Fields(RuleLine(MangleArgs(priority, body))) == MangleFields(priority, body)
  {
    MangleLine(priority, body);
    IntTextIsWord(priority);
    FieldsJoin(MangleFields(priority, body));
  }

  function EbFields(chain: string, direction: string, bridge: string, protocol: string): seq<string> {
    ["eb", "filter", chain, "-32768", direction, bridge, "-p", protocol, "-j", "DROP"]
  }

  lemma EbLineFields(chain: string, direction: string, bridge: string, protocol: string)
    requires Word(chain) && Word(direction) && BridgeName(bridge) && Word(protocol)
    ensures Fields(RuleLine(EbArgs(chain, direction, bridge, protocol))) == EbFields(chain, direction, bridge, protocol)
    ensures !InputLine(RuleLine(EbArgs(chain, direction, bridge, protocol)))
  {
    var line := EbFields(chain, direction, bridge, protocol);
    assert EbArgs(chain, direction, bridge, protocol) == ["--direct", "--add-rule"] + line;
    LineStartsAtFamily("--direct", "--add-rule", line);
    hide Word, RuleLine, Join, Fields, BridgeName;
    BridgeIsWord(bridge);
    EbWords(chain, direction, bridge, protocol);
    FieldsJoin(line);
  }

  lemma PermanentLine(args: Args)
    ensures RuleLine(["--permanent"] + args) == RuleLine(args)
  {
    assert (["--permanent"] + args)[1..] == args;
  }

  /** One service rule: its priority and body. */
  datatype Service = Service(priority: int, body: seq<string>)

  function Services(d: Definition): seq<Service>
    requires d.Valid() && d.base.Some?
  {
    var gateway := HostText(d.Gateway());
    (if d.dhcp then
       [Service(-32767, DhcpBody(HostText(BROADCAST), d.bridge)), Service(-32766, DhcpBody(gateway, d.bridge)),
        Service(-32765, DnsBody(gateway, d.bridge, "udp")), Service(-32764, DnsBody(gateway, d.bridge, "tcp"))]
     else []) + [Service(DROP_PRIORITY, DropBody(d.bridge))]
  }

  function ServiceLine(s: Service): string { RuleLine(MangleArgs(s.priority, s.body)) }

  lemma ServiceArgs(d: Definition)
    requires d.Valid() && d.kind != "guest-only"
    ensures |ServiceRuntime(d)| == |Services(d)|
    ensures forall i ::
      0 <= i < |Services(d)| ==> ServiceRuntime(d)[i] == MangleArgs(Services(d)[i].priority, Services(d)[i].body)
  {
  }

  predicate Recognised(s: Service) {
    && Words(s.body)
    && Fields(ServiceLine(s)) == MangleFields(s.priority, s.body)
    && ServiceLine(s) == Join(Fields(ServiceLine(s)))
    && Recognise(Fields(ServiceLine(s))) == Some(KernelRule(s.priority, Join(s.body)))
  }

  lemma RecognisedFrom(s: Service)
    requires Words(s.body)
    requires DropRule(s.priority, s.body) || DhcpRule(s.priority, s.body) || DnsRule(s.priority, s.body)
    ensures Recognised(s)
  {
    MangleLine(s.priority, s.body);
    MangleLineFields(s.priority, s.body);
    ParseIntText(s.priority);
    var f := MangleFields(s.priority, s.body);
    assert f[4..] == s.body && f[3] == IntText(s.priority);
  }

  lemma DropIsRecognised(bridge: string)
    requires BridgeName(bridge)
    ensures Recognised(Service(DROP_PRIORITY, DropBody(bridge)))
  {
    BridgeIsWord(bridge);
    RecognisedFrom(Service(DROP_PRIORITY, DropBody(bridge)));
  }

  lemma DhcpIsRecognised(priority: int, destination: Addr, bridge: string)
    requires BridgeName(bridge)
    requires (priority == -32767 && destination == BROADCAST) || (priority == -32766 && Private(destination))
    ensures DhcpRule(priority, DhcpBody(HostText(destination), bridge))
    ensures Recognised(Service(priority, DhcpBody(HostText(destination), bridge)))
  {
    BridgeIsWord(bridge);
    HostTextIsWord(destination);
    ParseHostIff(HostText(destination), destination);
    BroadcastText();
    DhcpWords(HostText(destination), bridge);
    hide Word, HostText, ParseHost, BridgeName, Recognised;
    RecognisedFrom(Service(priority, DhcpBody(HostText(destination), bridge)));
  }

  lemma DnsIsARule(priority: int, destination: Addr, bridge: string, protocol: string)
    requires BridgeName(bridge) && Private(destination)
    requires (priority == -32765 && protocol == "udp") || (priority == -32764 && protocol == "tcp")
    ensures DnsRule(priority, DnsBody(HostText(destination), bridge, protocol))
    ensures Words(DnsBody(HostText(destination), bridge, protocol))
  {
    hide Word, HostText, ParseHost, BridgeName, Recognised;
    BridgeIsWord(bridge);
    HostTextIsWord(destination);
    ParseHostIff(HostText(destination), destination);
    ProtocolIsWord(protocol);
    DnsWords(HostText(destination), bridge, protocol);
  }

  lemma ProtocolIsWord(protocol: string)
    requires protocol == "udp" || protocol == "tcp"
    ensures Word(protocol)
  {
  }

  lemma DnsIsRecognised(priority: int, destination: Addr, bridge: string, protocol: string)
    requires BridgeName(bridge) && Private(destination)
    requires (priority == -32765 && protocol == "udp") || (priority == -32764 && protocol == "tcp")
    ensures DnsRule(priority, DnsBody(HostText(destination), bridge, protocol))
    ensures Recognised(Service(priority, DnsBody(HostText(destination), bridge, protocol)))
  {
    hide Recognised, DnsRule, DnsBody, HostText, Word, Words, DropRule, DhcpRule;
    DnsIsARule(priority, destination, bridge, protocol);
    RecognisedFrom(Service(priority, DnsBody(HostText(destination), bridge, protocol)));
  }

  /** Every service rule a definition generates is recognised with its own priority and body. */
  lemma GeneratedRulesAreRecognised(d: Definition)
    requires d.Valid() && d.kind != "guest-only"
    ensures forall i :: 0 <= i < |Services(d)| ==> Recognised(Services(d)[i])
  {
    hide Recognised, DhcpBody, DnsBody, DropBody, HostText, DhcpRule, DnsRule;
    DropIsRecognised(d.bridge);
    if d.dhcp {
      FirstHostIsPrivate(d.base.value);
      DhcpIsRecognised(-32767, BROADCAST, d.bridge);
      DhcpIsRecognised(-32766, d.Gateway(), d.bridge);
      DnsIsRecognised(-32765, d.Gateway(), d.bridge, "udp");
      DnsIsRecognised(-32764, d.Gateway(), d.bridge, "tcp");
    }
  }

  /** The only mangle INPUT lines among a definition's rules are its service lines. */
  lemma PolicyInputLines(d: Definition, line: string)
    requires d.Valid() && d.PolicyVersion() == 2 && line in RuleLines(Policy(d)) && InputLine(line)
    ensures d.kind != "guest-only" && exists i :: 0 <= i < |Services(d)| && line == ServiceLine(Services(d)[i])
  {
    var runtime := Runtime(d);
    var k :| 0 <= k < |Policy(d)| && RuleLine(Policy(d)[k]) == line;
    var i := if k < |runtime| then k else k - |runtime|;
    if k >= |runtime| { PermanentLine(runtime[i]); }
    assert line == RuleLine(runtime[i]);
    RuntimeParts(d, i);
    BridgeLines(d.bridge);
  }

  lemma RuntimeParts(d: Definition, i: nat)
    requires d.Valid() && d.PolicyVersion() == 2 && i < |Runtime(d)|
    ensures i < 4 ==> Runtime(d)[i] == LegacyRuntime(d.bridge)[i]
    ensures i >= 4 && d.kind == "guest-only" ==> i < 8 && Runtime(d)[i] == GuestOnlyRuntime(d.bridge)[i - 4]
    ensures i >= 4 && d.kind != "guest-only" ==>
      i - 4 < |Services(d)| && Runtime(d)[i] == MangleArgs(Services(d)[i - 4].priority, Services(d)[i - 4].body)
  {
    hide EbArgs, MangleArgs;
    if d.kind != "guest-only" { ServiceArgs(d); }
  }

  lemma BridgeLines(bridge: string)
    requires BridgeName(bridge)
    ensures forall i ::
      0 <= i < 4 ==> !InputLine(RuleLine(LegacyRuntime(bridge)[i])) && !InputLine(RuleLine(GuestOnlyRuntime(bridge)[i]))
  {
    hide InputLine, RuleLine, EbArgs, EbFields, Word;
    DirectionWords();
    EbLineFields("INPUT", "--logical-in", bridge, "IPv6");
    EbLineFields("OUTPUT", "--logical-out", bridge, "IPv6");
    EbLineFields("FORWARD", "--logical-in", bridge, "IPv6");
    EbLineFields("FORWARD", "--logical-out", bridge, "IPv6");
    EbLineFields("INPUT", "--logical-in", bridge, "IPv4");
    EbLineFields("INPUT", "--logical-in", bridge, "ARP");
    EbLineFields("OUTPUT", "--logical-out", bridge, "IPv4");
    EbLineFields("OUTPUT", "--logical-out", bridge, "ARP");
  }

  lemma DirectionWords()
    ensures Word("INPUT") && Word("OUTPUT") && Word("FORWARD") && Word("--logical-in") && Word("--logical-out")
    ensures Word("IPv6") && Word("IPv4") && Word("ARP")
  {
  }

  // The effect of the bridge rules

  /** A frame at one of the bridge's filter chains: where it came in, where it goes out, and its protocol. */
  datatype Frame = Frame(chain: string, inBridge: string, outBridge: string, protocol: string)

  /** The frames one generated bridge rule drops. */
  predicate DropsFrame(args: Args, f: Frame) {
    && |args| == 12 && args[..6] == ["--direct", "--add-rule", "eb", "filter", f.chain, "-32768"]
    && (args[6..8] == ["--logical-in", f.inBridge] || args[6..8] == ["--logical-out", f.outBridge])
    && args[8..] == ["-p", f.protocol, "-j", "DROP"]
  }

  /** No IPv6 enters, leaves or crosses a managed bridge; between a guest-only bridge and the host there is no IPv4 or
      ARP either. */
  predicate Severed(d: Definition, f: Frame) {
    && (f.protocol == "IPv6" || (d.kind == "guest-only" && f.protocol in ["IPv4", "ARP"]))
    && ((f.chain == "INPUT" && f.inBridge == d.bridge) || (f.chain == "OUTPUT" && f.outBridge == d.bridge)
      || (f.protocol == "IPv6" && f.chain == "FORWARD" && (f.inBridge == d.bridge || f.outBridge == d.bridge)))
  }

  lemma EbDropsFrame(chain: string, direction: string, bridge: string, protocol: string, f: Frame)
    requires direction in ["--logical-in", "--logical-out"]
    ensures DropsFrame(EbArgs(chain, direction, bridge, protocol), f) <==>
      f.chain == chain && f.protocol == protocol
      && bridge == (if direction == "--logical-in" then f.inBridge else f.outBridge)
  {
    var args := EbArgs(chain, direction, bridge, protocol);
    assert args[4] == chain && args[6] == direction && args[7] == bridge && args[9] == protocol;
    assert args[6..8] == [direction, bridge];
    assert args[8..] == ["-p", protocol, "-j", "DROP"];
    assert args[..6] == ["--direct", "--add-rule", "eb", "filter", chain, "-32768"];
  }

  lemma MangleDropsNoFrame(priority: int, body: seq<string>, f: Frame)
    ensures !DropsFrame(MangleArgs(priority, body), f)
  {
    var args := MangleArgs(priority, body);
    assert args[2] == "ipv4";
    assert |args| == 12 ==> args[..6][2] == "ipv4";
  }

  /** The run-time rules drop exactly the frames the definition severs. */
  lemma BridgeRulesMeanTheirDefinition(d: Definition, f: Frame)
    requires d.Valid()
    ensures (exists i :: 0 <= i < |Runtime(d)| && DropsFrame(Runtime(d)[i], f)) <==> Severed(d, f)
  {
    var legacy, guests := LegacyRuntime(d.bridge), GuestOnlyRuntime(d.bridge);
    LegacyDrops(d.bridge, f);
    GuestOnlyDrops(d.bridge, f);
    hide EbArgs, MangleArgs, DropsFrame, LegacyRuntime, GuestOnlyRuntime;
    if d.kind != "guest-only" {
      ServiceArgs(d);
      forall i | 0 <= i < |ServiceRuntime(d)| ensures !DropsFrame(ServiceRuntime(d)[i], f) {
        MangleDropsNoFrame(Services(d)[i].priority, Services(d)[i].body, f);
      }
    }
    var more := Runtime(d)[4..];
    assert Runtime(d) == legacy + more;
    assert d.kind == "guest-only" ==> more == guests;
    assert d.kind != "guest-only" ==> forall i :: 0 <= i < |more| ==> !DropsFrame(more[i], f);
    DropsSplit(legacy, more, f);
  }

  lemma DropsSplit(a: seq<Args>, b: seq<Args>, f: Frame)
    ensures (exists i :: 0 <= i < |a + b| && DropsFrame((a + b)[i], f)) <==>
      (exists i :: 0 <= i < |a| && DropsFrame(a[i], f)) || (exists i :: 0 <= i < |b| && DropsFrame(b[i], f))
  {
    hide DropsFrame;
    if i :| 0 <= i < |a| && DropsFrame(a[i], f) { assert DropsFrame((a + b)[i], f); }
    if i :| 0 <= i < |b| && DropsFrame(b[i], f) { assert DropsFrame((a + b)[|a| + i], f); }
  }

  lemma LegacyDrops(bridge: string, f: Frame)
    ensures |LegacyRuntime(bridge)| == 4
    ensures (exists i :: 0 <= i < 4 && DropsFrame(LegacyRuntime(bridge)[i], f)) <==>
      f.protocol == "IPv6"
      && ((f.chain in ["INPUT", "FORWARD"] && f.inBridge == bridge)
        || (f.chain in ["OUTPUT", "FORWARD"] && f.outBridge == bridge))
  {
    hide EbArgs, DropsFrame;
    EbDropsFrame("INPUT", "--logical-in", bridge, "IPv6", f);
    EbDropsFrame("OUTPUT", "--logical-out", bridge, "IPv6", f);
    EbDropsFrame("FORWARD", "--logical-in", bridge, "IPv6", f);
    EbDropsFrame("FORWARD", "--logical-out", bridge, "IPv6", f);
    FourOf(LegacyRuntime(bridge), f);
  }

  lemma FourOf(rules: seq<Args>, f: Frame)
    requires |rules| == 4
    ensures (exists i :: 0 <= i < 4 && DropsFrame(rules[i], f)) <==>
      DropsFrame(rules[0], f) || DropsFrame(rules[1], f) || DropsFrame(rules[2], f) || DropsFrame(rules[3], f)
  {
    hide DropsFrame;
  }

  lemma GuestOnlyDrops(bridge: string, f: Frame)
    ensures |GuestOnlyRuntime(bridge)| == 4
    ensures (exists i :: 0 <= i < 4 && DropsFrame(GuestOnlyRuntime(bridge)[i], f)) <==>
      f.protocol in ["IPv4", "ARP"]
      && ((f.chain == "INPUT" && f.inBridge == bridge) || (f.chain == "OUTPUT" && f.outBridge == bridge))
  {
    hide EbArgs, DropsFrame;
    EbDropsFrame("INPUT", "--logical-in", bridge, "IPv4", f);
    EbDropsFrame("INPUT", "--logical-in", bridge, "ARP", f);
    EbDropsFrame("OUTPUT", "--logical-out", bridge, "IPv4", f);
    EbDropsFrame("OUTPUT", "--logical-out", bridge, "ARP", f);
    FourOf(GuestOnlyRuntime(bridge), f);
  }

  // The effect of the service rules

  predicate ServiceAccepts(s: Service, p: Packet) { RuleEffect(s.body, p) == Jump("ACCEPT") }

  lemma DhcpMeaning(priority: int, destination: Addr, bridge: string, p: Packet)
    requires BridgeName(bridge) && p.iface == bridge
    requires (priority == -32767 && destination == BROADCAST) || (priority == -32766 && Private(destination))
    ensures ServiceAccepts(Service(priority, DhcpBody(HostText(destination), bridge)), p) <==>
      p.protocol == "udp" && p.sport == 68 && p.dport == 67 && p.destination == destination
  {
    DhcpIsRecognised(priority, destination, bridge);
    ParseHostIff(HostText(destination), destination);
    DhcpEffect(priority, DhcpBody(HostText(destination), bridge), p);
  }

  lemma DnsMeaning(priority: int, destination: Addr, bridge: string, protocol: string, p: Packet)
    requires BridgeName(bridge) && Private(destination) && p.iface == bridge
    requires (priority == -32765 && protocol == "udp") || (priority == -32764 && protocol == "tcp")
    ensures ServiceAccepts(Service(priority, DnsBody(HostText(destination), bridge, protocol)), p) <==>
      p.protocol == protocol && p.dport == 53 && p.destination == destination
  {
    DnsIsRecognised(priority, destination, bridge, protocol);
    ParseHostIff(HostText(destination), destination);
    DnsEffect(priority, DnsBody(HostText(destination), bridge, protocol), p);
  }

  /** On the bridge, the accepting rules together cover exactly the declared services. */
  lemma ServicesCoverDeclared(d: Definition, p: Packet)
    requires d.Valid() && d.kind != "guest-only" && p.iface == d.bridge
    ensures Declared(d, p) <==>
      exists i :: 0 <= i < |Services(d)| && Services(d)[i].priority < DROP_PRIORITY && ServiceAccepts(Services(d)[i], p)
  {
    hide ServiceAccepts, DhcpBody, DnsBody, DropBody, HostText;
    if d.dhcp {
      FirstHostIsPrivate(d.base.value);
      DhcpMeaning(-32767, BROADCAST, d.bridge, p);
      DhcpMeaning(-32766, d.Gateway(), d.bridge, p);
      DnsMeaning(-32765, d.Gateway(), d.bridge, "udp", p);
      DnsMeaning(-32764, d.Gateway(), d.bridge, "tcp", p);
      assert Declared(d, p) <==> exists i :: 0 <= i < 4 && ServiceAccepts(Services(d)[i], p) by {
        if Declared(d, p) {
          assert ServiceAccepts(Services(d)[0], p) || ServiceAccepts(Services(d)[1], p)
              || ServiceAccepts(Services(d)[2], p) || ServiceAccepts(Services(d)[3], p);
        }
      }
    }
  }

  /** A recognised rule for the selected bridge is one of its own service rules. */
  lemma BridgeRuleIsService(d: Definition, inventory: Inventory, line: string) returns (i: nat)
    requires d.Valid() && d.PolicyVersion() == 2 && OnlyPolicyOn(d.bridge, Policy(d), inventory)
    requires line in inventory.All() && LineOk(line) && InputLine(line) && Iface(BodyWords(line)) == d.bridge
    ensures d.kind != "guest-only" && i < |Services(d)| && line == ServiceLine(Services(d)[i])
    ensures RuleOf(line) == KernelRule(Services(d)[i].priority, Join(Services(d)[i].body))
      && BodyWords(line) == Services(d)[i].body
  {
    RecognisedShape(line);
    var f := Fields(line);
    var at := if |f| == 8 then 1 else 3;
    assert f[4..][at] == d.bridge;
    assert Concerns(line, d.bridge);
    PolicyInputLines(d, line);
    i :| 0 <= i < |Services(d)| && line == ServiceLine(Services(d)[i]);
    GeneratedRulesAreRecognised(d);
    FieldsJoin(Services(d)[i].body);
  }

  /** A guest-only bridge is protected at the bridge layer: its packets meet no mangle INPUT rule. */
  lemma GuestOnlyMeetsNoInputRule(d: Definition, inventory: Inventory, expected: map<string, KernelRule>, l: Listing,
      p: Packet)
    requires d.Valid() && d.kind == "guest-only" && Accepted(d, inventory, expected, l) && p.iface == d.bridge
    ensures AllHaveBody(l.input, "INPUT") && AllHaveBody(l.direct, "INPUT_direct")
    ensures forall i: nat :: i < |DirectBodies(l)| ==> EffectAt(DirectBodies(l), i, p) == Skip
    ensures KernelVerdict(l, p) == Passed
  {
    VerdictOfDirectRules(d, inventory, expected, l, p);
    forall i: nat | i < |DirectBodies(l)| ensures EffectAt(DirectBodies(l), i, p) == Skip {
      var line := EveryBodyHasItsLine(d, inventory, expected, l, i);
      RecognisedEffect(line, p);
      if Iface(BodyWords(line)) == d.bridge {
        var _ := BridgeRuleIsService(d, inventory, line);
      }
    }
    WalkSkips(DirectBodies(l), p);
  }

  /** Where a present service rule stands in the chain. */
  lemma ServicePosition(d: Definition, inventory: Inventory, expected: map<string, KernelRule>, l: Listing, k: nat)
    returns (i: nat)
    requires d.Valid() && d.PolicyVersion() == 2 && d.kind != "guest-only"
    requires Accepted(d, inventory, expected, l) && AllRuntimePresent(d, inventory) && k < |Services(d)|
    ensures i < |DirectBodies(l)| && DirectBodies(l)[i] == Join(Services(d)[k].body)
    ensures Join(Services(d)[k].body) in expected
      && expected[Join(Services(d)[k].body)].priority == Services(d)[k].priority
    ensures Fields(Join(Services(d)[k].body)) == Services(d)[k].body
  {
    var s := Services(d)[k];
    GeneratedRulesAreRecognised(d);
    ServiceArgs(d);
    assert Runtime(d)[4 + k] == ServiceRuntime(d)[k];
    var line := ServiceLine(s);
    assert line in inventory.runtime;
    assert InputLine(line) && RuleOf(line) == KernelRule(s.priority, Join(s.body));
    FieldsJoin(s.body);
    assert Join(s.body) in DirectBodies(l);
    i :| 0 <= i < |DirectBodies(l)| && DirectBodies(l)[i] == Join(s.body);
  }

  /** Before the bridge's own drop, packets from the bridge are skipped or accepted as a declared service. */
  lemma BeforeTheDrop(d: Definition, inventory: Inventory, expected: map<string, KernelRule>, l: Listing, p: Packet,
      last: nat, i: nat)
    requires d.Valid() && d.PolicyVersion() == 2 && d.kind != "guest-only" && p.iface == d.bridge
    requires Accepted(d, inventory, expected, l) && i < last < |DirectBodies(l)|
    requires DirectBodies(l)[last] == Join(DropBody(d.bridge))
    ensures EffectAt(DirectBodies(l), i, p) in [Skip, Jump("ACCEPT")]
    ensures EffectAt(DirectBodies(l), i, p) == Jump("ACCEPT") ==> Declared(d, p)
  {
    var line := EveryBodyHasItsLine(d, inventory, expected, l, i);
    RecognisedEffect(line, p);
    if Iface(BodyWords(line)) == d.bridge {
      var k := BridgeRuleIsService(d, inventory, line);
      assert DirectBodies(l)[i] != DirectBodies(l)[last];
      NotTheDrop(d, k);
      ServicesCoverDeclared(d, p);
    }
  }

  lemma NotTheDrop(d: Definition, k: nat)
    requires d.Valid() && d.kind != "guest-only" && k < |Services(d)|
    requires Join(Services(d)[k].body) != Join(DropBody(d.bridge))
    ensures Services(d)[k].priority < DROP_PRIORITY
  {
  }

  /** In an accepted chain a rule of smaller priority stands first. */
  lemma PriorityOrdersTheChain(d: Definition, inventory: Inventory, expected: map<string, KernelRule>, l: Listing,
      i: nat, j: nat)
    requires d.Valid() && Accepted(d, inventory, expected, l) && i < |DirectBodies(l)| && j < |DirectBodies(l)|
    ensures DirectBodies(l)[i] in expected && DirectBodies(l)[j] in expected
    ensures expected[DirectBodies(l)[i]].priority < expected[DirectBodies(l)[j]].priority ==> i < j
  {
    hide OnlyPolicyOn, Comparable, IsExpected;
  }

  lemma DropPosition(d: Definition, inventory: Inventory, expected: map<string, KernelRule>, l: Listing, p: Packet)
    returns (last: nat)
    requires d.Valid() && d.PolicyVersion() == 2 && d.kind != "guest-only" && p.iface == d.bridge
    requires Accepted(d, inventory, expected, l) && AllRuntimePresent(d, inventory)
    ensures last < |DirectBodies(l)| && DirectBodies(l)[last] == Join(DropBody(d.bridge))
      && EffectAt(DirectBodies(l), last, p) == Jump("DROP")
    ensures DirectBodies(l)[last] in expected && expected[DirectBodies(l)[last]].priority == DROP_PRIORITY
  {
    DropIsRecognised(d.bridge);
    DropEffect(DropBody(d.bridge), p);
    var k := |Services(d)| - 1;
    assert Services(d)[k] == Service(DROP_PRIORITY, DropBody(d.bridge));
    hide Services, Accepted, DirectBodies, DropBody;
    last := ServicePosition(d, inventory, expected, l, k);
  }

  /** A declared service is accepted by a rule that stands before the bridge's drop. */
  lemma DeclaredIsAcceptedFirst(d: Definition, inventory: Inventory, expected: map<string, KernelRule>, l: Listing,
      p: Packet, last: nat)
    returns (i: nat)
    requires d.Valid() && d.PolicyVersion() == 2 && d.kind != "guest-only" && p.iface == d.bridge && Declared(d, p)
    requires Accepted(d, inventory, expected, l) && AllRuntimePresent(d, inventory)
    requires last < |DirectBodies(l)| && DirectBodies(l)[last] in expected
      && expected[DirectBodies(l)[last]].priority == DROP_PRIORITY
    ensures i < last && EffectAt(DirectBodies(l), i, p) == Jump("ACCEPT")
  {
    ServicesCoverDeclared(d, p);
    hide Declared, Services, Accepted, DirectBodies;
    var k :| 0 <= k < |Services(d)| && Services(d)[k].priority < DROP_PRIORITY && ServiceAccepts(Services(d)[k], p);
    i := ServicePosition(d, inventory, expected, l, k);
    PriorityOrdersTheChain(d, inventory, expected, l, i, last);
  }

  /** The meaning of an accepted state: every packet from the selected bridge to the host passes
      exactly when the definition declares its service, and is dropped otherwise, however the
      rules of other managed bridges interleave. */
  lemma AcceptedPolicyMeansItsDefinition(d: Definition, inventory: Inventory, expected: map<string, KernelRule>,
      l: Listing, p: Packet)
    requires d.Valid() && d.Protected() && d.kind != "guest-only" && p.iface == d.bridge
    requires Accepted(d, inventory, expected, l) && AllRuntimePresent(d, inventory)
    ensures AllHaveBody(l.input, "INPUT") && AllHaveBody(l.direct, "INPUT_direct")
    ensures KernelVerdict(l, p) == if Declared(d, p) then Passed else Dropped
  {
    VerdictOfDirectRules(d, inventory, expected, l, p);
    hide Declared, Services, Accepted, DirectBodies, DropBody, BridgeName;
    var last := DropPosition(d, inventory, expected, l, p);
    var bodies := DirectBodies(l);
    forall i: nat | i < last
      ensures EffectAt(bodies, i, p) in [Skip, Jump("ACCEPT")]
      ensures EffectAt(bodies, i, p) == Jump("ACCEPT") ==> Declared(d, p)
    {
      BeforeTheDrop(d, inventory, expected, l, p, last, i);
    }
    if Declared(d, p) {
      var i := DeclaredIsAcceptedFirst(d, inventory, expected, l, p, last);
      assert EffectAt(bodies, i, p) == Jump("ACCEPT");
    }
    WalkTo(bodies, last, p);
  }

  /** An open definition has no mangle INPUT rule of its own. */
  lemma OpenDefinitionHasNoInputRule(d: Definition, line: string)
    requires d.Valid() && d.Open() && line in RuleLines(Policy(d))
    ensures !InputLine(line)
  {
    hide EbArgs, RuleLine, InputLine;
    var runtime := Runtime(d);
    assert runtime == LegacyRuntime(d.bridge);
    var k :| 0 <= k < |Policy(d)| && RuleLine(Policy(d)[k]) == line;
    var i := if k < |runtime| then k else k - |runtime|;
    if k >= |runtime| { PermanentLine(runtime[i]); }
    assert line == RuleLine(runtime[i]);
    BridgeLines(d.bridge);
  }

  /** On an open bridge every packet passes, whatever the other managed bridges do. */
  lemma OpenBridgePasses(d: Definition, inventory: Inventory, expected: map<string, KernelRule>, l: Listing, p: Packet)
    requires d.Valid() && d.Open() && Accepted(d, inventory, expected, l) && p.iface == d.bridge
    ensures AllHaveBody(l.input, "INPUT") && AllHaveBody(l.direct, "INPUT_direct")
    ensures KernelVerdict(l, p) == Passed
  {
    hide Policy;
    VerdictOfDirectRules(d, inventory, expected, l, p);
    forall i: nat | i < |DirectBodies(l)| ensures EffectAt(DirectBodies(l), i, p) == Skip {
      var line := EveryBodyHasItsLine(d, inventory, expected, l, i);
      RecognisedEffect(line, p);
      if Iface(BodyWords(line)) == d.bridge {
        RecognisedShape(line);
        var f := Fields(line);
        var at := if |f| == 8 then 1 else 3;
        assert f[4..][at] == d.bridge;
        assert Concerns(line, d.bridge);
        OpenDefinitionHasNoInputRule(d, line);
      }
    }
    WalkSkips(DirectBodies(l), p);
  }

  /** What a protected definition intends for a packet from its bridge to the host. */
  predicate Intended(d: Definition, p: Packet)
    requires d.Valid() && d.Protected()
  {
    d.kind == "guest-only" || Declared(d, p)
  }

  /** What the kernel printed gives every packet from the bridge the intended verdict. */
  ghost predicate Enforces(kernel: Snapshot, d: Definition)
    requires d.Valid() && d.Protected()
  {
    && kernel.Declares()
    && var l := kernel.Rules();
    && AllHaveBody(l.input, "INPUT") && AllHaveBody(l.direct, "INPUT_direct")
    && forall p: Packet :: p.iface == d.bridge ==> KernelVerdict(l, p) == if Intended(d, p) then Passed else Dropped
  }

  /** What the kernel printed is acceptable for an inventory. */
  ghost predicate Shows(kernel: Snapshot, inventory: Inventory)
    requires Comparable(inventory)
  {
    exists expected :: IsExpected(expected, inventory.runtime) && kernel.Accepted(expected)
  }

  /** An accepted kernel for an inventory with all policy rules enforces the definition. */
  lemma AcceptedKernelEnforces(d: Definition, inventory: Inventory, kernel: Snapshot)
    requires d.Valid() && d.Protected() && OnlyPolicyOn(d.bridge, Policy(d), inventory)
    requires Comparable(inventory) && Shows(kernel, inventory) && AllRuntimePresent(d, inventory)
    ensures Enforces(kernel, d)
  {
    hide Policy, Runtime, OnlyPolicyOn, LineOk, KernelAccepted, Declared, IsExpected;
    var expected :| IsExpected(expected, inventory.runtime) && kernel.Accepted(expected);
    var l := kernel.Rules();
    assert Accepted(d, inventory, expected, l);
    VerdictOfDirectRules(d, inventory, expected, l, Packet(d.bridge, BROADCAST, "", 0, 0));
    forall p: Packet | p.iface == d.bridge ensures KernelVerdict(l, p) == if Intended(d, p) then Passed else Dropped {
      if d.kind == "guest-only" {
        GuestOnlyMeetsNoInputRule(d, inventory, expected, l, p);
      } else {
        AcceptedPolicyMeansItsDefinition(d, inventory, expected, l, p);
      }
    }
  }
}
