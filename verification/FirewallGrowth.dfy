/** Adding a definition's own rules, one at a time, never spoils a firewall state
    that the checks accept, and no rule of a definition repeats another. */
module FirewallGrowth {
  import opened Text
  import opened Address
  import opened FirewallPolicy
  import opened FirewallCheck
  import opened FirewallMeaning
  import opened FirewallTheorem

  function LegacyFields(bridge: string): seq<seq<string>> {
    [EbFields("INPUT", "--logical-in", bridge, "IPv6"), EbFields("OUTPUT", "--logical-out", bridge, "IPv6"),
     EbFields("FORWARD", "--logical-in", bridge, "IPv6"), EbFields("FORWARD", "--logical-out", bridge, "IPv6")]
  }

  function GuestOnlyFields(bridge: string): seq<seq<string>> {
    [EbFields("INPUT", "--logical-in", bridge, "IPv4"), EbFields("INPUT", "--logical-in", bridge, "ARP"),
     EbFields("OUTPUT", "--logical-out", bridge, "IPv4"), EbFields("OUTPUT", "--logical-out", bridge, "ARP")]
  }

  lemma BridgeFields(bridge: string)
    requires BridgeName(bridge)
    ensures forall i :: 0 <= i < 4 ==> Fields(RuleLine(LegacyRuntime(bridge)[i])) == LegacyFields(bridge)[i]
    ensures forall i :: 0 <= i < 4 ==> Fields(RuleLine(GuestOnlyRuntime(bridge)[i])) == GuestOnlyFields(bridge)[i]
  {
    hide InputLine, RuleLine, EbArgs, EbFields, Word;
    DirectionWords();
    EbLineFields("INPUT", "--logical-in", bridge, "IPv6");
    EbLineFields("OUTPUT", "--logical-out", bridge, "IPv6");
    EbLineFields("FORWARD", "--logical-in", bridge, "IPv6");
    EbLineFields("FORWARD", "--logical-out", bridge, "IPv6");
    EbLineFields("INPUT", "--logical-in", bridge, "IPv4");
    EbLineFields("INPUT", "--logical-in", bridge, "ARP");
    EbLineFields("OUTPUT", "--logical-out", bridge, "IPv4");
    EbLineFields("OUTPUT", "--logical-out", bridge, "ARP");
  }

  /** What tells bridge rules apart: chain, direction and protocol. */
  function Key(f: seq<string>): (string, string, string)
    requires |f| == 10
  {
    (f[2], f[4], f[7])
  }

  lemma BridgeKeysDiffer(bridge: string)
    ensures var f := LegacyFields(bridge) + GuestOnlyFields(bridge);
      && (forall i :: 0 <= i < 8 ==> |f[i]| == 10 && f[i][0] == "eb")
      && (forall i, j :: 0 <= i < j < 8 ==> Key(f[i]) != Key(f[j]))
  {
    var f := LegacyFields(bridge) + GuestOnlyFields(bridge);
    assert Key(f[0]) == ("INPUT", "--logical-in", "IPv6") && Key(f[1]) == ("OUTPUT", "--logical-out", "IPv6");
    assert Key(f[2]) == ("FORWARD", "--logical-in", "IPv6") && Key(f[3]) == ("FORWARD", "--logical-out", "IPv6");
    assert Key(f[4]) == ("INPUT", "--logical-in", "IPv4") && Key(f[5]) == ("INPUT", "--logical-in", "ARP");
    assert Key(f[6]) == ("OUTPUT", "--logical-out", "IPv4") && Key(f[7]) == ("OUTPUT", "--logical-out", "ARP");
  }

  lemma PrioritiesDiffer(d: Definition)
    requires d.Valid() && d.kind != "guest-only"
    ensures forall i, j :: 0 <= i < j < |Services(d)| ==> Services(d)[i].priority < Services(d)[j].priority
    ensures forall i ::
      0 <= i < |Services(d)| ==>
        Fields(ServiceLine(Services(d)[i])) == MangleFields(Services(d)[i].priority, Services(d)[i].body)
  {
    hide DhcpBody, DnsBody, DropBody, HostText, Recognise, MangleFields, ServiceLine;
    GeneratedRulesAreRecognised(d);
  }

  /** No rule of a definition repeats another one. */
  lemma PolicyLinesDistinct(d: Definition)
    requires d.Valid()
    ensures forall i, j :: 0 <= i < j < |Runtime(d)| ==> RuleLine(Runtime(d)[i]) != RuleLine(Runtime(d)[j])
  {
    forall i, j | 0 <= i < j < |Runtime(d)| ensures RuleLine(Runtime(d)[i]) != RuleLine(Runtime(d)[j]) {
      TwoLinesDiffer(d, i, j);
    }
  }

  lemma LegacyPart(d: Definition, i: nat)
    requires d.Valid() && d.PolicyVersion() == 1 && i < |Runtime(d)|
    ensures i < 4 && Runtime(d)[i] == LegacyRuntime(d.bridge)[i]
  {
    hide EbArgs;
  }

  /** The words of rule i: a bridge rule is told apart by its key, a service rule by its priority. */
  lemma LineFields(d: Definition, i: nat)
    requires d.Valid() && i < |Runtime(d)|
    ensures i < 4 || d.kind == "guest-only" ==>
      i < 8 && Fields(RuleLine(Runtime(d)[i])) == (LegacyFields(d.bridge) + GuestOnlyFields(d.bridge))[i]
    ensures i >= 4 && d.kind != "guest-only" ==>
      && d.PolicyVersion() == 2 && i - 4 < |Services(d)|
      && Fields(RuleLine(Runtime(d)[i])) == MangleFields(Services(d)[i - 4].priority, Services(d)[i - 4].body)
  {
    hide Runtime, Services, EbFields, RuleLine, MangleArgs, MangleFields;
    BridgeFields(d.bridge);
    if d.PolicyVersion() == 1 {
      LegacyPart(d, i);
    } else {
      RuntimeParts(d, i);
      if i >= 4 && d.kind != "guest-only" { PrioritiesDiffer(d); }
    }
  }

  lemma TwoLinesDiffer(d: Definition, i: nat, j: nat)
    requires d.Valid() && i < j < |Runtime(d)|
    ensures RuleLine(Runtime(d)[i]) != RuleLine(Runtime(d)[j])
  {
    hide Runtime, Services, EbFields, RuleLine, LegacyFields, GuestOnlyFields;
    LineFields(d, i);
    LineFields(d, j);
    BridgeKeysDiffer(d.bridge);
    var f, g := Fields(RuleLine(Runtime(d)[i])), Fields(RuleLine(Runtime(d)[j]));
    if j < 4 || d.kind == "guest-only" {
      assert Key(f) != Key(g);
    } else if i < 4 {
      assert f[0] != g[0];
    } else {
      PrioritiesDiffer(d);
      var a, b := Services(d)[i - 4].priority, Services(d)[j - 4].priority;
      ParseIntText(a);
      ParseIntText(b);
      assert f[3] == IntText(a) && g[3] == IntText(b);
    }
  }

  // Growth

  /** `grown` holds what `inventory` held and otherwise only rules of the definition. */
  predicate GrowsBy(d: Definition, inventory: Inventory, grown: Inventory)
    requires d.Valid()
  {
    && inventory.runtime <= grown.runtime <= inventory.runtime + RuleLines(Policy(d))
    && inventory.permanent <= grown.permanent <= inventory.permanent + RuleLines(Policy(d))
  }

  lemma BridgeLineIsOk(line: string)
    requires |Fields(line)| == 10 && Fields(line)[0] == "eb"
    ensures LineOk(line) && !InputLine(line)
  {
    hide Recognise, Join, Fields;
  }

  lemma ServiceLineIsOk(s: Service)
    requires Recognised(s)
    ensures LineOk(ServiceLine(s)) && InputLine(ServiceLine(s))
      && RuleOf(ServiceLine(s)) == KernelRule(s.priority, Join(s.body))
    ensures BodyWords(ServiceLine(s)) == s.body
  {
    hide ServiceLine, Recognise, Join, Words;
    FieldsJoin(s.body);
  }

  lemma PolicyLineIsOk(d: Definition, line: string)
    requires d.Valid() && line in RuleLines(Policy(d))
    ensures LineOk(line)
  {
    hide LineOk, EbFields, MangleFields, Services, LegacyFields, GuestOnlyFields;
    var n := |Runtime(d)|;
    var k :| 0 <= k < |Policy(d)| && RuleLine(Policy(d)[k]) == line;
    var i := if k < n then k else k - n;
    if k >= n { PermanentLine(Runtime(d)[i]); }
    hide Runtime, RuleLine, Policy;
    LineFields(d, i);
    BridgeKeysDiffer(d.bridge);
    if i < 4 || d.kind == "guest-only" {
      BridgeLineIsOk(line);
    } else {
      GeneratedRulesAreRecognised(d);
      RuntimeParts(d, i);
      ServiceLineIsOk(Services(d)[i - 4]);
    }
  }

  /** A run-time rule with the body of a policy rule is that policy rule. */
  lemma BodyDecidesOnTheBridge(d: Definition, inventory: Inventory, x: string, y: string)
    requires d.Valid() && d.PolicyVersion() == 2 && OnlyPolicyOn(d.bridge, Policy(d), inventory)
    requires x in RuleLines(Policy(d)) && LineOk(x) && InputLine(x)
    requires y in inventory.All() + RuleLines(Policy(d)) && LineOk(y) && InputLine(y)
      && RuleOf(x).body == RuleOf(y).body
    ensures x == y
  {
    hide RuleLines, Recognise, RuleLine, LineOk, InputLine, Services, DhcpBody, DnsBody, DropBody, HostText;
    PolicyInputLines(d, x);
    GeneratedRulesAreRecognised(d);
    var i :| 0 <= i < |Services(d)| && x == ServiceLine(Services(d)[i]);
    ServiceLineIsOk(Services(d)[i]);
    ServiceIface(d, i);
    var j: nat;
    if y in RuleLines(Policy(d)) {
      PolicyInputLines(d, y);
      var k :| 0 <= k < |Services(d)| && y == ServiceLine(Services(d)[k]);
      j := k;
      ServiceLineIsOk(Services(d)[j]);
    } else {
      assert BodyWords(y) == BodyWords(x);
      j := BridgeRuleIsService(d, inventory, y);
    }
    assert Services(d)[i].body == Services(d)[j].body;
    ServiceBodiesDiffer(d, i, j);
  }

  lemma ServiceIface(d: Definition, i: nat)
    requires d.Valid() && d.kind != "guest-only" && i < |Services(d)|
    ensures var a := Services(d)[i].body; (|a| == 4 || |a| == 12 || |a| == 14) && Iface(a) == d.bridge
  {
    hide HostText;
  }

  lemma ServiceBodiesDiffer(d: Definition, i: nat, j: nat)
    requires d.Valid() && d.kind != "guest-only" && i < |Services(d)| && j < |Services(d)|
    requires Services(d)[i].body == Services(d)[j].body
    ensures i == j
  {
    hide HostText, ParseHost, BridgeName;
    if d.dhcp {
      FirstHostIsPrivate(d.base.value);
      ParseHostIff(HostText(BROADCAST), BROADCAST);
      ParseHostIff(HostText(BROADCAST), d.Gateway());
      ServiceShapes(d);
    }
  }

  lemma ServiceShapes(d: Definition)
    requires d.Valid() && d.kind != "guest-only" && d.dhcp
    ensures |Services(d)| == 5
    ensures var s := Services(d);
      && |s[0].body| == 14 && |s[1].body| == 14 && |s[2].body| == 12 && |s[3].body| == 12 && |s[4].body| == 4
      && s[0].body[1] == HostText(BROADCAST) && s[1].body[1] == HostText(d.Gateway())
      && s[2].body[5] == "udp" && s[3].body[5] == "tcp"
  {
    hide HostText, BridgeName;
  }

  /** Growing by the definition's own rules keeps every condition the checks impose on the inventory. */
  lemma GrowthKeepsChecks(d: Definition, inventory: Inventory, grown: Inventory)
    requires d.Valid() && GrowsBy(d, inventory, grown)
    requires OnlyPolicyOn(d.bridge, Policy(d), inventory)
    ensures OnlyPolicyOn(d.bridge, Policy(d), grown)
    ensures d.PolicyVersion() == 2 && Comparable(inventory) ==> Comparable(grown)
  {
    hide Policy, RuleLines, LineOk, InputLine, RuleOf, Concerns;
    if d.PolicyVersion() == 2 && Comparable(inventory) {
      forall line | line in grown.All() ensures LineOk(line) {
        if line !in inventory.All() { PolicyLineIsOk(d, line); }
      }
      forall x, y | x in grown.runtime && y in grown.runtime && InputLine(x) && InputLine(y)
        && RuleOf(x).body == RuleOf(y).body
        ensures x == y
      {
        if x in RuleLines(Policy(d)) {
          BodyDecidesOnTheBridge(d, inventory, x, y);
        } else if y in RuleLines(Policy(d)) {
          BodyDecidesOnTheBridge(d, inventory, y, x);
        }
      }
    }
  }
}
