/** The versioned firewall policy of a managed network: the rules the helper
    generates, and the checks it makes on a firewalld inventory and on the
    kernel's mangle INPUT chain before it relies on them. */
module FirewallPolicy {
  import opened Text
  import opened Address

  type Args = seq<string>

  /** The part of a network definition that decides its policy. `base` is the
      first address of its IPv4 block; a guest-only network may have none. */
  datatype Definition = Definition(bridge: string, kind: string, hostAccess: string, base: Option<Addr>, dhcp: bool) {
    function PolicyVersion(): nat {
      if (kind == "nat" || kind == "lab") && hostAccess == "allow" then 1
      else if (kind == "nat" || kind == "lab") && hostAccess == "services-only" then 2
      else if kind == "guest-only" && hostAccess == "deny" then 2
      else 0
    }

    /** The host is open to the guests of this network. */
    predicate Open() { kind in ["nat", "lab"] && hostAccess == "allow" }

    /** The guests of this network reach only the host's services for them, or do not reach the host at all. */
    predicate Protected() {
      (kind in ["nat", "lab"] && hostAccess == "services-only") || (kind == "guest-only" && hostAccess == "deny")
    }

    /** What network definition validation guarantees about these fields. */
    predicate Valid() {
      && BridgeName(bridge)
      && (kind != "guest-only" ==> base.Some?)
      && (base.Some? ==> Private(base.value) && base.value % 4 == 0)
      && (kind == "guest-only" ==> !dhcp)
      && PolicyVersion() != 0
    }

    /** The host's own address on the bridge: the first one after the network address. */
    function Gateway(): Addr
      requires base.Some? && base.value < BROADCAST
    {
      base.value + 1
    }
  }

  predicate HexDigit(c: char) { '0' <= c <= '9' || 'a' <= c <= 'f' }

  /** protectedBridgeName: "vm" and twelve lower-case hex digits. */
  predicate BridgeName(s: string) {
    |s| == 14 && s[..2] == "vm" && forall i :: 2 <= i < 14 ==> HexDigit(s[i])
  }

  // Rule generation

  function EbArgs(chain: string, direction: string, bridge: string, protocol: string): Args {
    ["--direct", "--add-rule", "eb", "filter", chain, "-32768", direction, bridge, "-p", protocol, "-j", "DROP"]
  }

  function MangleArgs(priority: int, body: seq<string>): Args {
    ["--direct", "--add-rule", "ipv4", "mangle", "INPUT", IntText(priority)] + body
  }

  function DhcpBody(destination: string, bridge: string): seq<string> {
    ["-d", destination, "-i", bridge, "-p", "udp", "-m", "udp", "--sport", "68", "--dport", "67", "-j", "ACCEPT"]
  }

  function DnsBody(destination: string, bridge: string, protocol: string): seq<string> {
    ["-d", destination, "-i", bridge, "-p", protocol, "-m", protocol, "--dport", "53", "-j", "ACCEPT"]
  }

  function DropBody(bridge: string): seq<string> { ["-i", bridge, "-j", "DROP"] }

  const DROP_PRIORITY := -32763

  function LegacyRuntime(bridge: string): seq<Args> {
    [EbArgs("INPUT", "--logical-in", bridge, "IPv6"), EbArgs("OUTPUT", "--logical-out", bridge, "IPv6"),
     EbArgs("FORWARD", "--logical-in", bridge, "IPv6"), EbArgs("FORWARD", "--logical-out", bridge, "IPv6")]
  }

  function GuestOnlyRuntime(bridge: string): seq<Args> {
    [EbArgs("INPUT", "--logical-in", bridge, "IPv4"), EbArgs("INPUT", "--logical-in", bridge, "ARP"),
     EbArgs("OUTPUT", "--logical-out", bridge, "IPv4"), EbArgs("OUTPUT", "--logical-out", bridge, "ARP")]
  }

  function DhcpRuntime(bridge: string, gateway: string): seq<Args> {
    [MangleArgs(-32767, DhcpBody(HostText(BROADCAST), bridge)), MangleArgs(-32766, DhcpBody(gateway, bridge))]
  }

  function DnsRuntime(bridge: string, gateway: string): seq<Args> {
    [MangleArgs(-32765, DnsBody(gateway, bridge, "udp")), MangleArgs(-32764, DnsBody(gateway, bridge, "tcp"))]
  }

  /** The accepted DHCP and DNS cases; without DHCP there are none. */
  function AcceptRuntime(d: Definition): seq<Args>
    requires d.Valid() && d.kind != "guest-only"
  {
    if !d.dhcp then []
    else var gateway := HostText(d.Gateway());
      DhcpRuntime(d.bridge, gateway) + DnsRuntime(d.bridge, gateway)
  }

  function ServiceRuntime(d: Definition): seq<Args>
    requires d.Valid() && d.kind != "guest-only"
  {
    AcceptRuntime(d) + [MangleArgs(DROP_PRIORITY, DropBody(d.bridge))]
  }

  /** The rules the definition needs at run time. */
  function Runtime(d: Definition): seq<Args>
    requires d.Valid()
  {
    LegacyRuntime(d.bridge) +
    (if d.PolicyVersion() == 1 then []
     else if d.kind == "guest-only" then GuestOnlyRuntime(d.bridge)
     else ServiceRuntime(d))
  }

  function Permanent(rules: seq<Args>): (p: seq<Args>)
    ensures |p| == |rules| && forall i :: 0 <= i < |rules| ==> p[i] == ["--permanent"] + rules[i]
  {
    if rules == [] then [] else [["--permanent"] + rules[0]] + Permanent(rules[1..])
  }

  /** Every rule of a definition: the run-time half, then the identical permanent half. */
  function Policy(d: Definition): seq<Args>
    requires d.Valid()
  {
    Runtime(d) + Permanent(Runtime(d))
  }

  /** networkRules: the eight IPv6 rules in their fixed journal order. */
  method NetworkRules(bridge: string) returns (rules: array<Args>)
    ensures fresh(rules) && rules.Length == 8
    ensures rules[..] == LegacyRuntime(bridge) + Permanent(LegacyRuntime(bridge))
  {
    rules := new Args[8](_ => []);
    var pairs :=
      [("INPUT", "--logical-in"), ("OUTPUT", "--logical-out"), ("FORWARD", "--logical-in"),
        ("FORWARD", "--logical-out")];
    ghost var want := LegacyRuntime(bridge);
    for i := 0 to 4
      invariant forall k :: 0 <= k < i ==> rules[k] == want[k] && rules[k + 4] == ["--permanent"] + want[k]
    {
      var args :=
        ["--direct", "--add-rule", "eb", "filter", pairs[i].0, "-32768", pairs[i].1, bridge, "-p", "IPv6", "-j",
          "DROP"];
      rules[i] := args;
      rules[i + 4] := ["--permanent"] + args;
    }
  }

  method GuestOnlyRules(bridge: string, legacy: seq<Args>) returns (runtime: seq<Args>)
    ensures runtime == legacy + GuestOnlyRuntime(bridge)
  {
    runtime := legacy;
    var pairs := [("INPUT", "--logical-in"), ("OUTPUT", "--logical-out")];
    var protocols := ["IPv4", "ARP"];
    ghost var want := GuestOnlyRuntime(bridge);
    for i := 0 to 2
      invariant runtime == legacy + want[..2 * i]
    {
      for k := 0 to 2
        invariant runtime == legacy + want[..2 * i + k]
      {
        runtime :=
          runtime + [["--direct", "--add-rule", "eb", "filter", pairs[i].0, "-32768", pairs[i].1, bridge, "-p",
            protocols[k], "-j", "DROP"]];
      }
    }
    assert want[..4] == want;
  }

  method DhcpRules(bridge: string, bridgeIP: string, legacy: seq<Args>) returns (runtime: seq<Args>)
    ensures runtime == legacy + DhcpRuntime(bridge, bridgeIP)
  {
    var destinations := ["255.255.255.255/32", bridgeIP];
    BroadcastText();
    runtime := legacy;
    ghost var want := DhcpRuntime(bridge, bridgeIP);
    for i := 0 to 2
      invariant runtime == legacy + want[..i]
    {
      runtime := runtime + [["--direct", "--add-rule", "ipv4", "mangle", "INPUT", IntText(-32767 + i)] +
                            ["-d", destinations[i], "-i", bridge, "-p", "udp", "-m", "udp", "--sport", "68", "--dport",
                              "67", "-j", "ACCEPT"]];
    }
    assert want[..2] == want;
  }

  method DnsRules(bridge: string, bridgeIP: string, before: seq<Args>) returns (runtime: seq<Args>)
    ensures runtime == before + DnsRuntime(bridge, bridgeIP)
  {
    var protocols := ["udp", "tcp"];
    runtime := before;
    ghost var want := DnsRuntime(bridge, bridgeIP);
    for i := 0 to 2
      invariant runtime == before + want[..i]
    {
      runtime := runtime + [["--direct", "--add-rule", "ipv4", "mangle", "INPUT", IntText(-32765 + i)] +
                            ["-d", bridgeIP, "-i", bridge, "-p", protocols[i], "-m", protocols[i], "--dport", "53",
                              "-j", "ACCEPT"]];
    }
    assert want[..2] == want;
  }

  method ServiceRules(d: Definition, legacy: seq<Args>) returns (runtime: seq<Args>)
    requires d.Valid() && d.kind != "guest-only"
    ensures runtime == legacy + ServiceRuntime(d)
  {
    runtime := legacy;
    if d.dhcp {
      var bridgeIP := HostText(d.Gateway());
      runtime := DhcpRules(d.bridge, bridgeIP, runtime);
      runtime := DnsRules(d.bridge, bridgeIP, runtime);
    }
    assert runtime == legacy + AcceptRuntime(d);
    var drop := ["--direct", "--add-rule", "ipv4", "mangle", "INPUT", "-32763", "-i", d.bridge, "-j", "DROP"];
    DropPriorityText();
    assert drop == MangleArgs(DROP_PRIORITY, DropBody(d.bridge));
    runtime := runtime + [drop];
  }

  method AppendPermanent(runtime: seq<Args>) returns (rules: seq<Args>)
    ensures rules == runtime + Permanent(runtime)
  {
    rules := runtime;
    for i := 0 to |runtime|
      invariant rules == runtime + Permanent(runtime)[..i]
    {
      rules := rules + [["--permanent"] + runtime[i]];
    }
    assert Permanent(runtime)[..|runtime|] == Permanent(runtime);
  }

  /** networkPolicyRules. */
  method NetworkPolicyRules(d: Definition) returns (rules: seq<Args>)
    requires d.Valid()
    ensures rules == Policy(d)
  {
    var legacy := NetworkRules(d.bridge);
    if d.PolicyVersion() == 1 {
      assert Runtime(d) == LegacyRuntime(d.bridge);
      return legacy[..];
    }
    var runtime := legacy[..4];
    assert runtime == LegacyRuntime(d.bridge);
    if d.kind == "guest-only" {
      runtime := GuestOnlyRules(d.bridge, runtime);
    } else {
      runtime := ServiceRules(d, runtime);
    }
    rules := AppendPermanent(runtime);
  }

  lemma Dotted(o: string)
    requires o == "255"
    ensures o + "." + (o + "." + (o + "." + o)) + "/32" == "255.255.255.255/32"
  {
  }

  lemma Text255()
    ensures NatText(255) == "255"
  {
    assert NatText(25) == "25";
  }

  lemma BroadcastParts()
    ensures AddrText(BROADCAST) == NatText(255) + "." + (NatText(255) + "." + (NatText(255) + "." + NatText(255)))
  {
    hide NatText, AddrText;
    AddrTextParts(BROADCAST);
    assert Octets(BROADCAST) == [255, 255, 255, 255];
  }

  lemma BroadcastText()
    ensures HostText(BROADCAST) == "255.255.255.255/32"
  {
    Text255();
    BroadcastParts();
    Dotted("255");
  }

  lemma DropPriorityText()
    ensures IntText(DROP_PRIORITY) == "-32763"
  {
    assert NatText(327) == "327" by { assert NatText(32) == "32"; }
    assert NatText(3276) == "3276";
    assert NatText(32763) == "32763";
  }
}
