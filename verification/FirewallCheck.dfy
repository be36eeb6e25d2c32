/** The checks made on what firewalld and the kernel report: which direct rules
    may stand beside the selected bridge, which mangle INPUT rules are recognised,
    and when a kernel chain is exactly the recognised rules in priority order. */
module FirewallCheck {
  import opened Sets
  import opened Text
  import opened Address
  import opened FirewallPolicy

  /** Lines of the run-time and of the permanent configuration. */
  datatype Inventory = Inventory(runtime: set<string>, permanent: set<string>) {
    function All(): set<string> { runtime + permanent }
  }

  /** networkRuleLine: the inventory line of a rule, without command and scope. */
  function RuleLine(args: Args): string {
    if args == [] then ""
    else if args[0] in ["eb", "ipv4", "ipv6"] then Join(args)
    else RuleLine(args[1..])
  }

  function RuleLines(rules: seq<Args>): set<string> { set i | 0 <= i < |rules| :: RuleLine(rules[i]) }

  // The selected bridge

  /** protectedBridgeDrop. */
  predicate BridgeDrop(f: seq<string>) {
    && |f| == 10 && f[0] == "eb" && f[1] == "filter" && f[3] == "-32768" && BridgeName(f[5]) && f[6] == "-p"
    && f[7] in ["IPv4", "ARP"] && f[8] == "-j" && f[9] == "DROP"
    && ((f[2] == "INPUT" && f[4] == "--logical-in") || (f[2] == "OUTPUT" && f[4] == "--logical-out"))
  }

  predicate InputFields(f: seq<string>) { |f| >= 4 && f[0] == "ipv4" && f[1] == "mangle" && f[2] == "INPUT" }

  /** The lines that speak about one bridge. */
  predicate Concerns(line: string, bridge: string) {
    var f := Fields(line);
    || (BridgeDrop(f) && f[5] == bridge)
    || (InputFields(f) && bridge in f[4..])
  }

  predicate OnlyPolicyOn(bridge: string, rules: seq<Args>, inventory: Inventory) {
    forall line :: line in inventory.All() && Concerns(line, bridge) ==> line in RuleLines(rules)
  }

  /** selectedNetworkPolicy. */
  method SelectedNetworkPolicy(bridge: string, rules: seq<Args>, inventory: Inventory) returns (ok: bool)
    ensures ok <==> OnlyPolicyOn(bridge, rules, inventory)
  {
    var expected: set<string> := {};
    for i := 0 to |rules|
      invariant expected == RuleLines(rules[..i])
    {
      assert rules[..i + 1] == rules[..i] + [rules[i]];
      expected := expected + {RuleLine(rules[i])};
    }
    assert rules[..|rules|] == rules;
    var rest := inventory.All();
    while rest != {}
      invariant rest <= inventory.All()
      invariant forall line :: line in inventory.All() - rest && Concerns(line, bridge) ==> line in expected
      decreases rest
    {
      var line :| line in rest;
      var fields := Fields(line);
      var dropped := BridgeDrop(fields) && fields[5] == bridge;
      var relevant := dropped;
      if InputFields(fields) {
        for k := 4 to |fields|
          invariant relevant <==> dropped || bridge in fields[4..k]
        {
          if fields[k] == bridge { relevant := true; }
          assert fields[4..k + 1] == fields[4..k] + [fields[k]];
        }
        assert fields[4..|fields|] == fields[4..];
      }
      assert relevant <==> Concerns(line, bridge);
      if relevant && line !in expected { return false; }
      rest := rest - {line};
    }
    return true;
  }

  // Recognised mangle INPUT rules

  datatype KernelRule = KernelRule(priority: int, body: string)

  predicate AcceptShape(a: seq<string>) {
    && (|a| == 12 || |a| == 14)
    && a[0] == "-d" && a[2] == "-i" && BridgeName(a[3]) && a[4] == "-p" && a[6] == "-m" && a[7] == a[5]
    && a[|a| - 2] == "-j" && a[|a| - 1] == "ACCEPT"
    && ParseHost(a[1]).Some?
  }

  predicate DropRule(priority: int, a: seq<string>) {
    |a| == 4 && priority == -32763 && a[0] == "-i" && BridgeName(a[1]) && a[2] == "-j" && a[3] == "DROP"
  }

  predicate DhcpRule(priority: int, a: seq<string>) {
    && |a| == 14 && AcceptShape(a)
    && a[5] == "udp" && a[8] == "--sport" && a[9] == "68" && a[10] == "--dport" && a[11] == "67"
    && ((priority == -32767 && a[1] == "255.255.255.255/32") || (priority == -32766 && Private(ParseHost(a[1]).value)))
  }

  predicate DnsRule(priority: int, a: seq<string>) {
    && |a| == 12 && AcceptShape(a)
    && Private(ParseHost(a[1]).value) && a[8] == "--dport" && a[9] == "53"
    && ((priority == -32765 && a[5] == "udp") || (priority == -32764 && a[5] == "tcp"))
  }

  /** protectedMangleRule. */
  function Recognise(f: seq<string>): (r: Option<KernelRule>) {
    if !InputFields(f) || ParseInt(f[3]).None? then None
    else
      var priority := ParseInt(f[3]).value;
      var a := f[4..];
      if DropRule(priority, a) || DhcpRule(priority, a) || DnsRule(priority, a)
        then Some(KernelRule(priority, Join(a))) else None
  }

  // The expected kernel rules

  predicate Passthrough(f: seq<string>) { |f| >= 2 && f[0] == "@passthroughs" && f[1] == "ipv4" }

  predicate CustomChain(f: seq<string>) {
    |f| == 4 && f[0] == "@chains" && f[1] == "ipv4" && f[2] == "mangle" && f[3] in ["INPUT", "INPUT_direct"]
  }

  /** A line of the mangle INPUT policy, whether or not it is well formed. */
  predicate InputLine(line: string) {
    var f := Fields(line);
    |f| >= 3 && f[0] == "ipv4" && f[1] == "mangle" && f[2] == "INPUT"
  }

  predicate LineOk(line: string) {
    var f := Fields(line);
    && !Passthrough(f) && !CustomChain(f)
    && (InputLine(line) ==> line == Join(f) && Recognise(f).Some?)
  }

  function RuleOf(line: string): KernelRule
    requires LineOk(line) && InputLine(line)
  {
    Recognise(Fields(line)).value
  }

  predicate DistinctBodies(lines: set<string>)
    requires forall line :: line in lines ==> LineOk(line)
  {
    forall x, y ::
      x in lines && y in lines && InputLine(x) && InputLine(y) && RuleOf(x).body == RuleOf(y).body ==> x == y
  }

  /** The inventory can be compared with the kernel at all. */
  predicate Comparable(inventory: Inventory) {
    && (forall line :: line in inventory.All() ==> LineOk(line))
    && DistinctBodies(inventory.runtime)
  }

  /** `expected` holds exactly the run-time mangle INPUT rules, by body. */
  predicate IsExpected(expected: map<string, KernelRule>, lines: set<string>)
    requires forall line :: line in lines ==> LineOk(line)
  {
    && (forall line ::
      line in lines && InputLine(line) ==> RuleOf(line).body in expected && expected[RuleOf(line).body] == RuleOf(line))
    && (forall body ::
      body in expected ==> exists line :: line in lines && InputLine(line) && RuleOf(line).body == body)
  }

  /** protectedKernelExpected: it answers exactly for the comparable inventories. */
  method ProtectedKernelExpected(inventory: Inventory) returns (r: Option<map<string, KernelRule>>)
    ensures r.Some? <==> Comparable(inventory)
    ensures r.Some? ==> IsExpected(r.value, inventory.runtime)
  {
    var result: map<string, KernelRule> := map[];
    var rest := inventory.runtime;
    while rest != {}
      invariant rest <= inventory.runtime
      invariant forall line :: line in inventory.runtime - rest ==> LineOk(line)
      invariant DistinctBodies(inventory.runtime - rest)
      invariant IsExpected(result, inventory.runtime - rest)
      decreases rest
    {
      var line :| line in rest;
      ghost var done := inventory.runtime - rest;
      if !LineOk(line) { return None; }
      var next := rest - {line};
      assert inventory.runtime - next == done + {line};
      if InputLine(line) {
        var rule := RuleOf(line);
        if rule.body in result {
          ghost var twin :| twin in done && InputLine(twin) && RuleOf(twin).body == rule.body;
          assert !Comparable(inventory);
          return None;
        }
        Extend(result, done, line);
        result := result[rule.body := rule];
      }
      rest := next;
    }
    assert inventory.runtime - {} == inventory.runtime;
    rest := inventory.permanent;
    while rest != {}
      invariant rest <= inventory.permanent
      invariant forall line :: line in inventory.permanent - rest ==> LineOk(line)
      decreases rest
    {
      var line :| line in rest;
      if !LineOk(line) { return None; }
      rest := rest - {line};
    }
    return Some(result);
  }

  lemma Extend(m: map<string, KernelRule>, done: set<string>, line: string)
    requires forall x :: x in done + {line} ==> LineOk(x)
    requires IsExpected(m, done) && DistinctBodies(done) && InputLine(line) && RuleOf(line).body !in m
    ensures IsExpected(m[RuleOf(line).body := RuleOf(line)], done + {line})
    ensures DistinctBodies(done + {line})
  {
    hide Recognise, Join, Fields, Passthrough, CustomChain;
    var m' := m[RuleOf(line).body := RuleOf(line)];
    forall body | body in m'
      ensures exists x :: x in done + {line} && InputLine(x) && RuleOf(x).body == body
    {
      if body == RuleOf(line).body {
        assert line in done + {line};
      } else {
        var x :| x in done && InputLine(x) && RuleOf(x).body == body;
        assert x in done + {line};
      }
    }
  }

  // The kernel chain

  function ChainPrefix(chain: string): string { "-A " + chain + " " }

  predicate HasBody(line: string, chain: string) { ChainPrefix(chain) <= line }

  function BodyOf(line: string, chain: string): string
    requires HasBody(line, chain)
  {
    line[|ChainPrefix(chain)|..]
  }

  predicate AllHaveBody(lines: seq<string>, chain: string) {
    forall i :: 0 <= i < |lines| ==> HasBody(lines[i], chain)
  }

  function Bodies(lines: seq<string>, chain: string): (bodies: seq<string>)
    requires AllHaveBody(lines, chain)
    ensures |bodies| == |lines|
  {
    seq(|lines|, i requires 0 <= i < |lines| => BodyOf(lines[i], chain))
  }

  const LOWEST := -32768

  predicate Ordered(bodies: seq<string>, expected: map<string, KernelRule>) {
    && (forall i :: 0 <= i < |bodies| ==> bodies[i] in expected && expected[bodies[i]].priority >= LOWEST)
    && (forall i, j :: 0 <= i < j < |bodies| ==> bodies[i] != bodies[j])
    && (forall i, j :: 0 <= i < j < |bodies| ==> expected[bodies[i]].priority <= expected[bodies[j]].priority)
  }

  /** Each expected rule exactly once, in priority order, and nothing else. */
  predicate OrderedCover(bodies: seq<string>, expected: map<string, KernelRule>) {
    Ordered(bodies, expected) && forall body :: body in expected ==> body in bodies
  }

  predicate ChainMatches(lines: seq<string>, chain: string, expected: map<string, KernelRule>) {
    AllHaveBody(lines, chain) && OrderedCover(Bodies(lines, chain), expected)
  }

  lemma OrderedPrefix(bodies: seq<string>, n: nat, expected: map<string, KernelRule>)
    requires n <= |bodies| && Ordered(bodies, expected)
    ensures Ordered(bodies[..n], expected)
  {
  }

  function LastPriority(bodies: seq<string>, expected: map<string, KernelRule>): int
    requires Ordered(bodies, expected)
  {
    if bodies == [] then LOWEST else expected[bodies[|bodies| - 1]].priority
  }

  lemma OrderedLonger(bodies: seq<string>, body: string, expected: map<string, KernelRule>)
    requires Ordered(bodies, expected) && body in expected && body !in bodies
    requires LastPriority(bodies, expected) <= expected[body].priority
    ensures Ordered(bodies + [body], expected)
  {
  }

  /** A body that repeats, is unknown or comes too early spoils every longer chain. */
  lemma NotOrdered(bodies: seq<string>, body: string, expected: map<string, KernelRule>)
    requires Ordered(bodies, expected)
    requires body !in expected || body in bodies || expected[body].priority < LastPriority(bodies, expected)
    ensures !Ordered(bodies + [body], expected)
  {
    var longer := bodies + [body];
    var n := |bodies|;
    assert longer[n] == body;
    if body in bodies {
      var i :| 0 <= i < n && bodies[i] == body;
      assert longer[i] == longer[n];
    } else if bodies != [] {
      assert longer[n - 1] == bodies[n - 1];
    }
  }

  /** `bodies` are the bodies of the first lines. */
  predicate Stripped(lines: seq<string>, chain: string, bodies: seq<string>) {
    |bodies| <= |lines|
      && forall i :: 0 <= i < |bodies| ==> HasBody(lines[i], chain) && bodies[i] == BodyOf(lines[i], chain)
  }

  lemma StrippedLonger(lines: seq<string>, chain: string, bodies: seq<string>)
    requires Stripped(lines, chain, bodies) && |bodies| < |lines| && HasBody(lines[|bodies|], chain)
    ensures Stripped(lines, chain, bodies + [BodyOf(lines[|bodies|], chain)])
  {
  }

  lemma PrefixRefutes(lines: seq<string>, chain: string, prefix: seq<string>, expected: map<string, KernelRule>)
    requires Stripped(lines, chain, prefix) && !Ordered(prefix, expected)
    ensures !ChainMatches(lines, chain, expected)
  {
    if AllHaveBody(lines, chain) {
      var all := Bodies(lines, chain);
      assert all[..|prefix|] == prefix;
      if Ordered(all, expected) { OrderedPrefix(all, |prefix|, expected); }
    }
  }

  lemma CountDecides(bodies: seq<string>, seen: set<string>, expected: map<string, KernelRule>)
    requires Ordered(bodies, expected) && forall x :: x in seen <==> x in bodies
    ensures |seen| == |expected| <==> OrderedCover(bodies, expected)
  {
    assert seen <= expected.Keys;
    if |seen| == |expected| {
      SubsetOfSameSize(seen, expected.Keys);
    }
    if OrderedCover(bodies, expected) {
      assert seen == expected.Keys;
    }
  }

  /** matchProtectedKernelBody: counting the rules seen is enough to know that none is missing. */
  method MatchProtectedKernelBody(lines: seq<string>, chain: string, expected: map<string, KernelRule>)
    returns (ok: bool)
    ensures ok <==> ChainMatches(lines, chain, expected)
  {
    var seen: set<string> := {};
    var last := LOWEST;
    ghost var bodies: seq<string> := [];
    for n := 0 to |lines|
      invariant |bodies| == n && Stripped(lines, chain, bodies)
      invariant Ordered(bodies, expected)
      invariant |seen| == n && forall x :: x in seen <==> x in bodies
      invariant last == LastPriority(bodies, expected)
    {
      var line := lines[n];
      if !(ChainPrefix(chain) <= line) { return false; }
      var body := BodyOf(line, chain);
      StrippedLonger(lines, chain, bodies);
      if body !in expected || body in seen || expected[body].priority < last {
        NotOrdered(bodies, body, expected);
        PrefixRefutes(lines, chain, bodies + [body], expected);
        return false;
      }
      OrderedLonger(bodies, body, expected);
      assert forall x :: x in bodies + [body] <==> x in bodies || x == body;
      bodies := bodies + [body];
      seen := seen + {body};
      last := expected[body].priority;
    }
    assert bodies == Bodies(lines, chain);
    CountDecides(bodies, seen, expected);
    return |seen| == |expected|;
  }

  // What a kernel that mirrors the configuration shows

  lemma {:induction false} LeastPriority(rest: set<string>, expected: map<string, KernelRule>)
    requires rest != {} && rest <= expected.Keys
    ensures exists body :: body in rest && forall x :: x in rest ==> expected[body].priority <= expected[x].priority
  {
    var b :| b in rest;
    var others := rest - {b};
    if others == {} {
      assert rest == {b};
    } else {
      LeastPriority(others, expected);
      var c :| c in others && forall x :: x in others ==> expected[c].priority <= expected[x].priority;
      var least := if expected[b].priority <= expected[c].priority then b else c;
      assert forall x :: x in rest ==> x == b || x in others;
      assert least in rest && forall x :: x in rest ==> expected[least].priority <= expected[x].priority;
    }
  }

  /** The expected rules can always be listed as the check wants them: acceptance asks for nothing impossible. */
  method MirrorChain(expected: map<string, KernelRule>, chain: string) returns (lines: seq<string>)
    requires forall body :: body in expected ==> expected[body].priority >= LOWEST
    ensures ChainMatches(lines, chain, expected)
  {
    var bodies: seq<string> := [];
    lines := [];
    var rest := expected.Keys;
    while rest != {}
      invariant rest <= expected.Keys && AllHaveBody(lines, chain) && bodies == Bodies(lines, chain)
      invariant Ordered(bodies, expected) && forall x :: x in expected <==> x in rest || x in bodies
      invariant forall x :: x in rest ==> x !in bodies && LastPriority(bodies, expected) <= expected[x].priority
      decreases |rest|
    {
      LeastPriority(rest, expected);
      var body :| body in rest && forall x :: x in rest ==> expected[body].priority <= expected[x].priority;
      OrderedLonger(bodies, body, expected);
      BodyOfLine(chain, body);
      var line := ChainPrefix(chain) + body;
      assert Bodies(lines + [line], chain) == bodies + [body];
      lines, bodies, rest := lines + [line], bodies + [body], rest - {body};
    }
  }

  lemma BodyOfLine(chain: string, body: string)
    ensures HasBody(ChainPrefix(chain) + body, chain) && BodyOf(ChainPrefix(chain) + body, chain) == body
  {
  }
}
