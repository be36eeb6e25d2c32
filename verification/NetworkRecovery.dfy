/** From any crash to completion: what a fresh apply makes of whatever interrupted calls left behind, and how many jobs
    it takes to make a network unreadable. */
module NetworkRecovery {
  import opened Text
  import opened Sets
  import opened FirewallPolicy
  import opened FirewallCheck
  import opened FirewallMeaning
  import opened FirewallTheorem
  import opened FirewallGrowth
  import opened NetworkJournal
  import opened NetworkExecutor

  /** An inventory united with the rules of a definition, in both halves, and nothing else. */
  function United(d: Definition, inventory: Inventory): Inventory
    requires d.Valid()
  {
    Inventory(inventory.runtime + RuleLines(Runtime(d)), inventory.permanent + RuleLines(Runtime(d)))
  }

  /** The permanent rules have the lines of the run-time ones. */
  lemma BothHalves(d: Definition)
    requires d.Valid()
    ensures var rules, n := Policy(d), |Runtime(d)|;
      |rules| == 2 * n && RuleLines(rules[..n]) == RuleLines(rules[n..]) == RuleLines(Runtime(d)) == RuleLines(rules)
  {
    hide Runtime, RuleLine;
    var runtime, rules := Runtime(d), Policy(d);
    var n := |runtime|;
    assert rules[..n] == runtime;
    forall i | n <= i < |rules| ensures RuleLine(rules[i]) == RuleLine(runtime[i - n]) {
      PermanentLine(runtime[i - n]);
    }
    assert forall i :: 0 <= i < n ==> rules[n..][i] == rules[n + i];
    SameLines(rules[n..], runtime);
    assert rules == runtime + rules[n..];
    assert RuleLines(rules) == RuleLines(runtime) + RuleLines(rules[n..]);
  }

  lemma SameLines(a: seq<Args>, b: seq<Args>)
    requires |a| == |b| && forall i :: 0 <= i < |a| ==> RuleLine(a[i]) == RuleLine(b[i])
    ensures RuleLines(a) == RuleLines(b)
  {
  }

  /** Whatever part of the policy was added before, adding all of it gives the same inventory. */
  lemma GrowthEndsUnited(d: Definition, start: Inventory, grown: Inventory)
    requires d.Valid() && GrowsBy(d, start, grown)
    ensures PutUpTo(grown, Policy(d), |Policy(d)|) == United(d, start)
  {
    hide Policy, Runtime, RuleLines, PutUpTo;
    BothHalves(d);
    PutIsUnion(grown, Policy(d), |Policy(d)|);
    var rules := Policy(d);
    assert rules[|rules| / 2..|rules|] == rules[|rules| / 2..];
  }

  /** What interrupted calls left: the durable records, the firewall, and how many names the journal directory holds. */
  datatype Remains = Remains(owner: Option<Slot<Owner>>, records: Journal, firewall: Inventory, entries: nat)

  /** A fresh apply may use it: nothing torn, no other owner, within the bounds. */
  predicate Usable(m: Remains, r: Request) {
    && Ours(m.owner, r.owner) && NoneTorn(m.records) && r.job !in Jobs(m.records)
    && |Jobs(m.records)| <= MAX_JOBS && m.entries <= MAX_ENTRIES
  }

  lemma CleanFromNothing(d: Definition, firewall: Inventory, j: Journal)
    requires d.Valid() && Acceptable(d, firewall) && forall i: nat :: i < |Policy(d)| ==> !In(firewall, Policy(d), i)
    ensures Clean(d, firewall, j)
  {
    hide Policy, In, Acceptable;
  }

  /** From a network that nobody owns, whose policy rules are absent from an acceptable firewall: after any sequence of
      calls, each cut short anywhere, a fresh quiet apply completes on whatever usable remains there are. The inventory
      is then the first one united with the policy, and a protected policy is enforced by the kernel. */
  method ApplyAfterCrashes(h: Helper, calls: seq<Request>, r: Request) returns (remains: Remains, response: Response)
    requires h.Valid() && h.calm && h.owner.None? && r.Admitted() && r.mode == Apply
    requires Acceptable(r.owner.definition, h.firewall)
    requires forall i: nat :: i < |Policy(r.owner.definition)| ==> !In(h.firewall, Policy(r.owner.definition), i)
    modifies h
    ensures h.Valid()
    ensures Usable(remains, r) ==>
      response == Done(true, true) && h.firewall == United(r.owner.definition, old(h.firewall))
    ensures Usable(remains, r) ==> h.records == Closed(remains.records, r)
    ensures Usable(remains, r) && r.owner.definition.Protected() ==> Enforces(h.kernel, r.owner.definition)
    ensures Ours(remains.owner, r.owner) ==>
      GrowsBy(r.owner.definition, old(h.firewall), remains.firewall)
  {
    hide Policy, RuleLine, PlanDigest, OnlyPolicyOn, Comparable, Closed, United, Enforces, GrowsBy, PutUpTo, In, Safe,
      Clean;
    CleanFromNothing(r.owner.definition, h.firewall, h.records);
    h.Run(calls, r.owner);
    remains := Remains(h.owner, h.records, h.firewall, h.Entries());
    if Usable(remains, r) {
      assert h.Ready(r);
      GrowthEndsUnited(r.owner.definition, old(h.firewall), h.firewall);
    }
    response := h.Execute(r, true);
  }

  // How many jobs make a network unreadable

  function NthRequest(o: Owner, plan: string, k: nat): Request { Request(o, NatText(k), plan, Apply) }

  function Named(n: nat): (jobs: set<string>)
  {
    if n == 0 then {} else Named(n - 1) + {NatText(n - 1)}
  }

  lemma {:induction false} NamedAre(n: nat, k: nat)
    ensures NatText(k) in Named(n) <==> k < n
  {
    hide NatText, ParseNat;
    if n > 0 {
      NamedAre(n - 1, k);
      ParseNatText(k);
      ParseNatText(n - 1);
    }
  }

  lemma {:induction false} NamedCount(n: nat)
    ensures |Named(n)| == n
  {
    hide NatText;
    if n > 0 {
      NamedCount(n - 1);
      NamedAre(n - 1, n - 1);
    }
  }

  lemma UnionSize<T>(a: set<T>, b: set<T>)
    ensures |a + b| <= |a| + |b|
  {
    assert a + b == a + (b - a);
    SubsetSize(b - a, b);
  }

  function AllNames(job: string, n: nat): set<Name> { JobNames(job, n) + {Name(job, NetworkJournal.Complete)} }

  lemma AllNamesSize(job: string, n: nat)
    ensures |AllNames(job, n)| <= n + 2
  {
    NamesOfOneJob(AllNames(job, n), job, n);
  }

  /** A completed job owns every rule. */
  lemma ClosedOwns(j: Journal, r: Request)
    requires r.owner.definition.Valid() && r.job !in Jobs(j)
    ensures forall i: nat :: i < |r.Rules()| ==> Owned(Closed(j, r), i)
  {
    hide Policy, Closed;
    ClosedRecords(j, r);
    forall i: nat | i < |r.Rules()| ensures Owned(Closed(j, r), i) {
      assert Name(r.job, Rule(i)) in JobNames(r.job, |r.Rules()|);
    }
  }

  /** A completed job adds at most an intent, its rules and a completion. */
  lemma ClosedSize(j: Journal, r: Request)
    requires r.owner.definition.Valid() && r.job !in Jobs(j)
    ensures |Closed(j, r)| <= |j| + |r.Rules()| + 2
  {
    hide Policy, Closed, JobNames, Jobs;
    ClosedRecords(j, r);
    KeysUnion(j, Closed(j, r), r.job, |r.Rules()|);
  }

  lemma KeysUnion(j: Journal, k: Journal, job: string, n: nat)
    requires k.Keys == j.Keys + JobNames(job, n) + {Name(job, NetworkJournal.Complete)}
    ensures |k| <= |j| + n + 2
  {
    AllNamesSize(job, n);
    UnionSize(j.Keys, AllNames(job, n));
    hide JobNames;
    assert k.Keys == j.Keys + AllNames(job, n);
    assert |k| == |k.Keys| && |j| == |j.Keys|;
  }

  lemma CleanAfterJob(d: Definition, firewall: Inventory, j: Journal)
    requires d.Valid() && Acceptable(d, firewall) && forall i: nat :: i < |Policy(d)| ==> Owned(j, i)
    ensures Clean(d, PutUpTo(firewall, Policy(d), |Policy(d)|), j)
  {
    hide Policy, RuleLine, OnlyPolicyOn, Comparable;
    StaysAcceptable(d, firewall, Policy(d), |Policy(d)|);
  }

  /** Where filling a network with quiet apply calls has come to. */
  ghost predicate Filled(h: Helper, o: Owner, k: nat)
    requires o.definition.Valid()
    reads h
  {
    && h.Valid() && NoneTorn(h.records) && Jobs(h.records) == Named(k)
    && h.owner == (if k == 0 then None else Some(Whole(o)))
    && |h.records| <= k * (|Policy(o.definition)| + 2)
    && Clean(o.definition, h.firewall, h.records)
  }

  /** One more quiet apply call, as long as the limit is not exceeded and the directory has room. */
  method FillOne(h: Helper, o: Owner, plan: string, k: nat)
    requires NthRequest(o, plan, k).Admitted() && Filled(h, o, k) && k <= MAX_JOBS
    requires h.foreign + 1 + (k + 1) * (|Policy(o.definition)| + 2) <= MAX_ENTRIES
    modifies h
    ensures Filled(h, o, k + 1) && h.foreign == old(h.foreign)
  {
    hide Policy, PlanDigest, Closed, Clean, Enforces, GrowsBy, PutUpTo, Safe, NatText, RuleLine, Jobs, Acceptable;
    var r, d := NthRequest(o, plan, k), o.definition;
    NamedCount(k);
    NamedAre(k, k);
    Multiples(k, |Policy(d)| + 2);
    assert h.Ready(r);
    ghost var j, f := h.records, h.firewall;
    CleanIsAcceptable(d, f, j);
    var _ := h.Execute(r, true);
    ClosedAddsOne(j, r);
    ClosedSize(j, r);
    ClosedOwns(j, r);
    CleanAfterJob(d, f, h.records);
  }

  lemma CleanIsAcceptable(d: Definition, firewall: Inventory, j: Journal)
    requires d.Valid() && Clean(d, firewall, j)
    ensures Acceptable(d, firewall)
  {
  }

  /** Up to one job beyond the limit, quiet apply calls on an unowned network each complete. */
  method Fill(h: Helper, o: Owner, plan: string, n: nat)
    requires NthRequest(o, plan, 0).Admitted() && Filled(h, o, 0) && n <= MAX_JOBS + 1
    requires h.foreign + 1 + n * (|Policy(o.definition)| + 2) <= MAX_ENTRIES
    modifies h
    ensures Filled(h, o, n) && |Jobs(h.records)| == n && h.foreign == old(h.foreign)
  {
    hide Policy, PlanDigest, Filled, NatText;
    for k := 0 to n
      invariant Filled(h, o, k) && h.foreign == old(h.foreign)
    {
      FewerFit(k + 1, n, |Policy(o.definition)| + 2);
      FillOne(h, o, plan, k);
    }
    NamedCount(n);
    FilledJobs(h, o, n);
  }

  lemma FilledJobs(h: Helper, o: Owner, n: nat)
    requires o.definition.Valid() && Filled(h, o, n)
    ensures Jobs(h.records) == Named(n) && h.Valid() && NoneTorn(h.records)
  {
  }

  lemma Multiples(k: nat, size: nat)
    ensures k * size + size == (k + 1) * size
  {
  }

  lemma FewerFit(k: nat, n: nat, size: nat)
    requires k <= n
    ensures k * size <= n * size
  {
  }

  /** A 65th job is admitted and completes; after it every call refuses, whatever it asks. */
  method OneJobTooMany(h: Helper, o: Owner, plan: string, next: Request) returns (response: Response)
    requires NthRequest(o, plan, 0).Admitted() && h.Valid() && h.owner.None? && Acceptable(o.definition, h.firewall)
    requires forall i: nat :: i < |Policy(o.definition)| ==> !In(h.firewall, Policy(o.definition), i)
    requires h.foreign + 1 + (MAX_JOBS + 1) * (|Policy(o.definition)| + 2) <= MAX_ENTRIES
    modifies h
    ensures h.Valid() && NoneTorn(h.records) && |Jobs(h.records)| == MAX_JOBS + 1
    ensures response == Refused
  {
    hide Policy, PlanDigest, Filled, Safe, Acceptable, In;
    FillingBegins(h, o);
    Fill(h, o, plan, MAX_JOBS + 1);
    FilledJobs(h, o, MAX_JOBS + 1);
    response := h.Execute(next, true);
  }

  /** A network nobody owns, with an acceptable firewall that holds none of the policy rules, is where
      filling begins. */
  lemma FillingBegins(h: Helper, o: Owner)
    requires h.Valid() && h.owner.None? && o.definition.Valid() && Acceptable(o.definition, h.firewall)
    requires forall i: nat :: i < |Policy(o.definition)| ==> !In(h.firewall, Policy(o.definition), i)
    ensures Filled(h, o, 0)
  {
    hide Policy, Acceptable, In;
    assert h.records == map[];
    assert Jobs(h.records) == Named(0);
  }
}
