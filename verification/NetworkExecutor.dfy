/** The privileged network helper: it records an intent before every firewall
    effect and only ever adds rules. Unless a call is `quiet`, any step may fail, be cut
    short or be followed by a crash; unless times are `calm`, others may change the firewall. */
module NetworkExecutor {
  import opened Sets
  import opened Text
  import opened FirewallPolicy
  import opened FirewallCheck
  import opened FirewallMeaning
  import opened FirewallTheorem
  import opened FirewallGrowth
  import opened NetworkJournal

  datatype Mode = Check | Apply | Observe

  datatype Request = Request(owner: Owner, job: string, plan: string, mode: Mode) {
    /** What authorisation and request checks establish before the journal is opened. */
    predicate Admitted() {
      && owner.definition.Valid() && owner.version == owner.definition.PolicyVersion()
      && PlanDigest(plan)
    }

    function Rules(): seq<Args>
      requires owner.definition.Valid()
    {
      Policy(owner.definition)
    }
  }

  datatype Response = Refused | Done(runtimePresent: bool, permanentPresent: bool)

  /** One firewall command of the helper, and whether the rule stood there already. */
  datatype Issue = Issue(job: string, index: nat, present: bool)

  // Rules in an inventory

  predicate In(inventory: Inventory, rules: seq<Args>, i: nat)
    requires i < |rules|
  {
    RuleLine(rules[i]) in (if i < |rules| / 2 then inventory.runtime else inventory.permanent)
  }

  function Put(inventory: Inventory, rules: seq<Args>, i: nat): Inventory
    requires i < |rules|
  {
    if i < |rules| / 2 then Inventory(inventory.runtime + {RuleLine(rules[i])}, inventory.permanent)
    else Inventory(inventory.runtime, inventory.permanent + {RuleLine(rules[i])})
  }

  /** The inventory united with the first k rules. */
  function PutUpTo(inventory: Inventory, rules: seq<Args>, k: nat): (r: Inventory)
    requires k <= |rules|
  {
    if k == 0 then inventory else Put(PutUpTo(inventory, rules, k - 1), rules, k - 1)
  }

  /** Rules of the same half never share a line. */
  ghost predicate Apart(rules: seq<Args>) {
    forall i, j ::
      0 <= i < j < |rules| && (i < |rules| / 2 <==> j < |rules| / 2) ==> RuleLine(rules[i]) != RuleLine(rules[j])
  }

  lemma PolicyIsApart(d: Definition)
    requires d.Valid()
    ensures Apart(Policy(d)) && |Policy(d)| == 2 * |Runtime(d)|
  {
    hide Runtime, RuleLine;
    var runtime, rules := Runtime(d), Policy(d);
    PolicyLinesDistinct(d);
    forall i | |runtime| <= i < |rules| ensures RuleLine(rules[i]) == RuleLine(runtime[i - |runtime|]) {
      PermanentLine(runtime[i - |runtime|]);
    }
  }

  lemma {:induction false} PutKeepsOthers(inventory: Inventory, rules: seq<Args>, k: nat, i: nat)
    requires Apart(rules) && k <= |rules| && i < |rules|
    ensures In(PutUpTo(inventory, rules, k), rules, i) <==> i < k || In(inventory, rules, i)
  {
    hide RuleLine;
    if k > 0 {
      PutKeepsOthers(inventory, rules, k - 1, i);
    }
  }

  lemma {:induction false} PutGrowsByPolicy(d: Definition, inventory: Inventory, k: nat)
    requires d.Valid() && k <= |Policy(d)|
    ensures GrowsBy(d, inventory, PutUpTo(inventory, Policy(d), k))
  {
    hide RuleLine, Policy;
    if k > 0 {
      PutGrowsByPolicy(d, inventory, k - 1);
      assert RuleLine(Policy(d)[k - 1]) in RuleLines(Policy(d));
    }
  }

  /** The checks that guard every step look only at the inventory. */
  ghost predicate Acceptable(d: Definition, inventory: Inventory)
    requires d.Valid()
  {
    OnlyPolicyOn(d.bridge, Policy(d), inventory) && (d.PolicyVersion() == 1 || Comparable(inventory))
  }

  /** An acceptable firewall in which every policy rule already present belongs to a job of this network. */
  ghost predicate Clean(d: Definition, firewall: Inventory, j: Journal)
    requires d.Valid()
  {
    Acceptable(d, firewall) && forall i: nat :: i < |Policy(d)| && In(firewall, Policy(d), i) ==> Owned(j, i)
  }

  lemma CleanMore(d: Definition, firewall: Inventory, j: Journal, k: Journal)
    requires d.Valid() && Clean(d, firewall, j) && forall name :: name in j ==> name in k
    ensures Clean(d, firewall, k)
  {
    hide Policy, RuleLine, OnlyPolicyOn, Comparable, In;
    forall i: nat | Owned(j, i) ensures Owned(k, i) {
      var job :| Name(job, Rule(i)) in j;
      assert Name(job, Rule(i)) in k;
    }
  }

  /** What a call works on. */
  datatype World = World(records: Journal, firewall: Inventory, issued: seq<Issue>)

  /** The firewall changes only by commands and only grows by the policy, and a clean one stays clean. */
  ghost predicate CalmStep(d: Definition, was: World, now: World)
    requires d.Valid()
  {
    && (now.issued == was.issued ==> now.firewall == was.firewall)
    && (Clean(d, was.firewall, was.records) ==> Clean(d, now.firewall, now.records))
    && GrowsBy(d, was.firewall, now.firewall)
  }

  /** One more rule behind its durable intent. */
  lemma CleanStep(d: Definition, firewall: Inventory, j: Journal, i: nat)
    requires d.Valid() && Clean(d, firewall, j) && i < |Policy(d)| && Owned(j, i)
    ensures Clean(d, Put(firewall, Policy(d), i), j)
  {
    hide Policy, RuleLine, OnlyPolicyOn, Comparable, Owned;
    var rules, more := Policy(d), Put(firewall, Policy(d), i);
    PolicyIsApart(d);
    assert RuleLine(rules[i]) in RuleLines(rules);
    assert GrowsBy(d, firewall, more);
    GrowthKeepsChecks(d, firewall, more);
    assert d.PolicyVersion() in [1, 2];
    assert forall k: nat :: k < |rules| && In(more, rules, k) ==> k == i || In(firewall, rules, k);
  }

  /** The names one finished job leaves, and those of its first k rules. */
  function JobNames(job: string, k: nat): set<Name> {
    {Name(job, Intent)} + set i | 0 <= i < k :: Name(job, Rule(i))
  }

  function Finished(j: Journal, r: Request, k: nat): (f: Journal)
    requires r.owner.definition.Valid() && k <= |r.Rules()|
  {
    j + map name | name in JobNames(r.job, k) :: Whole(Expected(r.owner, r.Rules(), name, r.plan))
  }

  /** The commands a quiet job issues: one for each absent rule, in order. */
  function Commands(inventory: Inventory, rules: seq<Args>, job: string, k: nat): seq<Issue>
    requires k <= |rules|
  {
    if k == 0 then []
    else
      Commands(inventory, rules, job, k - 1)
      + (if In(inventory, rules, k - 1) then [] else [Issue(job, k - 1, false)])
  }

  /** One more durable rule intent. */
  lemma FinishedStep(j: Journal, r: Request, k: nat)
    requires r.owner.definition.Valid() && k < |r.Rules()|
    ensures Finished(j, r,
      k)[Name(r.job, Rule(k)) := Whole(Expected(r.owner, r.Rules(), Name(r.job, Rule(k)), r.plan))] ==
      Finished(j, r, k + 1)
  {
    hide Policy;
    assert JobNames(r.job, k + 1) == JobNames(r.job, k) + {Name(r.job, Rule(k))};
  }

  /** The journal holds a fresh job's intent and its first k rule intents, and nothing else of that job. */
  ghost predicate Underway(j: Journal, r: Request, k: nat)
    requires r.owner.definition.Valid()
  {
    && k <= |r.Rules()|
    && Consistent(j, r.owner, r.Rules())
    && (forall name :: name in j && name.job == r.job ==> name in JobNames(r.job, k))
    && (forall name :: name in JobNames(r.job, k) ==> WholeAt(j, name) && j[name].value.plan == r.plan)
  }

  /** What a cut-off write of the next rule intent leaves. */
  lemma NextIntent(j: Journal, r: Request, k: nat, slot: Slot<Record>)
    requires r.Admitted() && k < |r.Rules()| && Underway(j, r, k)
    requires slot in [Torn, Whole(Expected(r.owner, r.Rules(), Name(r.job, Rule(k)), r.plan))]
    ensures Name(r.job, Rule(k)) !in j
    ensures Consistent(j[Name(r.job, Rule(k)) := slot], r.owner, r.Rules())
    ensures slot.Whole? ==> Underway(j[Name(r.job, Rule(k)) := slot], r, k + 1)
  {
    hide Policy, PlanDigest, Consistent;
    assert Name(r.job, Intent) in JobNames(r.job, k);
    WriteKeepsConsistent(j, r.owner, r.Rules(), Name(r.job, Rule(k)), slot);
    assert JobNames(r.job, k + 1) == JobNames(r.job, k) + {Name(r.job, Rule(k))};
  }

  lemma FirstIntent(j: Journal, r: Request, slot: Slot<Record>)
    requires r.Admitted() && Consistent(j, r.owner, r.Rules()) && r.job !in Jobs(j)
    requires slot in [Torn, Whole(Expected(r.owner, r.Rules(), Name(r.job, Intent), r.plan))]
    ensures Name(r.job, Intent) !in j
    ensures Consistent(j[Name(r.job, Intent) := slot], r.owner, r.Rules())
    ensures slot.Whole? ==>
      Underway(j[Name(r.job, Intent) := slot], r, 0) && j[Name(r.job, Intent) := slot] == Finished(j, r, 0)
  {
    hide Policy, PlanDigest, Consistent;
    assert forall other :: other in j ==> other.job in Jobs(j);
    WriteKeepsConsistent(j, r.owner, r.Rules(), Name(r.job, Intent), slot);
    assert JobNames(r.job, 0) == {Name(r.job, Intent)};
  }

  lemma LastRecord(j: Journal, r: Request, slot: Slot<Record>)
    requires r.Admitted() && Underway(j, r, |r.Rules()|)
    requires slot in [Torn, Whole(Expected(r.owner, r.Rules(), Name(r.job, Complete), r.plan))]
    ensures Name(r.job, Complete) !in j
    ensures Consistent(j[Name(r.job, Complete) := slot], r.owner, r.Rules())
  {
    hide Policy, PlanDigest, Consistent;
    assert Name(r.job, Intent) in JobNames(r.job, |r.Rules()|);
    forall i: nat | i < |r.Rules()| ensures WholeAt(j, Name(r.job, Rule(i))) {
      assert Name(r.job, Rule(i)) in JobNames(r.job, |r.Rules()|);
    }
    WriteKeepsConsistent(j, r.owner, r.Rules(), Name(r.job, Complete), slot);
  }

  /** Records are only added, and only for one job. */
  predicate OnlyAdds(before: Journal, after: Journal, job: string) {
    && (forall name :: name in before ==> name in after && after[name] == before[name])
    && (forall name :: name in after && name !in before ==> name.job == job)
  }

  /** Commands are only added, and only for one job. */
  predicate OnlyIssues(before: seq<Issue>, after: seq<Issue>, job: string) {
    before <= after && forall k :: |before| <= k < |after| ==> after[k].job == job
  }

  /** A job's durable intents under one plan: its own and one for every rule. */
  ghost predicate Recorded(j: Journal, r: Request)
    requires r.owner.definition.Valid()
  {
    && WholeAt(j, Name(r.job, Intent)) && j[Name(r.job, Intent)].value.plan == r.plan
    && forall i: nat ::
      i < |r.Rules()| ==> WholeAt(j, Name(r.job, Rule(i))) && j[Name(r.job, Rule(i))].value.plan == r.plan
  }

  lemma SummaryOfRecorded(j: Journal, r: Request, known: map<string, JobHistory>, rules: seq<Args>)
    requires r.owner.definition.Valid() && rules == r.Rules() && SummarisesAll(known, j, rules) && Recorded(j, r)
    ensures r.job in known && known[r.job].intended && known[r.job].plan == r.plan
    ensures |known[r.job].rules| == |rules| && forall i :: 0 <= i < |rules| ==> known[r.job].rules[i]
  {
    hide Policy;
    assert Name(r.job, Intent).job in Jobs(j);
    assert Summarises(known[r.job], j, rules, r.job);
  }

  /** The safety of every crash state: nothing precedes the owner record, and every
      command the helper ever issued has its durable rule intent, behind a durable job intent. */
  ghost predicate Safe(owner: Option<Slot<Owner>>, j: Journal, issued: seq<Issue>) {
    match owner
    case Some(Whole(o)) =>
      && o.definition.Valid()
      && Consistent(j, o, Policy(o.definition))
      && (forall e :: e in issued ==> WholeAt(j, Name(e.job, Rule(e.index))) && WholeAt(j, Name(e.job, Intent)))
    case _ => j == map[] && issued == []
  }

  lemma SafeWrite(o: Owner, j: Journal, issued: seq<Issue>, name: Name, slot: Slot<Record>)
    requires Safe(Some(Whole(o)), j, issued) && name !in j && Consistent(j[name := slot], o, Policy(o.definition))
    ensures Safe(Some(Whole(o)), j[name := slot], issued)
  {
    hide Consistent;
  }

  lemma SafeIssue(o: Owner, j: Journal, issued: seq<Issue>, e: Issue)
    requires Safe(Some(Whole(o)), j, issued) && WholeAt(j, Name(e.job, Rule(e.index)))
    ensures Safe(Some(Whole(o)), j, issued + [e])
  {
    var name := Name(e.job, Rule(e.index));
    assert name in j && WholeAt(j, Name(name.job, Intent));
    hide Consistent;
  }

  /** On the bridge only the policy's rules, and every one of them behind an intent of some job. */
  ghost predicate Trusted(d: Definition, inventory: Inventory, j: Journal)
    requires d.Valid()
  {
    && OnlyPolicyOn(d.bridge, Policy(d), inventory)
    && forall i: nat :: i < |Policy(d)| && In(inventory, Policy(d), i) ==> Owned(j, i)
  }

  // The rule loop, over values

  /** After i turns of a fresh job: its intents so far, the inventory expected now, and what was done meanwhile. */
  ghost predicate Turned(r: Request, start: Inventory, i: nat, was: World, now: World, inventory: Inventory, calm: bool,
      quiet: bool)
    requires r.owner.definition.Valid() && i <= |r.Rules()|
  {
    && Underway(now.records, r, i) && now.records == Finished(was.records, r, i)
    && OnlyAdds(was.records, now.records, r.job) && OnlyIssues(was.issued, now.issued, r.job)
    && inventory == PutUpTo(start, r.Rules(), i)
    && (calm ==> CalmStep(r.owner.definition, was, now))
    && (quiet && start == was.firewall && Acceptable(r.owner.definition, start) ==>
      inventory == now.firewall && now.issued == was.issued + Commands(start, r.Rules(), r.job, i))
  }

  lemma FirstTurn(r: Request, start: Inventory, was: World, calm: bool, quiet: bool)
    requires r.Admitted() && Underway(was.records, r, 0)
    ensures Turned(r, start, 0, was, was, start, calm, quiet)
  {
    hide Policy, PlanDigest, Underway, Finished, Clean, Acceptable;
    FinishedZero(was.records, r);
    NoChange(was.records, was.issued, r.job);
    GrowsNot(r.owner.definition, was.firewall);
  }

  lemma TurnMeans(r: Request, start: Inventory, i: nat, was: World, now: World, inventory: Inventory, calm: bool,
      quiet: bool)
    requires r.owner.definition.Valid() && i <= |r.Rules()| && Turned(r, start, i, was, now, inventory, calm, quiet)
    ensures Underway(now.records, r, i) && now.records == Finished(was.records, r, i)
    ensures OnlyAdds(was.records, now.records, r.job) && OnlyIssues(was.issued, now.issued, r.job)
    ensures inventory == PutUpTo(start, r.Rules(), i) && (calm ==> CalmStep(r.owner.definition, was, now))
    ensures quiet && start == was.firewall && Acceptable(r.owner.definition, start) ==>
      && inventory == now.firewall && now.issued == was.issued + Commands(start, r.Rules(), r.job, i)
      && Acceptable(r.owner.definition, inventory)
    ensures i < |r.Rules()| ==> (In(inventory, r.Rules(), i) <==> In(start, r.Rules(), i))
  {
    hide Policy, RuleLine, Underway, Finished, OnlyAdds, OnlyIssues, CalmStep, Acceptable, In, Put, Commands;
    PolicyIsApart(r.owner.definition);
    if Acceptable(r.owner.definition, start) { StaysAcceptable(r.owner.definition, start, r.Rules(), i); }
    if i < |r.Rules()| { PutKeepsOthers(start, r.Rules(), i, i); }
  }

  lemma TurnStops(r: Request, start: Inventory, i: nat, was: World, before: World, now: World, inventory: Inventory,
      calm: bool, quiet: bool)
    requires r.owner.definition.Valid() && i <= |r.Rules()| && Turned(r, start, i, was, before, inventory, calm, quiet)
    requires OnlyAdds(before.records, now.records, r.job) && OnlyIssues(before.issued, now.issued, r.job)
    requires calm ==> CalmStep(r.owner.definition, before, now)
    ensures OnlyAdds(was.records, now.records, r.job) && OnlyIssues(was.issued, now.issued, r.job)
    ensures calm ==> CalmStep(r.owner.definition, was, now)
  {
    hide Policy, Underway, Finished, OnlyAdds, Clean, GrowsBy, Commands, PutUpTo, Acceptable;
    AddsTransitive(was.records, before.records, now.records, r.job);
    if calm { GrowsTransitive(r.owner.definition, was.firewall, before.firewall, now.firewall); }
  }

  lemma NextTurn(r: Request, start: Inventory, i: nat, was: World, before: World, now: World, inventory: Inventory,
      calm: bool, quiet: bool)
    requires r.owner.definition.Valid() && i < |r.Rules()| && Turned(r, start, i, was, before, inventory, calm, quiet)
    requires OnlyAdds(before.records, now.records, r.job) && OnlyIssues(before.issued, now.issued, r.job)
    requires calm ==> CalmStep(r.owner.definition, before, now)
    requires Underway(now.records, r, i + 1) && now.records ==
      before.records[Name(r.job, Rule(i)) := Whole(Expected(r.owner, r.Rules(), Name(r.job, Rule(i)), r.plan))]
    requires quiet && inventory == before.firewall && Acceptable(r.owner.definition, inventory) ==>
      && now.firewall == Put(inventory, r.Rules(), i)
      && now.issued == before.issued +
        (if In(start, r.Rules(), i) then [] else [Issue(r.job, i, In(inventory, r.Rules(), i))])
    ensures Turned(r, start, i + 1, was, now,
      if In(start, r.Rules(), i) then inventory else Put(inventory, r.Rules(), i), calm, quiet)
  {
    hide Policy, RuleLine, Underway, Finished, OnlyAdds, OnlyIssues, CalmStep, Acceptable, In, Put;
    TurnMeans(r, start, i, was, before, inventory, calm, quiet);
    TurnStops(r, start, i, was, before, now, inventory, calm, quiet);
    FinishedStep(was.records, r, i);
    if In(start, r.Rules(), i) { PutPresent(inventory, r.Rules(), i); }
  }

  /** A network nobody owns yet, or this owner does. */
  predicate Ours(owner: Option<Slot<Owner>>, o: Owner) { owner.None? || owner == Some(Whole(o)) }

  class Helper {
    var owner: Option<Slot<Owner>>
    var records: Journal
    var foreign: nat
    var firewall: Inventory
    var kernel: Snapshot
    /** What firewalld last listed. */
    var listed: Inventory
    /** Nobody else changes the firewall. */
    const calm: bool
    ghost var issued: seq<Issue>
    /** Every inventory listed, in order. */
    ghost var looks: seq<Inventory>
    /** How many commands were never acknowledged. */
    ghost var unanswered: nat

    ghost predicate Valid()
      reads this
    {
      Safe(owner, records, issued)
    }

    function Entries(): nat
      reads this
    {
      foreign + |records| + (if owner.Some? then 1 else 0)
    }

    predicate HasTorn()
      reads this
    {
      owner == Some(Torn) || !NoneTorn(records)
    }

    /** A readable network within the limits, on an acceptable firewall in which every
        policy rule already present belongs to an earlier job of this network. */
    ghost predicate Readable(r: Request)
      reads this
    {
      && r.Admitted()
      && Ours(owner, r.owner)
      && NoneTorn(records) && |Jobs(records)| <= MAX_JOBS && Entries() <= MAX_ENTRIES
      && Clean(r.owner.definition, firewall, records)
    }

    /** A fresh apply job of a readable network. */
    ghost predicate Ready(r: Request)
      reads this
    {
      Readable(r) && r.mode == Apply && r.job !in Jobs(records)
    }

    /** An observation of a job with a durable intent for every rule, all of which are present. */
    ghost predicate Observable(r: Request)
      reads this
    {
      && Readable(r) && r.mode == Observe && Recorded(records, r)
      && forall i: nat :: i < |r.Rules()| ==> In(firewall, r.Rules(), i)
    }

    /** In calm times the firewall changes only by commands, and a clean firewall stays clean. */
    twostate predicate Calmly(d: Definition)
      requires d.Valid()
      reads this
    {
      calm ==> CalmStep(d, old(Now()), Now())
    }

    ghost function Now(): World
      reads this
    {
      World(records, firewall, issued)
    }

    // The environment

    /** Others may change the firewall at any time. */
    method Weather(quiet: bool)
      modifies this`firewall
      ensures quiet || calm ==> firewall == old(firewall)
    {
      var other: Inventory := *;
      if !quiet && !calm { firewall := other; }
    }

    /** Any step may fail or be the last one before a crash. */
    method Stops(quiet: bool) returns (stop: bool)
      ensures quiet ==> !stop
    {
      stop := *;
      if quiet { stop := false; }
    }

    method ReadInventory(quiet: bool) returns (inventory: Option<Inventory>)
      modifies this`firewall, this`listed, this`looks
      ensures quiet || calm ==> firewall == old(firewall)
      ensures quiet ==> inventory == Some(firewall)
      ensures inventory.Some? ==> inventory.value == firewall == listed
      ensures looks == if inventory.Some? then old(looks) + [inventory.value] else old(looks)
    {
      Weather(quiet);
      var stop := Stops(quiet);
      if stop { return None; }
      listed := firewall;
      looks := looks + [listed];
      inventory := Some(listed);
    }

    /** queryAll: each rule is asked for on its own and must agree with the inventory. */
    method QueryAll(rules: seq<Args>, inventory: Inventory, quiet: bool) returns (present: Option<seq<bool>>)
      modifies this`firewall
      ensures present.Some? ==>
        |present.value| == |rules| && forall i: nat :: i < |rules| ==> present.value[i] == In(inventory, rules, i)
      ensures quiet || calm ==> firewall == old(firewall)
      ensures quiet && inventory == firewall ==> present.Some?
      ensures (quiet || calm) && present.Some? ==>
        forall i: nat :: i < |rules| ==> (In(firewall, rules, i) <==> In(inventory, rules, i))
    {
      var found: seq<bool> := [];
      for i := 0 to |rules|
        invariant |found| == i && forall k: nat :: k < i ==> found[k] == In(inventory, rules, k)
        invariant quiet || calm ==> firewall == old(firewall)
        invariant quiet || calm ==> forall k: nat :: k < i ==> (In(firewall, rules, k) <==> In(inventory, rules, k))
      {
        Weather(quiet);
        var stop := Stops(quiet);
        if stop || In(firewall, rules, i) != In(inventory, rules, i) { return None; }
        found := found + [In(inventory, rules, i)];
      }
      return Some(found);
    }

    /** Two passes over the kernel's chains, whatever they print; in a quiet call the kernel mirrors the inventory. */
    method ReadKernel(inventory: Inventory, quiet: bool) returns (passes: seq<Snapshot>)
      modifies this`kernel
      ensures |passes| == 2 ==>
        passes[1] == kernel && forall i :: 0 <= i < 2 ==> |passes[i].input| > 0 && |passes[i].direct| > 0
      ensures quiet && Comparable(inventory) ==>
        |passes| == 2 && passes[0] == passes[1] && forall e :: IsExpected(e, inventory.runtime) ==> kernel.Accepted(e)
      ensures Comparable(inventory) ==> exists e :: IsExpected(e, inventory.runtime)
    {
      passes := *;
      var expected := ProtectedKernelExpected(inventory);
      if quiet && expected.Some? {
        var mirror := MirrorKernel(inventory);
        passes := [mirror, mirror];
      }
      if |passes| != 2 || exists i :: 0 <= i < 2 && (passes[i].input == [] || passes[i].direct == []) { return []; }
      kernel := passes[1];
    }

    /** protectedKernel. */
    method ProtectedKernelHolds(d: Definition, inventory: Inventory, quiet: bool) returns (ok: bool)
      requires d.Valid()
      modifies this`kernel
      ensures quiet && (d.PolicyVersion() == 1 || Comparable(inventory)) ==> ok
      ensures ok && d.PolicyVersion() != 1 ==> Comparable(inventory) && Shows(kernel, inventory)
    {
      if d.PolicyVersion() == 1 { return true; }
      var passes := ReadKernel(inventory, quiet);
      if |passes| != 2 { return false; }
      var expected := ProtectedKernel(inventory, passes);
      var stop := Stops(quiet);
      return expected.Some? && !stop;
    }

    /** finalProtectedPolicy. */
    method FinalPolicyHolds(d: Definition, inventory: Inventory, quiet: bool) returns (ok: bool)
      requires d.Valid()
      modifies this`firewall, this`listed, this`looks, this`kernel
      ensures quiet || calm ==> firewall == old(firewall)
      ensures quiet && inventory == firewall && (d.PolicyVersion() == 1 || Comparable(inventory)) ==> ok
      ensures ok && d.PolicyVersion() != 1 ==>
        firewall == inventory && Comparable(inventory) && Shows(kernel, inventory)
      ensures ok && inventory == old(listed) ==> listed == old(listed)
      ensures old(looks) <= looks
    {
      if d.PolicyVersion() == 1 { return true; }
      var current := ReadInventory(quiet);
      if current != Some(inventory) { return false; }
      ok := ProtectedKernelHolds(d, inventory, quiet);
    }

    /** For a protected policy: what the kernel last printed was acceptable for an inventory. */
    ghost predicate KernelAnswers(d: Definition, inventory: Inventory)
      reads this
    {
      d.PolicyVersion() != 1 ==> Comparable(inventory) && Shows(kernel, inventory)
    }

    // Durable writes

    /** A record is created exclusively; a failed write may leave nothing, a torn or a whole record. */
    method Write(name: Name, record: Record, quiet: bool) returns (ok: bool)
      modifies this`records
      ensures name in old(records) ==> !ok && records == old(records)
      ensures name !in old(records) && !ok ==>
        records == old(records) || records == old(records)[name := Torn]
          || records == old(records)[name := Whole(record)]
      ensures name !in old(records) && ok ==> records == old(records)[name := Whole(record)]
      ensures quiet && name !in old(records) ==> ok
    {
      var stop := Stops(quiet);
      if name in records || stop { return false; }
      records := records[name := Torn];
      stop := Stops(quiet);
      if stop { return false; }
      records := records[name := Whole(record)];
      stop := Stops(quiet);
      return !stop;
    }

    method WriteOwner(o: Owner, quiet: bool) returns (ok: bool)
      requires owner.None?
      modifies this`owner
      ensures owner.None? || owner == Some(Torn) || owner == Some(Whole(o))
      ensures ok ==> owner == Some(Whole(o))
      ensures quiet ==> ok
    {
      var stop := Stops(quiet);
      if stop { return false; }
      owner := Some(Torn);
      stop := Stops(quiet);
      if stop { return false; }
      owner := Some(Whole(o));
      stop := Stops(quiet);
      return !stop;
    }

    /** The add-only firewall command: acknowledged or not, it adds at most this rule. */
    method AddRule(job: string, rules: seq<Args>, i: nat, quiet: bool, ghost o: Owner) returns (ok: bool)
      requires i < |rules| && owner == Some(Whole(o)) && Valid() && WholeAt(records, Name(job, Rule(i)))
      modifies this`firewall, this`issued, this`unanswered
      ensures Valid() && |issued| == |old(issued)| + 1 && issued[|old(issued)|].job == job && old(issued) <= issued
      ensures calm ==> firewall == old(firewall) || firewall == Put(old(firewall), rules, i)
      ensures quiet ==> ok && firewall == Put(old(firewall), rules, i)
      ensures unanswered == old(unanswered) + if ok then 0 else 1
      ensures quiet ==> issued == old(issued) + [Issue(job, i, In(old(firewall), rules, i))]
    {
      Weather(quiet);
      ghost var present := In(firewall, rules, i);
      SafeIssue(o, records, issued, Issue(job, i, present));
      hide Safe;
      issued := issued + [Issue(job, i, present)];
      var stop := Stops(quiet);
      if !stop { firewall := Put(firewall, rules, i); }
      var unacknowledged := Stops(quiet);
      ok := !stop && !unacknowledged;
      unanswered := unanswered + if ok then 0 else 1;
    }

    /** The durable intent of one rule. */
    method IntendRule(r: Request, rules: seq<Args>, i: nat, quiet: bool) returns (ok: bool)
      requires r.Admitted() && rules == r.Rules() && i < |rules|
      requires owner == Some(Whole(r.owner)) && Valid() && Underway(records, r, i)
      modifies this`records
      ensures Valid() && OnlyAdds(old(records), records, r.job)
      ensures ok ==>
        records == old(records)[Name(r.job, Rule(i)) := Whole(Expected(r.owner, rules, Name(r.job, Rule(i)), r.plan))]
      ensures ok ==> Underway(records, r, i + 1) && WholeAt(records, Name(r.job, Rule(i)))
      ensures ok ==> records[Name(r.job, Rule(i))] == Whole(Record(r.owner, r.job, r.plan, Rule(i), rules[i]))
      ensures quiet ==> ok
    {
      hide Policy, Consistent, Underway, PlanDigest;
      var name := Name(r.job, Rule(i));
      var whole := Whole(Expected(r.owner, rules, name, r.plan));
      NextIntent(records, r, i, Torn);
      NextIntent(records, r, i, whole);
      SafeWrite(r.owner, records, issued, name, Torn);
      SafeWrite(r.owner, records, issued, name, whole);
      hide Safe;
      ok := Write(name, whole.value, quiet);
    }

    /** One turn of the rule loop: a fresh look, a durable intent, the command if needed, a query. */
    method ApplyRule(r: Request, rules: seq<Args>, i: nat, inventory: Inventory, shown: bool, quiet: bool)
      returns (ok: bool)
      requires r.Admitted() && rules == r.Rules() && i < |rules|
      requires owner == Some(Whole(r.owner)) && Valid() && Underway(records, r, i)
      requires shown ==> In(inventory, rules, i)
      modifies this`records, this`firewall, this`listed, this`looks, this`kernel, this`issued, this`unanswered
      ensures Calmly(r.owner.definition)
      ensures Valid() && OnlyAdds(old(records), records, r.job) && OnlyIssues(old(issued), issued, r.job)
      ensures ok ==>
        records == old(records)[Name(r.job, Rule(i)) := Whole(Expected(r.owner, rules, Name(r.job, Rule(i)), r.plan))]
      ensures ok ==> Underway(records, r, i + 1) && unanswered == old(unanswered)
      // An intent, and so a command, only right after a listing as expected and an accepted kernel.
      ensures old(looks) <= looks
      ensures records != old(records) ==> listed == inventory && KernelAnswers(r.owner.definition, inventory)
      ensures quiet && inventory == old(firewall) && Acceptable(r.owner.definition, inventory) ==>
        && ok && firewall == Put(inventory, rules, i)
        && issued == old(issued) + (if shown then [] else [Issue(r.job, i, In(inventory, rules, i))])
    {
      hide Policy, RuleLine, Underway, PlanDigest, Safe, OnlyAdds, OnlyIssues, OnlyPolicyOn, Comparable, CalmStep, In,
        Put, Shows, Acceptable;
      ghost var d, start := r.owner.definition, Now();
      NoChange(records, issued, r.job);
      ok := LookAndIntend(r, rules, i, inventory, quiet);
      if !ok { return; }
      ghost var was := Now();
      ok := PutRule(r, rules, i, shown, quiet);
      IssuesGrow(was.issued, issued, r.job);
      if calm { CalmTwice(d, start, was, Now()); }
      if shown && In(inventory, rules, i) { PutPresent(inventory, rules, i); }
    }

    /** A fresh look that must be as expected, and then the durable intent. */
    method LookAndIntend(r: Request, rules: seq<Args>, i: nat, inventory: Inventory, quiet: bool) returns (ok: bool)
      requires r.Admitted() && rules == r.Rules() && i < |rules|
      requires owner == Some(Whole(r.owner)) && Valid() && Underway(records, r, i)
      modifies this`records, this`firewall, this`listed, this`looks, this`kernel
      ensures Calmly(r.owner.definition)
      ensures Valid() && OnlyAdds(old(records), records, r.job) && old(looks) <= looks
      ensures ok ==>
        records == old(records)[Name(r.job, Rule(i)) := Whole(Expected(r.owner, rules, Name(r.job, Rule(i)), r.plan))]
      ensures ok ==> Underway(records, r, i + 1) && WholeAt(records, Name(r.job, Rule(i)))
      ensures records != old(records) ==> listed == inventory && KernelAnswers(r.owner.definition, inventory)
      ensures quiet && inventory == old(firewall) && Acceptable(r.owner.definition, inventory) ==>
        ok && firewall == inventory
    {
      hide Policy, RuleLine, Consistent, Underway, PlanDigest, Safe, OnlyAdds, OnlyPolicyOn, Comparable, Clean;
      ghost var d, before := r.owner.definition, records;
      NoChange(records, issued, r.job);
      GrowsNot(d, firewall);
      var stop := Stops(quiet);
      if stop { return false; }
      var current := ReadInventory(quiet);
      if current != Some(inventory) { return false; }
      var held := ProtectedKernelHolds(r.owner.definition, inventory, quiet);
      if !held { return false; }
      var written := IntendRule(r, rules, i, quiet);
      if Clean(d, firewall, before) { CleanAdded(d, firewall, before, records, r.job); }
      if !written { return false; }
      stop := Stops(quiet);
      return !stop;
    }

    /** The command, if the rule is absent, and the query that must then find it. */
    method PutRule(r: Request, rules: seq<Args>, i: nat, shown: bool, quiet: bool) returns (ok: bool)
      requires r.Admitted() && rules == r.Rules() && i < |rules|
      requires owner == Some(Whole(r.owner)) && Valid() && WholeAt(records, Name(r.job, Rule(i)))
      modifies this`firewall, this`issued, this`unanswered
      ensures Calmly(r.owner.definition)
      ensures Valid() && OnlyIssues(old(issued), issued, r.job)
      ensures ok ==> unanswered == old(unanswered)
      ensures quiet && (shown ==> In(old(firewall), rules, i)) ==>
        && ok && firewall == (if shown then old(firewall) else Put(old(firewall), rules, i))
        && issued == old(issued) + (if shown then [] else [Issue(r.job, i, In(old(firewall), rules, i))])
    {
      hide Policy, RuleLine, Safe, Clean, PlanDigest;
      ghost var d := r.owner.definition;
      NoChange(records, issued, r.job);
      GrowsNot(d, firewall);
      if !shown {
        assert Owned(records, i);
        if Clean(d, firewall, records) { CleanStep(d, firewall, records, i); }
        GrowsByOne(d, firewall, i);
        var added := AddRule(r.job, rules, i, quiet, r.owner);
        if !added { return false; }
      }
      Weather(quiet);
      ok := In(firewall, rules, i);
    }

    /** The rule loop. */
    method ApplyRules(r: Request, rules: seq<Args>, start: Inventory, shown: seq<bool>, quiet: bool)
      returns (ok: bool, inventory: Inventory)
      requires r.Admitted() && rules == r.Rules() && owner == Some(Whole(r.owner)) && Valid() && Underway(records, r, 0)
      requires |shown| == |rules| && forall i: nat :: i < |rules| ==> shown[i] == In(start, rules, i)
      modifies this`records, this`firewall, this`listed, this`looks, this`kernel, this`issued, this`unanswered
      ensures Calmly(r.owner.definition)
      ensures ok ==> inventory == PutUpTo(start, rules, |rules|)
      ensures old(looks) <= looks && (ok ==> unanswered == old(unanswered))
      ensures Valid() && OnlyAdds(old(records), records, r.job) && OnlyIssues(old(issued), issued, r.job)
      ensures ok ==> Underway(records, r, |rules|) && records == Finished(old(records), r, |rules|)
      ensures quiet && start == old(firewall) && Acceptable(r.owner.definition, start) ==>
        ok && inventory == firewall == PutUpTo(start, rules, |rules|)
          && issued == old(issued) + Commands(start, rules, r.job, |rules|)
    {
      hide Policy, RuleLine, PlanDigest, Acceptable, Put, Safe, OnlyAdds, OnlyIssues, Underway, Finished, In, CalmStep,
        Turned;
      ghost var was := Now();
      inventory := start;
      FirstTurn(r, start, was, calm, quiet);
      for i := 0 to |rules|
        invariant Valid() && Turned(r, start, i, was, Now(), inventory, calm, quiet)
        invariant old(looks) <= looks && unanswered == old(unanswered)
      {
        ghost var before := Now();
        TurnMeans(r, start, i, was, before, inventory, calm, quiet);
        var applied := ApplyRule(r, rules, i, inventory, shown[i], quiet);
        TurnStops(r, start, i, was, before, Now(), inventory, calm, quiet);
        if !applied { return false, inventory; }
        NextTurn(r, start, i, was, before, Now(), inventory, calm, quiet);
        if !shown[i] { inventory := Put(inventory, rules, i); }
      }
      TurnMeans(r, start, |rules|, was, Now(), inventory, calm, quiet);
      ok := true;
    }

    /** The owner record, if there is none yet, and the job's intent. */
    method IntendJob(r: Request, rules: seq<Args>, quiet: bool) returns (ok: bool)
      requires r.Admitted() && rules == r.Rules() && Valid() && r.job !in Jobs(records)
      requires Ours(owner, r.owner)
      modifies this`owner, this`records
      ensures Calmly(r.owner.definition)
      ensures Valid() && OnlyAdds(old(records), records, r.job)
      ensures old(owner).Some? ==> owner == old(owner)
      ensures old(owner).None? && owner != Some(Whole(r.owner)) ==> records == old(records)
      ensures ok ==>
        owner == Some(Whole(r.owner)) && Underway(records, r, 0) && records == Finished(old(records), r, 0)
      ensures quiet ==> ok
    {
      hide Policy, RuleLine, PlanDigest, Consistent, Underway, Finished, OnlyAdds, Clean, GrowsBy;
      ghost var d, before := r.owner.definition, records;
      GrowsNot(d, firewall);
      NoChange(records, issued, r.job);
      if owner.None? {
        var published := WriteOwner(r.owner, quiet);
        EmptyIsConsistent(r.owner, rules);
        if !published { return false; }
      }
      assert Consistent(records, r.owner, rules);
      var name := Name(r.job, Intent);
      var whole := Whole(Expected(r.owner, rules, name, r.plan));
      FirstIntent(records, r, Torn);
      FirstIntent(records, r, whole);
      SafeWrite(r.owner, records, issued, name, Torn);
      SafeWrite(r.owner, records, issued, name, whole);
      AddsOne(records, name, Torn);
      AddsOne(records, name, whole);
      hide Safe;
      ok := Write(name, whole.value, quiet);
      if Clean(d, firewall, before) { CleanAdded(d, firewall, before, records, r.job); }
    }

    /** The writing part of an apply call. */
    method ApplyJob(r: Request, rules: seq<Args>, start: Inventory, shown: seq<bool>, quiet: bool)
      returns (response: Response)
      requires r.Admitted() && rules == r.Rules() && Valid() && r.job !in Jobs(records)
      requires Ours(owner, r.owner)
      requires |shown| == |rules| && forall i: nat :: i < |rules| ==> shown[i] == In(start, rules, i)
      modifies this`owner, this`records, this`firewall, this`listed, this`looks, this`kernel, this`issued,
        this`unanswered
      ensures Calmly(r.owner.definition)
      ensures Valid() && OnlyAdds(old(records), records, r.job) && OnlyIssues(old(issued), issued, r.job)
      ensures old(owner).Some? ==> owner == old(owner)
      ensures old(owner).None? && owner != Some(Whole(r.owner)) ==> records == old(records) && issued == old(issued)
      ensures response.Done? ==>
        response == Done(true, true) && owner == Some(Whole(r.owner)) && records == Closed(old(records), r)
      ensures Reports(response, r.owner.definition, listed)
      ensures response.Done? && (quiet || calm) ==> firewall == listed
      ensures old(looks) <= looks && (response.Done? ==> unanswered == old(unanswered))
      ensures (response.Done? && r.owner.definition.Protected()
        && OnlyPolicyOn(r.owner.definition.bridge, rules, start)) ==>
        Enforces(kernel, r.owner.definition)
      ensures quiet && start == old(firewall) && Acceptable(r.owner.definition, start) ==>
        && response == Done(true, true) && firewall == PutUpTo(start, rules, |rules|)
        && issued == old(issued) + Commands(start, rules, r.job, |rules|)
    {
      hide Policy, RuleLine, PlanDigest, Consistent, Underway, Finished, OnlyAdds, OnlyIssues, Acceptable, Clean,
        OnlyPolicyOn, Comparable, In, Enforces, GrowsBy, PutUpTo, Commands, Safe;
      ghost var d := r.owner.definition;
      NoChange(records, issued, r.job);
      var intended := IntendJob(r, rules, quiet);
      if !intended { return Refused; }
      ghost var j, e := records, issued;
      var ok, inventory := ApplyRules(r, rules, start, shown, quiet);
      AddsTransitive(old(records), j, records, r.job);
      IssuesGrow(e, issued, r.job);
      if !ok { return Refused; }
      FinishedTwice(old(records), r);
      if Acceptable(r.owner.definition, start) { StaysAcceptable(r.owner.definition, start, rules, |rules|); }
      if OnlyPolicyOn(d.bridge, rules, start) { StaysSelected(d, start, rules); }
      j := records;
      response := Complete(r, rules, start, inventory, quiet);
      if Clean(d, firewall, j) { CleanAdded(d, firewall, j, records, r.job); }
      AddsTransitive(old(records), Finished(old(records), r, |rules|), records, r.job);
    }

    /** After the last rule: everything is looked at once more before the completion record. */
    method Complete(r: Request, rules: seq<Args>, ghost start: Inventory, inventory: Inventory, quiet: bool)
      returns (response: Response)
      requires r.Admitted() && rules == r.Rules() && owner == Some(Whole(r.owner)) && Valid()
        && Underway(records, r, |rules|)
      modifies this`records, this`firewall, this`listed, this`looks, this`kernel
      ensures calm ==> firewall == old(firewall)
      ensures Valid() && OnlyAdds(old(records), records, r.job)
      ensures response.Done? ==> response == Done(true, true)
      ensures Reports(response, r.owner.definition, listed)
      ensures response.Done? && (quiet || calm) ==> firewall == listed
      ensures old(looks) <= looks && (response.Done? ==> unanswered == old(unanswered))
      ensures (response.Done? && r.owner.definition.Protected()
        && OnlyPolicyOn(r.owner.definition.bridge, rules, inventory)) ==>
        Enforces(kernel, r.owner.definition)
      ensures response.Done? ==>
        records == old(records)[Name(r.job, NetworkJournal.Complete) :=
          Whole(Expected(r.owner, rules, Name(r.job, NetworkJournal.Complete), r.plan))]
      ensures (quiet && inventory == old(firewall) == PutUpTo(start, rules, |rules|)
        && Acceptable(r.owner.definition, inventory)) ==>
        response == Done(true, true) && firewall == old(firewall)
    {
      hide Policy, RuleLine, PlanDigest, Consistent, Underway, OnlyAdds, OnlyPolicyOn, Comparable, In, Enforces, Shows;
      PolicyIsApart(r.owner.definition);
      forall i: nat | i < |rules| && inventory == PutUpTo(start, rules, |rules|) ensures In(inventory, rules, i) {
        PutKeepsOthers(start, rules, |rules|, i);
      }
      NoChange(records, issued, r.job);
      var current := ReadInventory(quiet);
      if current != Some(inventory) { return Refused; }
      var present := QueryAll(rules, inventory, quiet);
      if present.None? || !(forall i :: 0 <= i < |rules| ==> present.value[i]) { return Refused; }
      var stop := Stops(quiet);
      if stop { return Refused; }
      var held := FinalPolicyHolds(r.owner.definition, inventory, quiet);
      if !held { return Refused; }
      KernelEnforces(r.owner.definition, inventory, kernel);
      AnswerIsTrue(r.owner.definition, inventory, present.value);
      assert Answer(present.value) == Done(true, true);
      hide Answer;
      var name := Name(r.job, NetworkJournal.Complete);
      var whole := Whole(Expected(r.owner, rules, name, r.plan));
      LastRecord(records, r, Torn);
      LastRecord(records, r, whole);
      SafeWrite(r.owner, records, issued, name, Torn);
      SafeWrite(r.owner, records, issued, name, whole);
      AddsOne(records, name, Torn);
      AddsOne(records, name, whole);
      hide Safe;
      var written := Write(name, whole.value, quiet);
      stop := Stops(quiet);
      if !written || stop { return Refused; }
      return Done(true, true);
    }

    /** One call of the helper, from the request to the answer. */
    method Execute(r: Request, quiet: bool) returns (response: Response)
      requires Valid()
      modifies this`owner, this`records, this`firewall, this`listed, this`looks, this`kernel, this`issued,
        this`unanswered
      ensures Valid() && OnlyAdds(old(records), records, r.job) && OnlyIssues(old(issued), issued, r.job)
      ensures old(owner).Some? ==> owner == old(owner)
      ensures old(owner).None? && owner != Some(Whole(r.owner)) ==> records == old(records) && issued == old(issued)
      // In calm times the firewall changes only by commands, and stays clean wherever the call is cut short.
      ensures calm && issued == old(issued) ==> firewall == old(firewall)
      ensures r.owner.definition.Valid() ==> Calmly(r.owner.definition)
      // Only an apply call writes or commands anything, and only for a new job.
      ensures r.mode != Apply || r.job in Jobs(old(records)) ==>
        owner == old(owner) && records == old(records) && issued == old(issued)
      ensures r.mode == Apply && r.job in Jobs(old(records)) ==> response == Refused
      // A torn record, a foreign owner or a full history makes every call refuse without effect.
      ensures old(HasTorn()) || !Ours(old(owner), r.owner) || |Jobs(old(records))| > MAX_JOBS ==>
        response == Refused && owner == old(owner) && records == old(records) && issued == old(issued)
      ensures response.Done? && r.mode == Apply ==>
        response == Done(true, true) && r.Admitted() && owner == Some(Whole(r.owner))
          && records == Closed(old(records), r)
      ensures response.Done? && r.mode == Observe ==>
        response == Done(true, true) && r.Admitted() && Recorded(records, r)
      // Nothing is answered, recorded or issued unless the first listing has on the bridge only the policy's rules,
      // each
      // behind an intent of an earlier job. A call that completes had every command acknowledged.
      ensures old(looks) <= looks && (response.Done? ==> unanswered == old(unanswered))
      ensures response.Done? || owner != old(owner) || records != old(records) || issued != old(issued) ==>
        && r.owner.definition.Valid() && |old(looks)| < |looks|
        && Trusted(r.owner.definition, looks[|old(looks)|], old(records))
      // What is answered is true of the inventory listed last, and in a quiet call or calm times of the firewall.
      ensures r.owner.definition.Valid() ==> Reports(response, r.owner.definition, listed)
      ensures response.Done? && (quiet || calm) ==> firewall == listed
      // A quiet check, and a quiet observation of a job all of whose rules are present, is answered.
      ensures quiet && r.mode == Check && old(Readable(r)) ==> response.Done?
      ensures quiet && old(Observable(r)) ==> response.Done?
      // A completed protected policy, applied or observed, is enforced by what the kernel last printed.
      ensures response.Done? && r.mode != Check && r.owner.definition.Protected() ==>
        Enforces(kernel, r.owner.definition)
      // A fresh job in a quiet environment completes and unites the firewall with the policy.
      ensures quiet && old(Ready(r)) ==>
        && response == Done(true, true)
        && firewall == PutUpTo(old(firewall), r.Rules(), |r.Rules()|)
        && issued == old(issued) + Commands(old(firewall), r.Rules(), r.job, |r.Rules()|)
    {
      hide Policy, RuleLine, PlanDigest, Consistent, OnlyAdds, OnlyIssues, Closed, In, Put, PutUpTo, Commands, Safe,
        Jobs, SummarisesAll, OnlyPolicyOn, Comparable, Owned, Clean, Enforces, Shows, GrowsBy, Trusted;
      NoChange(records, issued, r.job);
      var rules, known, shown := Look(r, quiet);
      if calm && r.owner.definition.Valid() { CalmRest(r.owner.definition, old(Now()), Now()); }
      if shown.None? { return Refused; }
      CleanMeans(r.owner.definition, firewall, records);
      if r.mode == Apply {
        response := ApplyJob(r, rules, shown.value.0, shown.value.1, quiet);
      } else {
        response := Report(r, rules, known, shown.value.0, shown.value.1, quiet);
      }
    }

    /** What precedes every answer and every effect: the request, the journal, and the look at the firewall. */
    method Look(r: Request, quiet: bool)
      returns (rules: seq<Args>, known: map<string, JobHistory>, shown: Option<(Inventory, seq<bool>)>)
      requires Valid()
      modifies this`firewall, this`listed, this`looks, this`kernel
      ensures old(looks) <= looks && (quiet || calm ==> firewall == old(firewall))
      ensures shown.Some? ==>
        && r.Admitted() && rules == r.Rules() && Ours(owner, r.owner) && !HasTorn() && |Jobs(records)| <= MAX_JOBS
        && SummarisesAll(known, records, rules) && (r.mode == Apply ==> r.job !in Jobs(records))
      ensures shown.Some? ==>
        && OnlyPolicyOn(r.owner.definition.bridge, rules, shown.value.0) && |shown.value.1| == |rules|
        && forall i: nat :: i < |rules| ==> shown.value.1[i] == In(shown.value.0, rules, i)
      ensures shown.Some? ==>
        && listed == shown.value.0 && (quiet || calm ==> listed == firewall)
        && |old(looks)| < |looks| && looks[|old(looks)|] == shown.value.0
        && Trusted(r.owner.definition, shown.value.0, records)
      ensures quiet && old(Readable(r)) && (r.mode == Apply ==> r.job !in Jobs(records)) ==>
        shown.Some? && shown.value.0 == firewall
    {
      hide Policy, RuleLine, PlanDigest, Consistent, In, Safe, Jobs, SummarisesAll, OnlyPolicyOn, Comparable, Owned,
        Clean, Shows;
      CleanMeans(r.owner.definition, firewall, records);
      rules, known, shown := [], map[], None;
      if !r.Admitted() { return; }
      rules := NetworkPolicyRules(r.owner.definition);
      var history, owned := Open(r, rules, quiet);
      if history.None? { return; }
      known := history.value;
      if r.mode == Apply && r.job in known && known[r.job].intended { return; }
      if r.mode != Check {
        var stop := Stops(quiet);
        if stop { return; }
      }
      shown := Inspect(r, rules, owned, quiet);
    }

    /** Any sequence of calls, each cut short anywhere: the journal stays safe and nothing durable is lost. In calm
        times the firewall stays clean for whichever definition comes to own the network. */
    method Run(calls: seq<Request>, ghost o: Owner)
      requires Valid() && o.definition.Valid()
      modifies this`owner, this`records, this`firewall, this`listed, this`looks, this`kernel, this`issued,
        this`unanswered
      ensures Valid() && old(issued) <= issued
      ensures forall name :: name in old(records) ==> name in records && records[name] == old(records)[name]
      ensures old(HasTorn()) ==> records == old(records) && issued == old(issued)
      ensures calm && old(CleanFor(o)) ==> CleanFor(o)
      ensures calm && Ours(owner, o) ==> GrowsBy(o.definition, old(firewall), firewall)
    {
      hide Safe, Clean, GrowsBy;
      GrowsNot(o.definition, firewall);
      for i := 0 to |calls|
        invariant Valid() && old(issued) <= issued
        invariant forall name :: name in old(records) ==> name in records && records[name] == old(records)[name]
        invariant old(HasTorn()) ==> HasTorn() && records == old(records) && issued == old(issued)
        invariant old(owner).Some? ==> owner == old(owner)
        invariant calm && old(CleanFor(o)) ==> CleanFor(o)
        invariant calm && Ours(owner, o) ==> GrowsBy(o.definition, old(firewall), firewall)
      {
        ghost var f := firewall;
        GrowsNot(o.definition, f);
        var _ := Execute(calls[i], false);
        if calm && Ours(owner, o) { GrowsTransitive(o.definition, old(firewall), f, firewall); }
      }
    }

    /** Clean, as long as the network belongs to nobody or to one owner. */
    ghost predicate CleanFor(o: Owner)
      requires o.definition.Valid()
      reads this
    {
      Ours(owner, o) ==> Clean(o.definition, firewall, records)
    }

    /** The opening of a call: the owner record and the whole job history must read back. */
    method Open(r: Request, rules: seq<Args>, quiet: bool)
      returns (history: Option<map<string, JobHistory>>, owned: seq<bool>)
      requires Valid() && r.Admitted() && rules == r.Rules()
      ensures |owned| == |rules|
      ensures history.Some? ==>
        && Ours(owner, r.owner) && !HasTorn() && |Jobs(records)| <= MAX_JOBS
        && SummarisesAll(history.value, records, rules)
        && history.value.Keys == Jobs(records) && (forall job :: job in history.value ==> history.value[job].intended)
        && (forall i: nat :: i < |rules| ==> (owned[i] <==> Owned(records, i)))
      ensures (quiet && Ours(owner, r.owner) && NoneTorn(records) && |Jobs(records)| <= MAX_JOBS
        && Entries() <= MAX_ENTRIES) ==>
        history.Some?
    {
      hide Policy, RuleLine, PlanDigest, Consistent, RecordOk;
      owned := seq(|rules|, _ => false);
      history := None;
      var stop := Stops(quiet);
      if stop || owner == Some(Torn) || (owner.Some? && owner != Some(Whole(r.owner))) { return; }
      ReadBack(owner, records, issued, r, Entries());
      history, owned := History(records, r.owner, rules, Entries());
      if history.None? { return; }
      EveryJobIntended(history.value, records, r.owner, rules, Entries());
      if owner.None? && history.value != map[] { history := None; }
    }

    /** Answers without effect: a check reports what is there; an observation also
        demands that this very job recorded an intent for every rule. */
    method Report(r: Request, rules: seq<Args>, known: map<string, JobHistory>, inventory: Inventory,
        present: seq<bool>, quiet: bool)
        returns (response: Response)
      requires r.Admitted() && rules == r.Rules() && r.mode != Apply && SummarisesAll(known, records, rules)
        && |present| == |rules|
      requires forall i: nat :: i < |rules| ==> present[i] == In(inventory, rules, i)
      requires OnlyPolicyOn(r.owner.definition.bridge, rules, inventory) && inventory == listed
      modifies this`firewall, this`listed, this`looks, this`kernel
      ensures quiet || calm ==> firewall == old(firewall)
      ensures Reports(response, r.owner.definition, listed) && (response.Done? ==> listed == old(listed))
      ensures old(looks) <= looks
      ensures quiet && inventory == old(firewall) && Acceptable(r.owner.definition, inventory) && r.mode == Check ==>
        response.Done?
      ensures (quiet && inventory == old(firewall) && Acceptable(r.owner.definition, inventory) && r.mode == Observe
        && Recorded(records, r) && forall i :: 0 <= i < |rules| ==> present[i]) ==>
        response.Done?
      ensures response.Done? && r.mode == Observe && r.owner.definition.Protected() ==>
        Enforces(kernel, r.owner.definition)
      ensures response.Done? && r.mode == Observe ==> response == Done(true, true) && Recorded(records, r)
    {
      hide Policy, RuleLine, PlanDigest, In, OnlyPolicyOn, Comparable, Shows, Enforces;
      if r.mode == Observe {
        if Recorded(records, r) { SummaryOfRecorded(records, r, known, rules); }
        if r.job !in known || !known[r.job].intended || known[r.job].plan != r.plan { return Refused; }
        if exists i :: 0 <= i < |rules| && (!present[i] || !known[r.job].rules[i]) { return Refused; }
        assert Summarises(known[r.job], records, rules, r.job);
      }
      var held := FinalPolicyHolds(r.owner.definition, inventory, quiet);
      if !held { return Refused; }
      if r.mode == Observe { KernelEnforces(r.owner.definition, inventory, kernel); }
      AnswerIsTrue(r.owner.definition, inventory, present);
      return Answer(present);
    }

    /** The look at the firewall that precedes every answer and every effect. */
    method Inspect(r: Request, rules: seq<Args>, owned: seq<bool>, quiet: bool)
      returns (shown: Option<(Inventory, seq<bool>)>)
      requires r.Admitted() && rules == r.Rules() && |owned| == |rules|
      modifies this`firewall, this`listed, this`looks, this`kernel
      ensures shown.Some? ==> OnlyPolicyOn(r.owner.definition.bridge, rules, shown.value.0)
      ensures shown.Some? ==>
        |shown.value.1| == |rules| && forall i: nat :: i < |rules| ==> shown.value.1[i] == In(shown.value.0, rules, i)
      ensures (quiet && old(Acceptable(r.owner.definition, firewall))
        && (forall i: nat :: i < |rules| && In(old(firewall), rules, i) ==> owned[i])) ==>
        shown.Some? && shown.value.0 == firewall
      ensures quiet || calm ==> firewall == old(firewall)
      ensures shown.Some? ==> listed == shown.value.0 && (quiet || calm ==> listed == firewall)
      ensures old(looks) <= looks
      ensures shown.Some? ==>
        && looks == old(looks) + [shown.value.0] && KernelAnswers(r.owner.definition, shown.value.0)
        && forall i: nat :: i < |rules| && In(shown.value.0, rules, i) ==> owned[i]
    {
      hide Policy, RuleLine, In, Shows;
      var stop := Stops(quiet);
      if stop { return None; }
      var seen := ReadInventory(quiet);
      if seen.None? { return None; }
      var inventory := seen.value;
      var only := SelectedNetworkPolicy(r.owner.definition.bridge, rules, inventory);
      if !only { return None; }
      var held := ProtectedKernelHolds(r.owner.definition, inventory, quiet);
      if !held { return None; }
      var present := QueryAll(rules, inventory, quiet);
      if present.None? { return None; }
      if exists i :: 0 <= i < |rules| && present.value[i] && !owned[i] { return None; }
      return Some((inventory, present.value));
    }
  }

  /** What a completed job makes of the firewall: each half is united with its rules, nothing else changes. */
  lemma {:induction false} PutIsUnion(inventory: Inventory, rules: seq<Args>, k: nat)
    requires k <= |rules|
    ensures PutUpTo(inventory, rules, k).runtime ==
      inventory.runtime + RuleLines(rules[..if k < |rules| / 2 then k else |rules| / 2])
    ensures PutUpTo(inventory, rules, k).permanent ==
      inventory.permanent + RuleLines(if k < |rules| / 2 then [] else rules[|rules| / 2..k])
  {
    hide RuleLine;
    var n := |rules| / 2;
    if k > 0 {
      PutIsUnion(inventory, rules, k - 1);
      if k <= n {
        LinesGrow(rules[..k - 1], rules[k - 1]);
        assert rules[..k] == rules[..k - 1] + [rules[k - 1]];
        assert k == n ==> rules[n..k] == [];
      } else {
        LinesGrow(rules[n..k - 1], rules[k - 1]);
        assert rules[n..k] == rules[n..k - 1] + [rules[k - 1]];
      }
    }
  }

  lemma LinesGrow(rules: seq<Args>, args: Args)
    ensures RuleLines(rules + [args]) == RuleLines(rules) + {RuleLine(args)}
  {
    hide RuleLine;
    assert (rules + [args])[|rules|] == args;
    forall i | 0 <= i < |rules| ensures (rules + [args])[i] == rules[i] {}
  }

  /** The commands of a quiet job: each absent rule once, and no other. */
  lemma {:induction false} CommandsAreTheAbsentRules(inventory: Inventory, rules: seq<Args>, job: string, k: nat)
    requires k <= |rules|
    ensures forall e ::
      e in Commands(inventory, rules, job, k) <==>
        e.index < k && !In(inventory, rules, e.index) && e == Issue(job, e.index, false)
    ensures forall a, b :: 0 <= a < b < |Commands(inventory, rules, job, k)| ==>
      Commands(inventory, rules, job, k)[a].index < Commands(inventory, rules, job, k)[b].index
  {
    hide RuleLine;
    if k > 0 {
      CommandsAreTheAbsentRules(inventory, rules, job, k - 1);
      var shorter, c := Commands(inventory, rules, job, k - 1), Commands(inventory, rules, job, k);
      assert forall e :: e in c <==> e in shorter || (e == Issue(job, k - 1, false) && !In(inventory, rules, k - 1));
      forall a, b | 0 <= a < b < |c| ensures c[a].index < c[b].index {
        assert c[a] in shorter;
        if b < |shorter| { assert c[b] == shorter[b]; }
      }
    }
  }

  /** What a completed job wrote: only whole records of its own, an intent among them. */
  lemma ClosedRecords(j: Journal, r: Request)
    requires r.owner.definition.Valid() && r.job !in Jobs(j)
    ensures Closed(j, r).Keys == j.Keys + JobNames(r.job, |r.Rules()|) + {Name(r.job, NetworkJournal.Complete)}
    ensures forall name :: name in j ==> Closed(j, r)[name] == j[name]
    ensures forall name :: name in Closed(j, r) && name !in j ==> name.job == r.job && Closed(j, r)[name].Whole?
  {
    hide Policy, Expected;
    assert forall name :: name in j ==> name.job in Jobs(j);
  }

  lemma OneMoreJob(j: Journal, k: Journal, job: string)
    requires j.Keys <= k.Keys && Name(job, Intent) in k && job !in Jobs(j)
    requires forall name :: name in k && name !in j ==> name.job == job
    ensures Jobs(k) == Jobs(j) + {job} && |Jobs(k)| == |Jobs(j)| + 1
  {
    assert Name(job, Intent).job == job;
    forall x ensures x in Jobs(k) <==> x in Jobs(j) + {job} {
      if x in Jobs(k) {
        var name :| name in k && name.job == x;
        assert name in j ==> x in Jobs(j);
      }
      if x in Jobs(j) {
        var name :| name in j && name.job == x;
        assert name in k;
      }
    }
    assert Jobs(k) == Jobs(j) + {job};
  }

  /** A completed job is one more job, and tears nothing. */
  lemma ClosedAddsOne(j: Journal, r: Request)
    requires r.owner.definition.Valid() && r.job !in Jobs(j)
    ensures Jobs(Closed(j, r)) == Jobs(j) + {r.job} && |Jobs(Closed(j, r))| == |Jobs(j)| + 1
    ensures NoneTorn(Closed(j, r)) <==> NoneTorn(j)
  {
    hide Policy, Closed;
    ClosedRecords(j, r);
    assert Name(r.job, Intent) in JobNames(r.job, |r.Rules()|);
    OneMoreJob(j, Closed(j, r), r.job);
  }

  /** The job limit is one too high: what a completed apply leaves can be read back exactly if there were fewer jobs
      than the limit before, although the call is admitted at the limit as well. */
  lemma ReadableBelowTheLimit(j: Journal, r: Request, issued: seq<Issue>, entries: nat)
    requires r.Admitted() && r.job !in Jobs(j) && NoneTorn(j) && Safe(Some(Whole(r.owner)), Closed(j, r), issued)
    ensures HistoryOk(Closed(j, r), r.owner, r.Rules(), entries) <==> entries <= MAX_ENTRIES && |Jobs(j)| < MAX_JOBS
  {
    hide Policy, Closed, Safe, PlanDigest;
    ClosedAddsOne(j, r);
    ReadBack(Some(Whole(r.owner)), Closed(j, r), issued, r, entries);
  }

  /** The answer's two flags: is every rule of the half present? */
  function Answer(present: seq<bool>): Response {
    Done(forall i :: 0 <= i < |present| / 2 ==> present[i], forall i :: |present| / 2 <= i < |present| ==> present[i])
  }

  /** The flags of an answer are true of an inventory: is every rule of the definition in each half? */
  predicate Reports(response: Response, d: Definition, inventory: Inventory)
    requires d.Valid()
  {
    response.Done? ==>
      && (response.runtimePresent <==> RuleLines(Runtime(d)) <= inventory.runtime)
      && (response.permanentPresent <==> RuleLines(Runtime(d)) <= inventory.permanent)
  }

  lemma AnswerIsTrue(d: Definition, inventory: Inventory, present: seq<bool>)
    requires d.Valid() && |present| == |Policy(d)|
    requires forall i: nat :: i < |present| ==> present[i] == In(inventory, Policy(d), i)
    ensures Reports(Answer(present), d, inventory)
  {
    hide Runtime, RuleLine, RuleLines;
    var runtime, rules := Runtime(d), Policy(d);
    var n := |runtime|;
    var first, second := present[..n], present[n..];
    forall i | 0 <= i < n ensures first[i] <==> RuleLine(runtime[i]) in inventory.runtime {
      assert rules[i] == runtime[i];
    }
    forall i | 0 <= i < n ensures second[i] <==> RuleLine(runtime[i]) in inventory.permanent {
      PermanentLine(runtime[i]);
      assert rules[n + i] == ["--permanent"] + runtime[i];
    }
    HalfPresent(runtime, first, inventory.runtime);
    HalfPresent(runtime, second, inventory.permanent);
    hide Policy, In;
    AnswerHalves(present, n);
  }

  lemma AnswerHalves(present: seq<bool>, n: nat)
    requires |present| == 2 * n
    ensures Answer(present) ==
      Done(forall i :: 0 <= i < n ==> present[..n][i], forall i :: 0 <= i < n ==> present[n..][i])
  {
    assert forall i :: 0 <= i < n ==> present[..n][i] == present[i];
    assert forall i :: 0 <= i < n ==> present[n..][i] == present[n + i];
    assert forall i :: n <= i < 2 * n ==> present[i] == present[n..][i - n];
  }

  lemma HalfPresent(rules: seq<Args>, present: seq<bool>, lines: set<string>)
    requires |rules| == |present| && forall i :: 0 <= i < |rules| ==> (present[i] <==> RuleLine(rules[i]) in lines)
    ensures (forall i :: 0 <= i < |present| ==> present[i]) <==> RuleLines(rules) <= lines
  {
    hide RuleLine;
    assert forall i :: 0 <= i < |rules| ==> RuleLine(rules[i]) in RuleLines(rules);
  }

  /** The journal after a completed job. */
  function Closed(j: Journal, r: Request): Journal
    requires r.owner.definition.Valid()
  {
    Finished(j, r,
      |r.Rules()|)[Name(r.job, NetworkJournal.Complete) :=
        Whole(Expected(r.owner, r.Rules(), Name(r.job, NetworkJournal.Complete), r.plan))]
  }

  lemma AddsOne(j: Journal, name: Name, slot: Slot<Record>)
    requires name !in j
    ensures OnlyAdds(j, j[name := slot], name.job)
  {
  }

  lemma EmptyIsConsistent(o: Owner, rules: seq<Args>)
    ensures Consistent(map[], o, rules)
  {
  }

  lemma FinishedTwice(j: Journal, r: Request)
    requires r.owner.definition.Valid()
    ensures Finished(Finished(j, r, 0), r, |r.Rules()|) == Finished(j, r, |r.Rules()|)
  {
    hide Policy;
    assert JobNames(r.job, 0) <= JobNames(r.job, |r.Rules()|);
  }

  /** What the opening checks of a call learn from a safe state. */
  lemma ReadBack(owner: Option<Slot<Owner>>, j: Journal, issued: seq<Issue>, r: Request, entries: nat)
    requires r.Admitted() && Safe(owner, j, issued) && Ours(owner, r.owner)
    ensures HistoryOk(j, r.owner, r.Rules(), entries) <==>
      entries <= MAX_ENTRIES && NoneTorn(j) && |Jobs(j)| <= MAX_JOBS
  {
    hide Policy;
    EmptyIsConsistent(r.owner, r.Rules());
    ConsistentIsAccepted(j, r.owner, r.Rules(), entries);
  }

  lemma EveryJobIntended(known: map<string, JobHistory>, j: Journal, owner: Owner, rules: seq<Args>, entries: nat)
    requires HistoryOk(j, owner, rules, entries) && SummarisesAll(known, j, rules)
    ensures known.Keys == Jobs(j) && forall job :: job in known ==> known[job].intended
  {
  }

  lemma NoChange(j: Journal, issued: seq<Issue>, job: string)
    ensures OnlyAdds(j, j, job) && OnlyIssues(issued, issued, job)
  {
  }

  lemma AddsTransitive(a: Journal, b: Journal, c: Journal, job: string)
    requires OnlyAdds(a, b, job) && OnlyAdds(b, c, job)
    ensures OnlyAdds(a, c, job)
  {
  }

  lemma FinishedZero(j: Journal, r: Request)
    requires r.Admitted() && Underway(j, r, 0)
    ensures j == Finished(j, r, 0)
  {
    hide Policy, PlanDigest;
    assert JobNames(r.job, 0) == {Name(r.job, Intent)};
    assert RecordOk(j, r.owner, r.Rules(), Name(r.job, Intent));
  }

  lemma StaysAcceptable(d: Definition, start: Inventory, rules: seq<Args>, i: nat)
    requires d.Valid() && rules == Policy(d) && i <= |rules| && Acceptable(d, start)
    ensures Acceptable(d, PutUpTo(start, rules, i))
  {
    hide Policy, RuleLine, OnlyPolicyOn, Comparable;
    PutGrowsByPolicy(d, start, i);
    GrowthKeepsChecks(d, start, PutUpTo(start, rules, i));
    assert d.PolicyVersion() in [1, 2];
  }

  lemma PutPresent(inventory: Inventory, rules: seq<Args>, i: nat)
    requires i < |rules| && In(inventory, rules, i)
    ensures Put(inventory, rules, i) == inventory
  {
  }

  lemma CleanAdded(d: Definition, firewall: Inventory, j: Journal, k: Journal, job: string)
    requires d.Valid() && Clean(d, firewall, j) && OnlyAdds(j, k, job)
    ensures Clean(d, firewall, k)
  {
    CleanMore(d, firewall, j, k);
  }

  lemma GrowsByOne(d: Definition, firewall: Inventory, i: nat)
    requires d.Valid() && i < |Policy(d)|
    ensures GrowsBy(d, firewall, Put(firewall, Policy(d), i))
  {
    hide Policy, RuleLine;
    assert RuleLine(Policy(d)[i]) in RuleLines(Policy(d));
  }

  lemma GrowsNot(d: Definition, firewall: Inventory)
    requires d.Valid()
    ensures GrowsBy(d, firewall, firewall)
  {
  }

  lemma CalmRest(d: Definition, a: World, b: World)
    requires d.Valid() && a.records == b.records && a.firewall == b.firewall
    ensures CalmStep(d, a, b)
  {
    GrowsNot(d, a.firewall);
  }

  lemma CalmTwice(d: Definition, a: World, b: World, c: World)
    requires d.Valid() && CalmStep(d, a, b) && CalmStep(d, b, c) && a.issued <= b.issued <= c.issued
    ensures CalmStep(d, a, c)
  {
    hide Clean, GrowsBy;
    GrowsTransitive(d, a.firewall, b.firewall, c.firewall);
  }

  lemma GrowsTransitive(d: Definition, a: Inventory, b: Inventory, c: Inventory)
    requires d.Valid() && GrowsBy(d, a, b) && GrowsBy(d, b, c)
    ensures GrowsBy(d, a, c)
  {
  }

  lemma CleanMeans(d: Definition, firewall: Inventory, j: Journal)
    ensures d.Valid() && Clean(d, firewall, j) ==>
      Acceptable(d, firewall) && forall i: nat :: i < |Policy(d)| && In(firewall, Policy(d), i) ==> Owned(j, i)
  {
  }

  lemma IssuesGrow(a: seq<Issue>, b: seq<Issue>, job: string)
    requires OnlyIssues(a, b, job)
    ensures a <= b
  {
  }

  lemma StaysSelected(d: Definition, start: Inventory, rules: seq<Args>)
    requires d.Valid() && rules == Policy(d) && OnlyPolicyOn(d.bridge, rules, start)
    ensures OnlyPolicyOn(d.bridge, rules, PutUpTo(start, rules, |rules|))
  {
    hide Policy, RuleLine, OnlyPolicyOn, Comparable;
    PutGrowsByPolicy(d, start, |rules|);
    GrowthKeepsChecks(d, start, PutUpTo(start, rules, |rules|));
  }

  /** With all rules of a protected policy in the inventory, a kernel accepted for it enforces the definition. */
  lemma KernelEnforces(d: Definition, inventory: Inventory, kernel: Snapshot)
    requires d.Valid() && forall i: nat :: i < |Policy(d)| ==> In(inventory, Policy(d), i)
    requires d.Protected() ==> Comparable(inventory) && Shows(kernel, inventory)
    ensures d.Protected() && OnlyPolicyOn(d.bridge, Policy(d), inventory) ==> Enforces(kernel, d)
  {
    hide Runtime, RuleLine, OnlyPolicyOn, Comparable, Shows, Enforces;
    if d.Protected() && OnlyPolicyOn(d.bridge, Policy(d), inventory) {
      forall i | 0 <= i < |Runtime(d)| ensures RuleLine(Runtime(d)[i]) in inventory.runtime {
        assert Policy(d)[i] == Runtime(d)[i] && In(inventory, Policy(d), i);
      }
      AcceptedKernelEnforces(d, inventory, kernel);
    }
  }
}
