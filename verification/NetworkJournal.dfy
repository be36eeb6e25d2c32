/** The durable journal of the network helper: one owner record per network, and
    per job an intent, one record for each rule and a completion record. A record
    whose writing was cut short stays behind torn; it is never repaired here. */
module NetworkJournal {
  import opened Sets
  import opened Text
  import opened FirewallPolicy
  import opened FirewallCheck

  /** The immutable binding of a network to its helper authority. Its digest, which
      every record carries, is taken to identify it. */
  datatype Owner = Owner(version: nat, actor: nat, key: string, resource: string, definition: Definition)

  datatype Suffix = Intent | Rule(index: nat) | Complete
  datatype Name = Name(job: string, suffix: Suffix)

  datatype Record = Record(binding: Owner, job: string, plan: string, suffix: Suffix, arguments: Args)
  datatype Slot<+T> = Torn | Whole(value: T)
  type Journal = map<Name, Slot<Record>>

  const MAX_JOBS := 64
  const MAX_ENTRIES := 4096

  /** networkDigest: 64 lower-case hex digits. */
  predicate PlanDigest(s: string) { |s| == 64 && forall i :: 0 <= i < 64 ==> HexDigit(s[i]) }

  /** newNetworkRecord. */
  function Expected(owner: Owner, rules: seq<Args>, name: Name, plan: string): Record
    requires name.suffix.Rule? ==> name.suffix.index < |rules|
  {
    Record(owner, name.job, plan, name.suffix, if name.suffix.Rule? then rules[name.suffix.index] else [])
  }

  function Jobs(j: Journal): set<string> { set name | name in j :: name.job }

  /** One record, on its own, is what this owner's helper would have written. */
  predicate RecordOk(j: Journal, owner: Owner, rules: seq<Args>, name: Name)
    requires name in j
  {
    && j[name].Whole?
    && PlanDigest(j[name].value.plan)
    && (name.suffix.Rule? ==> name.suffix.index < |rules|)
    && j[name].value == Expected(owner, rules, name, j[name].value.plan)
  }

  predicate AllRecordsOk(j: Journal, owner: Owner, rules: seq<Args>) {
    forall name :: name in j ==> RecordOk(j, owner, rules, name)
  }

  predicate OnePlanPerJob(j: Journal)
    requires forall name :: name in j ==> j[name].Whole?
  {
    forall a, b :: a in j && b in j && a.job == b.job ==> j[a].value.plan == j[b].value.plan
  }

  predicate JobOk(j: Journal, rules: seq<Args>, job: string) {
    && Name(job, Intent) in j
    && (Name(job, Complete) in j ==> forall i: nat :: i < |rules| ==> Name(job, Rule(i)) in j)
  }

  /** What history demands of a network's journal, in a directory of `entries` names. */
  predicate HistoryOk(j: Journal, owner: Owner, rules: seq<Args>, entries: nat) {
    && entries <= MAX_ENTRIES
    && |j| <= MAX_JOBS * (|rules| + 2)
    && AllRecordsOk(j, owner, rules)
    && OnePlanPerJob(j)
    && |Jobs(j)| <= MAX_JOBS
    && (forall job :: job in Jobs(j) ==> JobOk(j, rules, job))
  }

  datatype JobHistory = JobHistory(plan: string, intended: bool, rules: seq<bool>, complete: bool)

  /** What the records say about one job. */
  predicate Summarises(h: JobHistory, j: Journal, rules: seq<Args>, job: string) {
    && |h.rules| == |rules|
    && (h.intended <==> Name(job, Intent) in j)
    && (h.complete <==> Name(job, Complete) in j)
    && (forall i: nat :: i < |rules| ==> (h.rules[i] <==> Name(job, Rule(i)) in j))
    && (forall name :: name in j && name.job == job ==> j[name].Whole? && j[name].value.plan == h.plan)
  }

  predicate SummarisesAll(jobs: map<string, JobHistory>, j: Journal, rules: seq<Args>) {
    && jobs.Keys == Jobs(j)
    && forall job :: job in jobs ==> Summarises(jobs[job], j, rules, job)
  }

  /** The rules for which some job holds a durable intent. */
  ghost predicate Owned(j: Journal, i: nat) { exists job :: Name(job, Rule(i)) in j }

  // Reading the journal back

  lemma SummaryStep(jobs: map<string, JobHistory>, j: Journal, part: Journal, owner: Owner, rules: seq<Args>,
      name: Name, h: JobHistory)
    requires name in j && name !in part && RecordOk(j, owner, rules, name)
    requires forall n :: n in part ==> n in j && part[n] == j[n]
    requires SummarisesAll(jobs, part, rules)
    requires h == if name.job in jobs then jobs[name.job]
      else JobHistory(j[name].value.plan, false, seq(|rules|, _ => false), false)
    requires h.plan == j[name].value.plan
    ensures var h' := match name.suffix
        case Intent => h.(intended := true)
        case Complete => h.(complete := true)
        case Rule(i) => h.(rules := h.rules[i := true]);
      SummarisesAll(jobs[name.job := h'], part[name := j[name]], rules)
  {
    var part' := part[name := j[name]];
    assert name in part';
    assert Jobs(part') == Jobs(part) + {name.job} by {
      forall job | job in Jobs(part) ensures job in Jobs(part') {
        var n :| n in part && n.job == job;
        assert n in part';
      }
    }
    if name.job !in jobs {
      assert name.job !in Jobs(part);
      assert forall n :: n in part ==> n.job != name.job;
    }
  }

  /** The first loop of history: every record in turn, into its job's row. */
  method CollectJobs(j: Journal, owner: Owner, rules: seq<Args>) returns (r: Option<map<string, JobHistory>>)
    ensures r.Some? <==> AllRecordsOk(j, owner, rules) && OnePlanPerJob(j)
    ensures r.Some? ==> SummarisesAll(r.value, j, rules)
  {
    var jobs: map<string, JobHistory> := map[];
    var rest := j.Keys;
    ghost var part: Journal := map[];
    while rest != {}
      invariant rest <= j.Keys && part.Keys == j.Keys - rest
      invariant forall n :: n in part ==> part[n] == j[n] && RecordOk(j, owner, rules, n)
      invariant SummarisesAll(jobs, part, rules)
      decreases rest
    {
      hide PlanDigest, SummarisesAll, OnePlanPerJob;
      var name :| name in rest;
      if !RecordOk(j, owner, rules, name) { return None; }
      var plan := j[name].value.plan;
      var h := if name.job in jobs then jobs[name.job] else JobHistory(plan, false, seq(|rules|, _ => false), false);
      if h.plan != plan {
        PlansDiffer(jobs, j, part, rules, name);
        return None;
      }
      SummaryStep(jobs, j, part, owner, rules, name, h);
      RowsFit(jobs, part, rules);
      match name.suffix {
        case Intent => h := h.(intended := true);
        case Complete => h := h.(complete := true);
        case Rule(i) => h := h.(rules := h.rules[i := true]);
      }
      jobs := jobs[name.job := h];
      part := part[name := j[name]];
      rest := rest - {name};
    }
    assert part == j;
    OnePlan(jobs, j, rules);
    return Some(jobs);
  }

  lemma RowsFit(jobs: map<string, JobHistory>, part: Journal, rules: seq<Args>)
    requires SummarisesAll(jobs, part, rules)
    ensures forall job :: job in jobs ==> |jobs[job].rules| == |rules|
  {
  }

  /** The second loop of history: no rule or completion without what must precede it. */
  method CheckJobs(jobs: map<string, JobHistory>, ghost j: Journal, rules: seq<Args>)
    returns (ok: bool, owned: seq<bool>)
    requires SummarisesAll(jobs, j, rules)
    ensures ok <==> forall job :: job in Jobs(j) ==> JobOk(j, rules, job)
    ensures |owned| == |rules|
    ensures ok ==> forall i: nat :: i < |rules| ==> (owned[i] <==> Owned(j, i))
  {
    owned := seq(|rules|, _ => false);
    var todo := jobs.Keys;
    while todo != {}
      invariant todo <= jobs.Keys && |owned| == |rules|
      invariant forall job :: job in jobs.Keys - todo ==> JobOk(j, rules, job)
      invariant forall i: nat ::
        i < |rules| ==> (owned[i] <==> exists job :: job in jobs.Keys - todo && Name(job, Rule(i)) in j)
      decreases todo
    {
      var job :| job in todo;
      var h := jobs[job];
      assert Summarises(h, j, rules, job);
      if !h.intended { return false, owned; }
      if h.complete && (exists i :: 0 <= i < |rules| && !h.rules[i]) { return false, owned; }
      ghost var before := owned;
      owned := seq(|rules|, i requires 0 <= i < |rules| && |h.rules| == |owned| == |rules| => owned[i] || h.rules[i]);
      assert forall i: nat :: i < |rules| ==> (owned[i] <==> before[i] || Name(job, Rule(i)) in j);
      todo := todo - {job};
    }
    forall i: nat | i < |rules| ensures owned[i] <==> Owned(j, i) {
      if Owned(j, i) {
        var job :| Name(job, Rule(i)) in j;
        assert job in Jobs(j);
      }
    }
    ok := true;
  }

  /** history: it answers exactly for the well-formed journals, and reports what they hold. */
  method History(j: Journal, owner: Owner, rules: seq<Args>, entries: nat)
      returns (r: Option<map<string, JobHistory>>, owned: seq<bool>)
    ensures r.Some? <==> HistoryOk(j, owner, rules, entries)
    ensures r.Some? ==> SummarisesAll(r.value, j, rules)
    ensures |owned| == |rules|
    ensures r.Some? ==> forall i: nat :: i < |rules| ==> (owned[i] <==> Owned(j, i))
  {
    owned := seq(|rules|, _ => false);
    if entries > MAX_ENTRIES { return None, owned; }
    if |j| > MAX_JOBS * (|rules| + 2) { return None, owned; }
    var jobs := CollectJobs(j, owner, rules);
    if jobs.None? { return None, owned; }
    if |jobs.value| > MAX_JOBS {
      assert |jobs.value| == |Jobs(j)|;
      return None, owned;
    }
    var ok: bool;
    ok, owned := CheckJobs(jobs.value, j, rules);
    if !ok { return None, owned; }
    return jobs, owned;
  }

  lemma PlansDiffer(jobs: map<string, JobHistory>, j: Journal, part: Journal, rules: seq<Args>, name: Name)
    requires name in j && j[name].Whole? && name.job in jobs && jobs[name.job].plan != j[name].value.plan
    requires forall n :: n in part ==> n in j && part[n] == j[n]
    requires SummarisesAll(jobs, part, rules)
    ensures !((forall n :: n in j ==> j[n].Whole?) && OnePlanPerJob(j))
  {
    var other :| other in part && other.job == name.job;
    assert part[other].value.plan == jobs[name.job].plan;
  }

  lemma OnePlan(jobs: map<string, JobHistory>, j: Journal, rules: seq<Args>)
    requires SummarisesAll(jobs, j, rules) && forall n :: n in j ==> j[n].Whole?
    ensures OnePlanPerJob(j)
  {
    forall a, b | a in j && b in j && a.job == b.job ensures j[a].value.plan == j[b].value.plan {
      assert a.job in Jobs(j);
    }
  }

  // Counting

  lemma {:induction false} NamesOfOneJob(names: set<Name>, job: string, n: nat)
    requires forall name :: name in names ==> name.job == job && (name.suffix.Rule? ==> name.suffix.index < n)
    ensures |names| <= n + 2
  {
    if n == 0 {
      SubsetSize(names, {Name(job, Intent), Name(job, Complete)});
    } else {
      var last := Name(job, Rule(n - 1));
      NamesOfOneJob(names - {last}, job, n - 1);
      SubsetSize(names, (names - {last}) + {last});
    }
  }

  lemma OneJobMore(k: nat, each: nat)
    ensures k * each + each == (k + 1) * each
  {
  }

  /** A journal of k jobs holds at most k * (n + 2) names. */
  lemma {:induction false} NamesOfJobs(names: set<Name>, jobs: set<string>, n: nat)
    requires forall name :: name in names ==> name.job in jobs && (name.suffix.Rule? ==> name.suffix.index < n)
    ensures |names| <= |jobs| * (n + 2)
  {
    if jobs == {} {
      assert names == {};
    } else {
      var job :| job in jobs;
      var mine := set name | name in names && name.job == job;
      NamesOfOneJob(mine, job, n);
      NamesOfJobs(names - mine, jobs - {job}, n);
      assert names == mine + (names - mine);
      OneJobMore(|jobs - {job}|, n + 2);
      assert |jobs| == |jobs - {job}| + 1;
    }
  }

  // What crashes can leave behind

  predicate WholeAt(j: Journal, name: Name) { name in j && j[name].Whole? }

  predicate NoneTorn(j: Journal) { forall name :: name in j ==> j[name].Whole? }

  /** Every record stands behind the records that must precede it, torn ones included. */
  ghost predicate Consistent(j: Journal, owner: Owner, rules: seq<Args>) {
    && (forall name :: name in j && j[name].Whole? ==> RecordOk(j, owner, rules, name))
    && (forall a, b :: WholeAt(j, a) && WholeAt(j, b) && a.job == b.job ==> j[a].value.plan == j[b].value.plan)
    && (forall name :: name in j && name.suffix.Rule? ==> name.suffix.index < |rules|)
    && (forall name :: name in j && name.suffix != Intent ==> WholeAt(j, Name(name.job, Intent)))
    && (forall name, i: nat ::
      name in j && name.suffix == Complete && i < |rules| ==> WholeAt(j, Name(name.job, Rule(i))))
  }

  /** What crashes can leave behind is read back exactly while no record is torn and the bounds hold. */
  lemma ConsistentIsAccepted(j: Journal, owner: Owner, rules: seq<Args>, entries: nat)
    requires Consistent(j, owner, rules)
    ensures HistoryOk(j, owner, rules, entries) <==> entries <= MAX_ENTRIES && NoneTorn(j) && |Jobs(j)| <= MAX_JOBS
  {
    if NoneTorn(j) && |Jobs(j)| <= MAX_JOBS {
      NamesOfJobs(j.Keys, Jobs(j), |rules|);
      assert |j| == |j.Keys|;
      assert |Jobs(j)| * (|rules| + 2) <= MAX_JOBS * (|rules| + 2) by {
        MulMonotone(|Jobs(j)|, MAX_JOBS, |rules| + 2);
      }
      forall job | job in Jobs(j) ensures JobOk(j, rules, job) { ConsistentJob(j, owner, rules, job); }
    }
  }

  lemma ConsistentJob(j: Journal, owner: Owner, rules: seq<Args>, job: string)
    requires Consistent(j, owner, rules) && NoneTorn(j) && job in Jobs(j)
    ensures JobOk(j, rules, job)
  {
    var name :| name in j && name.job == job;
    assert name == Name(job, name.suffix);
    assert Name(job, Complete) in j ==> forall i: nat :: i < |rules| ==> WholeAt(j, Name(job, Rule(i)));
  }

  lemma MulMonotone(a: nat, b: nat, c: nat)
    requires a <= b
    ensures a * c <= b * c
  {
  }

  /** Writing one more record, whole or torn, keeps the order of records. */
  lemma WriteKeepsConsistent(j: Journal, owner: Owner, rules: seq<Args>, name: Name, slot: Slot<Record>)
    requires Consistent(j, owner, rules) && name !in j
    requires name.suffix.Rule? ==> name.suffix.index < |rules|
    requires name.suffix == Intent ==> forall other :: other in j ==> other.job != name.job
    requires name.suffix != Intent ==> WholeAt(j, Name(name.job, Intent))
    requires name.suffix == Complete ==> forall i: nat :: i < |rules| ==> WholeAt(j, Name(name.job, Rule(i)))
    requires slot.Whole? ==> PlanDigest(slot.value.plan) && slot.value == Expected(owner, rules, name, slot.value.plan)
    requires slot.Whole? && name.suffix != Intent ==> slot.value.plan == j[Name(name.job, Intent)].value.plan
    ensures Consistent(j[name := slot], owner, rules)
  {
    hide PlanDigest;
    var k := j[name := slot];
    forall n | n in k && k[n].Whole? ensures RecordOk(k, owner, rules, n) {
      if n != name { assert RecordOk(j, owner, rules, n); }
    }
    assert forall n :: n != name ==> (WholeAt(k, n) <==> WholeAt(j, n));
    forall a, b | WholeAt(k, a) && WholeAt(k, b) && a.job == b.job ensures k[a].value.plan == k[b].value.plan {
      var intent := Name(name.job, Intent);
      if a == name && b != name { assert WholeAt(j, b) && WholeAt(j, intent); }
      if b == name && a != name { assert WholeAt(j, a) && WholeAt(j, intent); }
    }
  }
}
