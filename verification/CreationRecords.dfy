/** The durable records of one VM creation and of the operations that take it over:
    definition resume, device acceptance and cleanup. */
module CreationRecords {
  import opened Text

  // The creation receipt

  /** An allocated volume: the intent it serves, and what the backend reported. */
  datatype Volume = Volume(intent: nat, key: string, path: string, generation: string)

  datatype Progress = Progress(intent: nat, held: Option<Volume>, verified: bool)

  datatype Receipt = Receipt(operation: nat, volumes: seq<Progress>, volumesVerified: bool, defined: bool)

  predicate Fits(p: Progress, intent: nat) {
    p.intent == intent && (p.held.Some? ==> p.held.value.intent == intent)
  }

  /** The receipt has the recipe's volumes. */
  predicate OfRecipe(r: Receipt, intents: seq<nat>) {
    |r.volumes| == |intents| && forall i :: 0 <= i < |intents| ==> Fits(r.volumes[i], intents[i])
  }

  predicate Secured(p: Progress, intent: nat) { p.held.Some? && p.verified && Fits(p, intent) }

  /** readyVolumes succeeds: every volume of the recipe is allocated and verified. */
  predicate Ready(r: Receipt, intents: seq<nat>) {
    r.volumesVerified && |r.volumes| == |intents|
      && forall i :: 0 <= i < |intents| ==> Secured(r.volumes[i], intents[i])
  }

  function ReadyVolumes(r: Receipt, intents: seq<nat>): (volumes: seq<Volume>)
    requires Ready(r, intents)
  {
    seq(|intents|, i requires 0 <= i < |intents| => assert Secured(r.volumes[i], intents[i]); r.volumes[i].held.value)
  }

  // Reviewed plans

  datatype Kind = Creating | Resuming | Accepting | Cleaning

  datatype Presence = Present | Absent | Unknown

  datatype Candidate = Candidate(intent: nat, held: Option<Volume>)

  datatype CleanupVolume = CleanupVolume(candidate: Candidate, state: Presence, fingerprint: string, reason: string)

  datatype Observation = Observation(volumes: seq<CleanupVolume>, resources: seq<string>, graph: string)

  datatype Mode = Retain | Delete

  /** What an operation was reviewed with: the receipt, and for a cleanup its mode and observation. */
  datatype Plan = Plan(kind: Kind, reviewed: Receipt, mode: Mode, observation: Observation)

  function Candidates(r: Receipt): (c: seq<Candidate>)
    ensures |c| == |r.volumes|
  {
    seq(|r.volumes|, i requires 0 <= i < |r.volumes| => Candidate(r.volumes[i].intent, r.volumes[i].held))
  }

  /** Which operation may take over from which. */
  predicate Follows(prior: Kind, next: Kind) {
    match next
    case Creating => false
    case Resuming => prior.Creating? || prior.Resuming?
    case Accepting => prior.Creating? || prior.Resuming? || prior.Accepting?
    case Cleaning => prior.Creating? || prior.Resuming? || prior.Cleaning?
  }

  // Cleanup records

  datatype Proof = Proof(operation: nat, intents: seq<bool>, absent: seq<bool>)

  datatype Disposition = Disposition(plan: nat, operation: nat, mode: Mode, observation: Observation)

  function Gone(v: CleanupVolume): CleanupVolume { CleanupVolume(v.candidate, Absent, "", "") }

  /** dispositionRecord: the record depends on the reviewed plan and the proof's operation only. */
  function DispositionRecord(id: nat, plan: Plan, proof: Proof): Disposition {
    var volumes := plan.observation.volumes;
    var shown := if plan.mode.Delete? then seq(|volumes|, i requires 0 <= i < |volumes| => Gone(volumes[i]))
      else volumes;
    Disposition(id, proof.operation, plan.mode, plan.observation.(volumes := shown))
  }

  predicate AllTrue(bits: seq<bool>) { forall i :: 0 <= i < |bits| ==> bits[i] }

  /** A proof belongs to its plan, and never confirms the absence of a volume that was there without a delete intent. */
  predicate ProofOk(id: nat, plan: Plan, proof: Proof) {
    && plan.kind.Cleaning? && proof.operation == id
    && |proof.intents| == |proof.absent| == |plan.reviewed.volumes| == |plan.observation.volumes|
    && (forall i :: 0 <= i < |proof.intents| && proof.intents[i] ==> plan.mode.Delete? && Deletable(plan, i))
    && (forall i ::
      0 <= i < |proof.absent| && proof.absent[i] ==> plan.mode.Delete? && (proof.intents[i] || AbsentAtReview(plan, i)))
  }

  /** The reviewed volume was present as an exact generation. */
  predicate Deletable(plan: Plan, i: nat) {
    && i < |plan.observation.volumes| && plan.observation.volumes[i].state.Present?
    && var held := plan.observation.volumes[i].candidate.held;
    && held.Some? && held.value.generation != ""
  }

  predicate AbsentAtReview(plan: Plan, i: nat) {
    i < |plan.observation.volumes| && plan.observation.volumes[i].state.Absent?
  }

  // Ownership

  datatype Ownership = Ownership(version: nat, operation: nat, volumes: seq<Volume>, acceptance: Option<nat>)

  function CreatedOwnership(r: Receipt, intents: seq<nat>): Ownership
    requires Ready(r, intents)
  {
    Ownership(1, r.operation, ReadyVolumes(r, intents), None)
  }

  function AcceptedOwnership(id: nat, r: Receipt, intents: seq<nat>): Ownership
    requires Ready(r, intents)
  {
    Ownership(2, id, ReadyVolumes(r, intents), Some(id))
  }

  // The store

  datatype JobState = Running | Uncertain | Partial(child: nat) | Succeeded | Failed

  /** Everything durable about one creation. Job i runs plan i; plan 0 is the creation itself.
      `holder` is the job that holds the lineage's resource locks. */
  datatype Store = Store(
    plans: seq<Plan>, jobs: seq<JobState>, holder: Option<nat>,
    receipt: Option<Receipt>, disposition: Option<Disposition>, ownership: Option<Ownership>,
    resumed: set<nat>, accepted: set<nat>, proofs: map<nat, Proof>)
  {
    function Last(): nat
      requires |jobs| > 0
    {
      |jobs| - 1
    }
  }

  /** The commands that cannot be taken back. */
  datatype Command = Define(receipt: Option<Receipt>) | DeleteVolume(plan: nat, volume: nat)

  /** Jobs form a line: each took over from the one before it, and only the last may act. */
  ghost predicate Line(s: Store) {
    && |s.jobs| == |s.plans| > 0 && s.plans[0].kind.Creating?
    && (forall i :: 0 <= i < s.Last() ==> s.jobs[i] == Partial(i + 1) && Follows(s.plans[i].kind, s.plans[i + 1].kind))
    && !s.jobs[s.Last()].Partial?
    && s.holder == (if s.jobs[s.Last()].Running? || s.jobs[s.Last()].Uncertain? then Some(s.Last()) else None)
  }

  ghost predicate DisposedOk(s: Store)
    requires Line(s)
  {
    s.disposition.Some? ==>
      var id := s.disposition.value.plan;
      && id in s.proofs && id < |s.plans| && s.disposition.value == DispositionRecord(id, s.plans[id], s.proofs[id])
      && (s.plans[id].mode.Delete? ==> AllTrue(s.proofs[id].absent))
      && s.plans[s.Last()].kind.Cleaning? && s.ownership.None?
      && s.receipt.Some? && !s.receipt.value.defined
  }

  ghost predicate OwnedOk(s: Store, intents: seq<nat>)
    requires Line(s)
  {
    s.ownership.Some? ==>
      && s.receipt.Some? && Ready(s.receipt.value, intents) && s.disposition.None?
      && (if s.receipt.value.defined then s.ownership.value == CreatedOwnership(s.receipt.value, intents)
          else s.plans[s.Last()].kind.Accepting? && AcceptedBy(s, intents, s.ownership.value))
  }

  ghost predicate AcceptedBy(s: Store, intents: seq<nat>, o: Ownership)
    requires s.receipt.Some? && Ready(s.receipt.value, intents)
  {
    exists id :: id in s.accepted && o == AcceptedOwnership(id, s.receipt.value, intents)
  }

  ghost predicate Consistent(s: Store, intents: seq<nat>) {
    && Line(s)
    && (s.receipt.Some? ==>
      && OfRecipe(s.receipt.value, intents)
      && (s.receipt.value.volumesVerified || s.receipt.value.defined ==> Ready(s.receipt.value, intents)))
    && (forall id :: id in s.proofs ==> id < |s.plans| && ProofOk(id, s.plans[id], s.proofs[id]))
    && DisposedOk(s) && OwnedOk(s, intents)
  }

  /** Every irrevocable command is backed by what is durable. */
  ghost predicate Backed(s: Store, log: seq<Command>, intents: seq<nat>) {
    && (forall c :: c in log ==> CommandBacked(s, c, intents))
    && (forall j, k :: 0 <= j < |log| && 0 <= k < |log| && log[j].DeleteVolume? && log[j] == log[k] ==> j == k)
  }

  ghost predicate CommandBacked(s: Store, c: Command, intents: seq<nat>) {
    match c
    case Define(r) =>
      && r.Some? && Ready(r.value, intents) && s.receipt.Some?
      && s.receipt.value.volumes == r.value.volumes && s.receipt.value.volumesVerified
    case DeleteVolume(id, i) =>
      && id in s.proofs && id < |s.plans| && i < |s.proofs[id].intents| && s.proofs[id].intents[i]
  }

  /** What no later operation takes back. */
  ghost predicate Later(a: Store, b: Store) {
    && a.plans <= b.plans
    && (a.disposition.Some? ==> b.disposition == a.disposition && b.ownership == a.ownership)
    && (a.ownership.Some? ==> b.ownership == a.ownership && b.disposition == a.disposition)
    && (a.receipt.Some? ==> b.receipt.Some? && LaterReceipt(a.receipt.value, b.receipt.value))
    && (a.receipt.Some? && a.receipt.value.defined ==> b.disposition == a.disposition)
    && a.resumed <= b.resumed && a.accepted <= b.accepted
    && (forall id :: id in a.proofs ==> id in b.proofs && LaterProof(a.proofs[id], b.proofs[id]))
  }

  predicate LaterReceipt(a: Receipt, b: Receipt) {
    && a.operation == b.operation
    && (a.volumesVerified ==> b.volumesVerified && b.volumes == a.volumes)
    && (a.defined ==> b.defined)
  }

  predicate LaterProof(a: Proof, b: Proof) {
    && a.operation == b.operation && |a.intents| == |b.intents| && |a.absent| == |b.absent|
    && (forall i :: 0 <= i < |a.intents| && a.intents[i] ==> b.intents[i])
    && (forall i :: 0 <= i < |a.absent| && a.absent[i] ==> b.absent[i])
  }

  lemma LaterStill(a: Store, b: Store, c: Store)
    requires Later(a, b) && Later(b, c)
    ensures Later(a, c)
  {
    forall id | id in a.proofs ensures id in c.proofs && LaterProof(a.proofs[id], c.proofs[id]) {
      assert id in b.proofs && LaterProof(a.proofs[id], b.proofs[id]) && LaterProof(b.proofs[id], c.proofs[id]);
    }
  }

  lemma LaterSame(s: Store)
    ensures Later(s, s)
  {
  }

  /** A receipt that goes on from the durable one may be saved while nothing is disposed or owned. */
  ghost predicate Advances(s: Store, next: Receipt, intents: seq<nat>) {
    && OfRecipe(next, intents) && (next.volumesVerified || next.defined ==> Ready(next, intents))
    && (s.receipt.Some? ==> LaterReceipt(s.receipt.value, next))
    && s.disposition.None? && s.ownership.None?
  }

  lemma ReceiptStep(s: Store, log: seq<Command>, intents: seq<nat>, next: Receipt)
    requires Consistent(s, intents) && Backed(s, log, intents) && Advances(s, next, intents)
    ensures var t := s.(receipt := Some(next)); Consistent(t, intents) && Backed(t, log, intents) && Later(s, t)
  {
    hide Ready, OfRecipe;
    var t := s.(receipt := Some(next));
    assert Line(t);
    forall c | c in log ensures CommandBacked(t, c, intents) {
      assert CommandBacked(s, c, intents);
    }
    assert forall id :: id in s.proofs ==> LaterProof(s.proofs[id], s.proofs[id]);
  }

  /** Before the first receipt nothing is disposed or owned. */
  lemma NothingYet(s: Store, intents: seq<nat>)
    requires Consistent(s, intents) && s.receipt.None?
    ensures s.disposition.None? && s.ownership.None?
  {
  }

  lemma DefineStep(s: Store, log: seq<Command>, intents: seq<nat>)
    requires Backed(s, log, intents) && s.receipt.Some? && s.receipt.value.volumesVerified
      && Ready(s.receipt.value, intents)
    ensures Backed(s, log + [Define(s.receipt)], intents)
  {
    hide Ready;
    var more := log + [Define(s.receipt)];
    forall c | c in more ensures CommandBacked(s, c, intents) {
      if c in log { assert CommandBacked(s, c, intents); }
    }
    assert forall j :: 0 <= j < |log| ==> more[j] == log[j];
  }

  /** A VM is owned before its receipt says so only by an acceptance, and then for good. */
  lemma UnownedUntilDefined(s: Store, intents: seq<nat>)
    requires Consistent(s, intents) && !s.plans[s.Last()].kind.Accepting?
    requires s.receipt.None? || !s.receipt.value.defined
    ensures s.ownership.None?
  {
  }

  lemma OwnershipStep(s: Store, log: seq<Command>, intents: seq<nat>, o: Ownership)
    requires Consistent(s, intents) && Backed(s, log, intents) && s.ownership.None? && s.disposition.None?
    requires s.receipt.Some? && Ready(s.receipt.value, intents)
    requires if s.receipt.value.defined then o == CreatedOwnership(s.receipt.value, intents)
      else s.plans[s.Last()].kind.Accepting? && AcceptedBy(s, intents, o)
    ensures var t := s.(ownership := Some(o)); Consistent(t, intents) && Backed(t, log, intents) && Later(s, t)
  {
    hide Ready, OfRecipe, CreatedOwnership, AcceptedOwnership;
    var t := s.(ownership := Some(o));
    assert Line(t);
    assert AcceptedBy(s, intents, o) ==> AcceptedBy(t, intents, o);
    assert forall c :: c in log && CommandBacked(s, c, intents) ==> CommandBacked(t, c, intents);
    assert forall id :: id in s.proofs ==> LaterProof(s.proofs[id], s.proofs[id]);
  }

  /** A verification proof of a resume or an acceptance. */
  lemma VerifiedStep(s: Store, log: seq<Command>, intents: seq<nat>, resumed: set<nat>, accepted: set<nat>)
    requires Consistent(s, intents) && Backed(s, log, intents) && s.resumed <= resumed && s.accepted <= accepted
    ensures var t := s.(resumed := resumed, accepted := accepted);
      Consistent(t, intents) && Backed(t, log, intents) && Later(s, t)
  {
    hide Ready, OfRecipe, CreatedOwnership, AcceptedOwnership;
    var t := s.(resumed := resumed, accepted := accepted);
    assert Line(t);
    if OwnedOk(s, intents) && s.ownership.Some? {
      assert AcceptedBy(s, intents, s.ownership.value) ==> AcceptedBy(t, intents, s.ownership.value);
    }
    assert forall c :: c in log && CommandBacked(s, c, intents) ==> CommandBacked(t, c, intents);
    assert forall id :: id in s.proofs ==> LaterProof(s.proofs[id], s.proofs[id]);
  }

  lemma ProofStep(s: Store, log: seq<Command>, intents: seq<nat>, me: nat, next: Proof)
    requires Consistent(s, intents) && Backed(s, log, intents) && me < |s.plans| && ProofOk(me, s.plans[me], next)
    requires me in s.proofs ==> LaterProof(s.proofs[me], next)
    ensures var t := s.(proofs := s.proofs[me := next]);
      Consistent(t, intents) && Backed(t, log, intents) && Later(s, t)
  {
    hide Ready, OfRecipe, CreatedOwnership, AcceptedOwnership;
    var t := s.(proofs := s.proofs[me := next]);
    assert Line(t);
    if OwnedOk(s, intents) && s.ownership.Some? {
      assert AcceptedBy(s, intents, s.ownership.value) ==> AcceptedBy(t, intents, s.ownership.value);
    }
    forall c | c in log ensures CommandBacked(t, c, intents) {
      assert CommandBacked(s, c, intents);
    }
    assert forall id :: id in s.proofs ==> LaterProof(s.proofs[id], t.proofs[id]);
  }

  lemma DeleteStep(s: Store, log: seq<Command>, intents: seq<nat>, me: nat, i: nat)
    requires Backed(s, log, intents) && CommandBacked(s, DeleteVolume(me, i), intents) && DeleteVolume(me, i) !in log
    ensures Backed(s, log + [DeleteVolume(me, i)], intents)
  {
    hide CommandBacked;
    var more := log + [DeleteVolume(me, i)];
    forall c | c in more ensures CommandBacked(s, c, intents) {
      if c in log { assert CommandBacked(s, c, intents); }
    }
    assert forall j :: 0 <= j < |log| ==> more[j] == log[j] && log[j] in log;
  }

  /** Before a plan has a proof it has deleted nothing. */
  lemma NothingDeletedYet(s: Store, log: seq<Command>, intents: seq<nat>, me: nat, i: nat)
    requires Backed(s, log, intents) && me !in s.proofs
    ensures DeleteVolume(me, i) !in log
  {
    assert !CommandBacked(s, DeleteVolume(me, i), intents);
  }

  lemma DisposeStep(s: Store, log: seq<Command>, intents: seq<nat>, me: nat)
    requires Consistent(s, intents) && Backed(s, log, intents) && me in s.proofs && me == s.Last()
      && s.plans[me].kind.Cleaning?
    requires s.disposition.None? && s.receipt.Some? && !s.receipt.value.defined
    requires s.plans[me].mode.Delete? ==> AllTrue(s.proofs[me].absent)
    ensures var t := s.(disposition := Some(DispositionRecord(me, s.plans[me], s.proofs[me])));
      Consistent(t, intents) && Backed(t, log, intents) && Later(s, t)
  {
    hide Ready, OfRecipe, CreatedOwnership, AcceptedOwnership, DispositionRecord, AllTrue;
    UnownedUntilDefined(s, intents);
    var record := DispositionRecord(me, s.plans[me], s.proofs[me]);
    assert record.plan == me by { RecordPlan(me, s.plans[me], s.proofs[me]); }
    var t := s.(disposition := Some(record));
    assert Line(t);
    assert forall c :: c in log && CommandBacked(s, c, intents) ==> CommandBacked(t, c, intents);
    assert forall id :: id in s.proofs ==> LaterProof(s.proofs[id], s.proofs[id]);
  }

  lemma RecordPlan(id: nat, plan: Plan, proof: Proof)
    ensures DispositionRecord(id, plan, proof).plan == id
  {
  }

  /** A recovery is accepted from an uncertain last job: all locks pass to it, and the parent is partial for good. */
  function TakenOver(s: Store, plan: Plan): Store
    requires |s.jobs| > 0
  {
    s.(plans := s.plans + [plan], jobs := s.jobs[s.Last() := Partial(|s.jobs|)] + [Running], holder := Some(|s.jobs|))
  }

  lemma TakeOverStep(s: Store, log: seq<Command>, intents: seq<nat>, plan: Plan)
    requires Consistent(s, intents) && Backed(s, log, intents)
    requires s.jobs[s.Last()].Uncertain? && Follows(s.plans[s.Last()].kind, plan.kind)
    ensures Consistent(TakenOver(s, plan), intents) && Backed(TakenOver(s, plan), log, intents)
      && Later(s, TakenOver(s, plan))
  {
    hide Ready, OfRecipe, CreatedOwnership, AcceptedOwnership, DispositionRecord, AllTrue, ProofOk;
    var t := TakenOver(s, plan);
    assert forall i :: 0 <= i < |s.plans| ==> t.plans[i] == s.plans[i];
    assert Line(t);
    assert forall id ::
      id in s.proofs ==> ProofOk(id, s.plans[id], s.proofs[id]) ==> ProofOk(id, t.plans[id], t.proofs[id]);
    if s.ownership.Some? {
      assert AcceptedBy(s, intents, s.ownership.value) ==> AcceptedBy(t, intents, s.ownership.value);
    }
    assert forall c :: c in log && CommandBacked(s, c, intents) ==> CommandBacked(t, c, intents);
    assert forall id :: id in s.proofs ==> LaterProof(s.proofs[id], s.proofs[id]);
  }

  /** The last job ends one way or another. */
  lemma JobStep(s: Store, log: seq<Command>, intents: seq<nat>, state: JobState)
    requires Consistent(s, intents) && Backed(s, log, intents) && !state.Partial?
    ensures var held := if state.Running? || state.Uncertain? then Some(s.Last()) else None;
      var t := s.(jobs := s.jobs[s.Last() := state], holder := held);
      Consistent(t, intents) && Backed(t, log, intents) && Later(s, t)
  {
    hide Ready, OfRecipe, CreatedOwnership, AcceptedOwnership, DispositionRecord, AllTrue, ProofOk;
    var held := if state.Running? || state.Uncertain? then Some(s.Last()) else None;
    var t := s.(jobs := s.jobs[s.Last() := state], holder := held);
    assert Line(t);
    if s.ownership.Some? {
      assert AcceptedBy(s, intents, s.ownership.value) ==> AcceptedBy(t, intents, s.ownership.value);
    }
    assert forall c :: c in log && CommandBacked(s, c, intents) ==> CommandBacked(t, c, intents);
    assert forall id :: id in s.proofs ==> LaterProof(s.proofs[id], s.proofs[id]);
  }
}
