/** What the coordinator has looked at, and the durable claims that rest on it: every record that calls a volume
    verified, a definition observed, an acceptance proven or a volume absent was preceded by a look that showed it. */
module CreationEvidence {
  import opened Text
  import opened CreationRecords

  /** The looks that succeeded: a volume read back; the VM observed as declared with its volumes; the bytes of an
      accepted VM verified again; the cleanup candidates inspected. */
  datatype Look =
    | ReadBack(volume: Volume)
    | Observed(volumes: seq<Volume>)
    | Reverified(volumes: seq<Volume>)
    | Inspected(observation: Observation)

  ghost predicate ReceiptWitnessed(r: Receipt, looks: seq<Look>, intents: seq<nat>) {
    && (forall i :: 0 <= i < |r.volumes| && r.volumes[i].verified && r.volumes[i].held.Some? ==>
      ReadBack(r.volumes[i].held.value) in looks)
    && (r.defined && Ready(r, intents) ==> Observed(ReadyVolumes(r, intents)) in looks)
  }

  ghost predicate AcceptanceWitnessed(s: Store, looks: seq<Look>, intents: seq<nat>) {
    s.accepted != {} ==>
      && s.receipt.Some? && Ready(s.receipt.value, intents)
      && Reverified(ReadyVolumes(s.receipt.value, intents)) in looks
  }

  /** An inspection showed the reviewed candidate absent. */
  ghost predicate AbsenceSeen(plan: Plan, i: nat, looks: seq<Look>) {
    exists o :: Inspected(o) in looks && ShowsAbsent(o, plan, i)
  }

  predicate ShowsAbsent(seen: Observation, plan: Plan, i: nat) {
    && i < |seen.volumes| && i < |plan.observation.volumes|
    && seen.volumes[i].state.Absent? && seen.volumes[i].candidate == plan.observation.volumes[i].candidate
  }

  ghost predicate AbsenceWitnessed(plan: Plan, proof: Proof, looks: seq<Look>) {
    forall i :: 0 <= i < |proof.absent| && proof.absent[i] ==> AbsenceSeen(plan, i, looks)
  }

  /** A disposition is true of what was seen: a deletion of every candidate's absence, a retention of all that was
      reviewed. */
  predicate Tells(record: Disposition, plan: Plan, seen: Observation) {
    && record.mode == plan.mode && |record.observation.volumes| == |seen.volumes| == |plan.observation.volumes|
    && (forall i :: 0 <= i < |seen.volumes| ==>
      && record.observation.volumes[i].state == seen.volumes[i].state
      && record.observation.volumes[i].candidate == seen.volumes[i].candidate
      && seen.volumes[i].candidate == plan.observation.volumes[i].candidate)
    && (if plan.mode.Delete? then forall i :: 0 <= i < |seen.volumes| ==> seen.volumes[i].state.Absent?
        else record.observation == seen == plan.observation)
  }

  ghost predicate DispositionSeen(record: Disposition, plan: Plan, looks: seq<Look>) {
    exists o :: Inspected(o) in looks && Tells(record, plan, o)
  }

  ghost predicate Witnessed(s: Store, looks: seq<Look>, intents: seq<nat>) {
    && (s.receipt.Some? ==> ReceiptWitnessed(s.receipt.value, looks, intents))
    && AcceptanceWitnessed(s, looks, intents)
    && (forall id :: id in s.proofs && id < |s.plans| ==> AbsenceWitnessed(s.plans[id], s.proofs[id], looks))
    && (s.disposition.Some? && s.disposition.value.plan < |s.plans| ==>
      DispositionSeen(s.disposition.value, s.plans[s.disposition.value.plan], looks))
  }

  // Every step keeps it

  lemma AbsenceStillSeen(plan: Plan, proof: Proof, looks: seq<Look>, more: seq<Look>)
    requires AbsenceWitnessed(plan, proof, looks) && looks <= more
    ensures AbsenceWitnessed(plan, proof, more)
  {
    hide ShowsAbsent;
    forall i | 0 <= i < |proof.absent| && proof.absent[i] ensures AbsenceSeen(plan, i, more) {
      assert AbsenceSeen(plan, i, looks);
      var o :| Inspected(o) in looks && ShowsAbsent(o, plan, i);
      assert Inspected(o) in more;
    }
  }

  lemma LooksGrow(s: Store, looks: seq<Look>, more: seq<Look>, intents: seq<nat>)
    requires Witnessed(s, looks, intents) && looks <= more
    ensures Witnessed(s, more, intents)
  {
    hide Ready, Tells, AbsenceWitnessed;
    assert forall l :: l in looks ==> l in more;
    forall id | id in s.proofs && id < |s.plans| ensures AbsenceWitnessed(s.plans[id], s.proofs[id], more) {
      AbsenceStillSeen(s.plans[id], s.proofs[id], looks, more);
    }
    if s.disposition.Some? && s.disposition.value.plan < |s.plans| {
      var plan := s.plans[s.disposition.value.plan];
      var o :| Inspected(o) in looks && Tells(s.disposition.value, plan, o);
      assert Inspected(o) in more;
    }
  }

  /** Steps that claim nothing. */
  lemma NothingClaimed(s: Store, t: Store, looks: seq<Look>, intents: seq<nat>)
    requires Consistent(s, intents) && Witnessed(s, looks, intents) && s.plans <= t.plans
    requires t.receipt == s.receipt && t.accepted == s.accepted && t.proofs == s.proofs
    requires t.disposition == s.disposition
    ensures Witnessed(t, looks, intents)
  {
    hide Ready, Tells, AbsenceWitnessed, ReceiptWitnessed, OwnedOk, Line, ProofOk, OfRecipe, AllTrue;
    assert s.disposition.Some? ==> s.disposition.value.plan < |s.plans|;
  }

  lemma ReceiptClaimed(s: Store, next: Receipt, looks: seq<Look>, intents: seq<nat>)
    requires Witnessed(s, looks, intents) && ReceiptWitnessed(next, looks, intents)
    requires s.receipt.Some? ==> LaterReceipt(s.receipt.value, next)
    ensures Witnessed(s.(receipt := Some(next)), looks, intents)
  {
    hide Tells, AbsenceWitnessed, ReceiptWitnessed;
    if s.accepted != {} {
      assert Ready(next, intents);
      assert ReadyVolumes(next, intents) == ReadyVolumes(s.receipt.value, intents);
    }
  }

  lemma ProofClaimed(s: Store, me: nat, next: Proof, looks: seq<Look>, intents: seq<nat>)
    requires Witnessed(s, looks, intents) && me < |s.plans| && AbsenceWitnessed(s.plans[me], next, looks)
    ensures Witnessed(s.(proofs := s.proofs[me := next]), looks, intents)
  {
    hide Tells, AbsenceWitnessed, ReceiptWitnessed, AcceptanceWitnessed;
    var t := s.(proofs := s.proofs[me := next]);
    assert AcceptanceWitnessed(t, looks, intents) by { SameAcceptance(s, t, looks, intents); }
  }

  lemma SameAcceptance(s: Store, t: Store, looks: seq<Look>, intents: seq<nat>)
    requires AcceptanceWitnessed(s, looks, intents) && t.receipt == s.receipt && t.accepted == s.accepted
    ensures AcceptanceWitnessed(t, looks, intents)
  {
  }

  lemma AcceptanceClaimed(s: Store, me: nat, looks: seq<Look>, intents: seq<nat>)
    requires Witnessed(s, looks, intents) && s.receipt.Some? && Ready(s.receipt.value, intents)
    requires Reverified(ReadyVolumes(s.receipt.value, intents)) in looks
    ensures Witnessed(s.(accepted := s.accepted + {me}), looks, intents)
  {
    hide Tells, AbsenceWitnessed, ReceiptWitnessed, Ready;
  }

  lemma DispositionClaimed(s: Store, record: Disposition, looks: seq<Look>, intents: seq<nat>)
    requires Witnessed(s, looks, intents) && record.plan < |s.plans|
    requires DispositionSeen(record, s.plans[record.plan], looks)
    ensures Witnessed(s.(disposition := Some(record)), looks, intents)
  {
    hide Tells, AbsenceWitnessed, ReceiptWitnessed, AcceptanceWitnessed;
    SameAcceptance(s, s.(disposition := Some(record)), looks, intents);
  }

  // What each look allows to be claimed

  /** An empty proof claims nothing. */
  lemma NoAbsence(plan: Plan, proof: Proof, looks: seq<Look>)
    requires forall i :: 0 <= i < |proof.absent| ==> !proof.absent[i]
    ensures AbsenceWitnessed(plan, proof, looks)
  {
  }

  lemma OneMoreAbsent(plan: Plan, proof: Proof, i: nat, seen: Observation, looks: seq<Look>)
    requires AbsenceWitnessed(plan, proof, looks) && i < |proof.absent|
    requires Inspected(seen) in looks && ShowsAbsent(seen, plan, i)
    ensures AbsenceWitnessed(plan, proof.(absent := proof.absent[i := true]), looks)
  {
    hide ShowsAbsent;
    assert AbsenceSeen(plan, i, looks);
  }

  lemma MoreIntents(plan: Plan, proof: Proof, i: nat, looks: seq<Look>)
    requires AbsenceWitnessed(plan, proof, looks) && i < |proof.intents|
    ensures AbsenceWitnessed(plan, proof.(intents := proof.intents[i := true]), looks)
  {
  }

  /** After a retention's last inspection, and after a deletion that found every candidate absent, the committed record
      tells what was seen. */
  lemma RecordTells(id: nat, plan: Plan, proof: Proof, seen: Observation)
    requires plan.mode.Retain? ==> seen == plan.observation
    requires plan.mode.Delete? ==>
      |seen.volumes| == |plan.observation.volumes| && forall i :: 0 <= i < |seen.volumes| ==> ShowsAbsent(seen, plan, i)
    ensures Tells(DispositionRecord(id, plan, proof), plan, seen)
  {
    var volumes := DispositionRecord(id, plan, proof).observation.volumes;
    forall i | 0 <= i < |seen.volumes|
      ensures volumes[i].state == seen.volumes[i].state && volumes[i].candidate == seen.volumes[i].candidate
      ensures seen.volumes[i].candidate == plan.observation.volumes[i].candidate
    {
      if plan.mode.Delete? {
        assert ShowsAbsent(seen, plan, i);
        assert volumes[i] == Gone(plan.observation.volumes[i]);
      }
    }
    if plan.mode.Delete? {
      assert forall i :: 0 <= i < |seen.volumes| ==> ShowsAbsent(seen, plan, i);
    }
  }

  /** What ownership lists: the receipt's volumes, one for each of the recipe's, in order. */
  lemma OwnershipListsTheVolumes(id: nat, r: Receipt, intents: seq<nat>)
    requires Ready(r, intents)
    ensures CreatedOwnership(r, intents).operation == r.operation && AcceptedOwnership(id, r, intents).operation == id
    ensures CreatedOwnership(r, intents).volumes == AcceptedOwnership(id, r, intents).volumes ==
      ReadyVolumes(r, intents)
    ensures |ReadyVolumes(r, intents)| == |r.volumes| == |intents|
    ensures forall i :: 0 <= i < |intents| ==>
      && r.volumes[i].held == Some(ReadyVolumes(r, intents)[i]) && r.volumes[i].verified
      && ReadyVolumes(r, intents)[i].intent == intents[i]
  {
    assert forall i :: 0 <= i < |intents| ==> Secured(r.volumes[i], intents[i]);
  }

  /** A receipt that claims nothing more is witnessed as before. */
  lemma SameClaims(r: Receipt, next: Receipt, looks: seq<Look>, more: seq<Look>, intents: seq<nat>)
    requires ReceiptWitnessed(r, looks, intents) && looks <= more && !next.defined && |next.volumes| == |r.volumes|
    requires forall i :: 0 <= i < |r.volumes| && next.volumes[i].verified && next.volumes[i].held.Some? ==>
      next.volumes[i] == r.volumes[i] || ReadBack(next.volumes[i].held.value) in more
    ensures ReceiptWitnessed(next, more, intents)
  {
    forall i | 0 <= i < |next.volumes| && next.volumes[i].verified && next.volumes[i].held.Some?
      ensures ReadBack(next.volumes[i].held.value) in more
    {
      assert next.volumes[i] == r.volumes[i] ==> ReadBack(r.volumes[i].held.value) in looks;
    }
  }

  lemma DefinitionSeen(s: Store, looks: seq<Look>, intents: seq<nat>)
    requires Witnessed(s, looks, intents) && s.receipt.Some? && Ready(s.receipt.value, intents)
    requires Observed(ReadyVolumes(s.receipt.value, intents)) in looks
    ensures ReceiptWitnessed(s.receipt.value.(defined := true), looks, intents)
  {
    assert ReadyVolumes(s.receipt.value.(defined := true), intents) == ReadyVolumes(s.receipt.value, intents);
  }

  lemma NewLook(n: nat, looks: seq<Look>, look: Look)
    requires n <= |looks|
    ensures (looks + [look])[n..] == looks[n..] + [look] && look in (looks + [look])[n..]
  {
  }
}
