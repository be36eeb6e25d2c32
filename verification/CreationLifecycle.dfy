/** VM creation and the operations that may take it over, over their durable records. Every step may fail, and the
    coordinator may crash between any two: a handler that returns early stands for both. The engine lets only the
    last job of the line act, and only while it runs (or, to reconcile, while it is uncertain). */
module CreationLifecycle {
  import opened Text
  import opened CreationRecords
  import opened CreationEvidence

  predicate Overlaps(path: string, directory: string) {
    path == directory || directory + "/" <= path
  }

  class Service {
    const intents: seq<nat>
    const directory: string
    var store: Store
    ghost var log: seq<Command>
    ghost var looks: seq<Look>

    ghost predicate Valid()
      reads this
    {
      Consistent(store, intents) && Backed(store, log, intents) && Witnessed(store, looks, intents)
    }

    /** The engine runs a handler's Execute only for a running job, which is then the last. */
    ghost predicate Acting(me: nat, kind: Kind)
      reads this
    {
      me < |store.jobs| == |store.plans| && me == store.Last() && store.jobs[me].Running?
        && store.plans[me].kind == kind
    }

    ghost predicate Settling(me: nat, kind: Kind)
      reads this
    {
      && me < |store.jobs| == |store.plans| && me == store.Last() && store.plans[me].kind == kind
      && (store.jobs[me].Running? || store.jobs[me].Uncertain?)
    }

    /** What every handler keeps. */
    twostate predicate Kept()
      reads this
    {
      && Valid() && Later(old(store), store)
      && store.plans == old(store).plans && store.jobs == old(store).jobs && store.holder == old(store).holder
      && old(log) <= log && old(looks) <= looks
    }

    /** A look of this very call. */
    twostate predicate Fresh(new look: Look)
      reads this
    {
      |old(looks)| <= |looks| && look in looks[|old(looks)|..]
    }

    constructor (intents: seq<nat>, directory: string, plan: Plan)
      requires plan.kind.Creating?
      ensures Valid() && Fulfilled(store) && this.intents == intents && log == [] && looks == []
    {
      this.intents, this.directory := intents, directory;
      store := Store([plan], [Running], Some(0), None, None, None, {}, {}, map[]);
      log, looks := [], [];
    }

    /** This very call saw the VM as declared with the receipt's volumes. */
    twostate predicate Reobserved()
      reads this
    {
      && store.receipt.Some? && Ready(store.receipt.value, intents)
      && Fresh(Observed(ReadyVolumes(store.receipt.value, intents)))
    }

    /** This very call verified the accepted VM and the bytes of the receipt's volumes. */
    twostate predicate Reproved()
      reads this
    {
      && store.receipt.Some? && Ready(store.receipt.value, intents)
      && Fresh(Reverified(ReadyVolumes(store.receipt.value, intents)))
    }

    // Looks

    /** A look that may fail, and shows nothing then. */
    method LookFor(look: Look) returns (ok: bool)
      requires Valid()
      modifies this`looks
      ensures Kept() && looks == if ok then old(looks) + [look] else old(looks)
    {
      hide Consistent, Backed, Later, Witnessed;
      LaterSame(store);
      ok := *;
      if !ok { return; }
      LooksGrow(store, looks, looks + [look], intents);
      looks := looks + [look];
    }

    /** InspectCreationCleanup: whatever is there. */
    method Inspect() returns (seen: Option<Observation>)
      requires Valid()
      modifies this`looks
      ensures Kept() && looks == if seen.Some? then old(looks) + [Inspected(seen.value)] else old(looks)
    {
      var observation: Observation := *;
      var ok := LookFor(Inspected(observation));
      return if ok then Some(observation) else None;
    }

    // Records

    /** save: compare-and-swap of the receipt. A failed call may still have written. */
    method Save(previous: Option<Receipt>, next: Receipt) returns (ok: bool)
      requires Valid() && (store.receipt == previous ==> Advances(store, next, intents))
      requires ReceiptWitnessed(next, looks, intents)
      modifies this`store
      ensures Kept()
      ensures ok ==> old(store).receipt == previous && store == old(store).(receipt := Some(next))
      ensures store == old(store) || store == old(store).(receipt := Some(next))
    {
      hide Consistent, Backed, Later, LaterReceipt, Witnessed, ReceiptWitnessed;
      LaterSame(store);
      var fails: bool := *;
      if store.receipt != previous || fails { return false; }
      ReceiptStep(store, log, intents, next);
      ReceiptClaimed(store, next, looks, intents);
      store := store.(receipt := Some(next));
      ok := *;
    }

    /** The proof of a cleanup, by compare-and-swap. A failed call may still have written. */
    method SaveProof(me: nat, previous: Option<Proof>, next: Proof) returns (ok: bool)
      requires Valid() && me < |store.plans| && ProofOk(me, store.plans[me], next)
      requires previous.Some? ==> LaterProof(previous.value, next)
      requires AbsenceWitnessed(store.plans[me], next, looks)
      modifies this`store
      ensures Kept()
      ensures ok ==> store == old(store).(proofs := old(store).proofs[me := next])
      ensures ok && previous.None? ==> me !in old(store).proofs
      ensures store == old(store) || store == old(store).(proofs := old(store).proofs[me := next])
    {
      hide Consistent, Backed, Later, ProofOk, LaterProof, Witnessed, AbsenceWitnessed;
      LaterSame(store);
      var fails: bool := *;
      if previous != (if me in store.proofs then Some(store.proofs[me]) else None) || fails { return false; }
      ProofStep(store, log, intents, me, next);
      ProofClaimed(store, me, next, looks, intents);
      store := store.(proofs := store.proofs[me := next]);
      ok := *;
    }

    // vm.create

    method ExecuteCreation(me: nat) returns (ok: bool)
      requires Valid() && Acting(me, Creating)
      modifies this
      ensures Kept()
      ensures log == old(log) || exists r :: log == old(log) + [Define(Some(r))]
      ensures ok ==>
        old(store).receipt.None? && store.receipt.Some? && store.receipt.value.defined
          && Ready(store.receipt.value, intents)
      ensures ok ==> log == old(log) + [Define(Some(store.receipt.value.(defined := false)))]
      ensures ok ==> Fresh(Observed(ReadyVolumes(store.receipt.value, intents)))
    {
      hide Consistent, Backed, Later, Witnessed;
      LaterSame(store);
      ghost var before := store;
      var refused: bool := *;
      if refused { return false; }
      var r := Receipt(me, seq(|intents|, i requires 0 <= i < |intents| => Progress(intents[i], None, false)), false,
        false);
      if store.receipt.None? { NothingYet(store, intents); }
      ok := Save(None, r);
      if !ok { return; }
      for i := 0 to |intents|
        invariant Kept() && store.receipt == Some(r) && store.disposition.None? && store.ownership.None?
        invariant ReceiptWitnessed(r, looks, intents)
        invariant OfRecipe(r, intents) && !r.volumesVerified && !r.defined && log == old(log)
        invariant forall k :: 0 <= k < i ==> Secured(r.volumes[k], intents[k])
        invariant forall k :: i <= k < |intents| ==> !r.volumes[k].verified
      {
        ok := *;
        if !ok { return; }
        var held: Volume := *;
        var failed: bool := *;
        ghost var had, seen := r, looks;
        if held.intent != intents[i] || held.key == "" || held.path == "" { return false; }
        before := store;
        var previous := Some(r);
        r := r.(volumes := r.volumes[i := r.volumes[i].(held := Some(held))]);
        SameClaims(had, r, looks, looks, intents);
        ok := Save(previous, r);
        LaterStill(old(store), before, store);
        if !ok || failed { return false; }
        before := store;
        ok := LookFor(ReadBack(held));
        LaterStill(old(store), before, store);
        if !ok { return; }
        before := store;
        previous := Some(r);
        r := r.(volumes := r.volumes[i := r.volumes[i].(verified := true)]);
        SameClaims(had, r, seen, looks, intents);
        ok := Save(previous, r);
        LaterStill(old(store), before, store);
        if !ok { return; }
      }
      before := store;
      ok := Conclude(r);
      LaterStill(old(store), before, store);
    }

    /** The end of a creation: all volumes verified, the definition, and its observation. */
    method Conclude(verified: Receipt) returns (ok: bool)
      requires Valid() && store.receipt == Some(verified) && store.disposition.None? && store.ownership.None?
      requires OfRecipe(verified, intents) && !verified.volumesVerified && !verified.defined
      requires forall k :: 0 <= k < |intents| ==> Secured(verified.volumes[k], intents[k])
      requires ReceiptWitnessed(verified, looks, intents)
      modifies this
      ensures Kept()
      ensures log == old(log) || log == old(log) + [Define(Some(verified.(volumesVerified := true)))]
      ensures ok ==>
        store.receipt == Some(verified.(volumesVerified := true, defined := true))
          && Ready(store.receipt.value, intents)
      ensures ok ==> log == old(log) + [Define(Some(verified.(volumesVerified := true)))]
      ensures ok ==> Fresh(Observed(ReadyVolumes(store.receipt.value, intents)))
    {
      hide Consistent, Backed, Later, Witnessed;
      LaterSame(store);
      ok := *;
      if !ok { return; }
      var previous := Some(verified);
      var r := verified.(volumesVerified := true);
      ok := Save(previous, r);
      if !ok { return; }
      if !Ready(r, intents) { return false; }
      DefineStep(store, log, intents);
      log := log + [Define(store.receipt)];
      ok := *;
      if !ok { return; }
      ghost var before := store;
      ok := LookFor(Observed(ReadyVolumes(r, intents)));
      LaterStill(old(store), before, store);
      if !ok { return; }
      NewLook(|old(looks)|, old(looks), looks[|looks| - 1]);
      before := store;
      previous := Some(r);
      r := r.(defined := true);
      ok := Save(previous, r);
      LaterStill(old(store), before, store);
    }

    /** Reconcile of a creation, also on behalf of a definition resume: observe, complete the receipt, record ownership.
        It never issues a command. */
    method ReconcileCreation(me: nat) returns (ok: bool)
      requires Valid() && (Settling(me, Creating) || Settling(me, Resuming))
      modifies this`store, this`looks
      ensures Kept()
      ensures ok ==> store.ownership.Some? && store.disposition.None?
      ensures ok ==> Reobserved()
      ensures old(store).disposition.Some? ==> !ok && store == old(store)
    {
      hide Consistent, Backed, Later, Ready, Witnessed;
      LaterSame(store);
      if store.disposition.Some? { return false; }
      if store.receipt.None? || !Ready(store.receipt.value, intents) { return false; }
      var r := store.receipt.value;
      ok := LookFor(Observed(ReadyVolumes(r, intents)));
      if !ok { return; }
      NewLook(|old(looks)|, old(looks), looks[|looks| - 1]);
      if !r.defined {
        UnownedBeforeDefinition(me);
        ReadyFits(r, intents);
        DefinitionSeen(store, looks, intents);
        ok := Save(Some(r), r.(defined := true));
        if !ok { return; }
        r := r.(defined := true);
      }
      ghost var before := store;
      ok := RecordOwnership(r);
      LaterStill(old(store), before, store);
      if !ok { return; }
      ok := *;
    }

    lemma UnownedBeforeDefinition(me: nat)
      requires Valid() && me < |store.jobs| == |store.plans| && me == store.Last() && !store.plans[me].kind.Accepting?
      requires store.receipt.Some? && !store.receipt.value.defined
      ensures store.ownership.None?
    {
      UnownedUntilDefined(store, intents);
    }

    /** recordOwnership: only for a defined, complete receipt, and never over another record. */
    method RecordOwnership(r: Receipt) returns (ok: bool)
      requires Valid() && store.receipt == Some(r) && store.disposition.None?
      modifies this`store
      ensures Kept() && store.receipt == old(store).receipt
      ensures ok ==>
        Ready(r, intents) && store.ownership == Some(CreatedOwnership(r, intents)) && store.disposition.None?
    {
      hide Consistent, Backed, Later, Ready, CreatedOwnership, Witnessed;
      LaterSame(store);
      if !Ready(r, intents) || !r.defined { return false; }
      var record := CreatedOwnership(r, intents);
      if store.ownership.Some? { return store.ownership.value == record; }
      var fails: bool := *;
      if fails { return false; }
      OwnershipStep(store, log, intents, record);
      NothingClaimed(store, store.(ownership := Some(record)), looks, intents);
      store := store.(ownership := Some(record));
      ok := *;
    }

    // What every recovery checks

    /** originalReceipt: the durable receipt is the reviewed one, but for Defined. */
    predicate OriginalReceipt(reviewed: Receipt)
      reads this
    {
      && store.receipt.Some? && OfRecipe(store.receipt.value, intents)
      && store.receipt.value.(defined := reviewed.defined) == reviewed
    }

    /** The lock check of a running recovery: its parent is partial because of it, and it holds the inherited locks. */
    predicate HoldsLocks(me: nat)
      reads this
    {
      0 < me <= |store.jobs| && store.jobs[me - 1] == Partial(me) && store.holder == Some(me)
    }

    // vm.create.resume

    method ExecuteResume(me: nat) returns (ok: bool)
      requires Valid() && Acting(me, Resuming)
      modifies this
      ensures Kept()
      ensures store.receipt == old(store).receipt && (log == old(log) || log == old(log) + [Define(store.receipt)])
      ensures ok ==> log == old(log) + [Define(store.receipt)] && me in store.resumed && me !in old(store).resumed
      ensures log != old(log) ==>
        && me in store.resumed && me !in old(store).resumed
        && store.receipt.Some? && Ready(store.receipt.value, intents)
        && forall v :: v in ReadyVolumes(store.receipt.value, intents) ==> Fresh(ReadBack(v))
      ensures old(store).disposition.Some? ==> !ok && store == old(store) && log == old(log)
    {
      hide Consistent, Backed, Later, Ready, OfRecipe, Witnessed, ReadyVolumes;
      LaterSame(store);
      if !OriginalReceipt(store.plans[me].reviewed) || store.disposition.Some? { return false; }
      if !Ready(store.receipt.value, intents) || store.receipt.value.defined || !HoldsLocks(me) { return false; }
      ok := *;
      if !ok { return; }
      var volumes := ReadyVolumes(store.receipt.value, intents);
      for i := 0 to |volumes|
        invariant Kept() && store == old(store) && log == old(log)
        invariant forall k :: 0 <= k < i ==> Fresh(ReadBack(volumes[k]))
      {
        NewLook(|old(looks)|, looks, ReadBack(volumes[i]));
        ok := LookFor(ReadBack(volumes[i]));
        if !ok { return; }
      }
      if me in store.resumed { return false; }
      ghost var before := store;
      ok := ProveResume(me);
      LaterStill(old(store), before, store);
      if !ok { return; }
      ReadyFits(store.receipt.value, intents);
      DefineStep(store, log, intents);
      log := log + [Define(store.receipt)];
      ok := *;
    }

    /** The proof of a resume, put where none was. A failed put may still have written. */
    method ProveResume(me: nat) returns (ok: bool)
      requires Valid() && me !in store.resumed && store.receipt.Some? && Ready(store.receipt.value, intents)
      modifies this`store
      ensures Kept()
      ensures store == old(store) || store == old(store).(resumed := old(store).resumed + {me})
      ensures ok ==> store == old(store).(resumed := old(store).resumed + {me})
    {
      hide Consistent, Backed, Later, Ready, Witnessed;
      LaterSame(store);
      var fails: bool := *;
      if fails { return false; }
      VerifiedStep(store, log, intents, store.resumed + {me}, store.accepted);
      NothingClaimed(store, store.(resumed := store.resumed + {me}), looks, intents);
      store := store.(resumed := store.resumed + {me});
      ok := *;
    }

    method ReconcileResume(me: nat) returns (ok: bool)
      requires Valid() && Settling(me, Resuming)
      modifies this`store, this`looks
      ensures Kept()
      ensures ok ==> store.ownership.Some? && store.disposition.None?
      ensures ok ==> me in old(store).resumed && old(OriginalReceipt(store.plans[me].reviewed))
      ensures ok ==> Reobserved()
      ensures old(store).disposition.Some? ==> !ok && store == old(store)
    {
      hide Consistent, Backed, Later, Ready, OfRecipe, Witnessed;
      LaterSame(store);
      if me !in store.resumed || !OriginalReceipt(store.plans[me].reviewed) || store.disposition.Some? { return false; }
      ok := ReconcileCreation(me);
    }

    // vm.create.accept-devices-v1

    predicate AcceptanceChecks(me: nat, owner: nat)
      requires me < |store.plans|
      reads this
    {
      && OriginalReceipt(store.plans[me].reviewed) && !store.receipt.value.defined
      && store.disposition.None? && Ready(store.receipt.value, intents)
      && HoldsLocks(me) && owner == me
      && (store.ownership.Some? ==>
        store.ownership.value.version == 2 && store.ownership.value.acceptance == Some(me)
          && store.ownership.value.operation == owner)
    }

    method ExecuteAcceptance(me: nat) returns (ok: bool)
      requires Valid() && Acting(me, Accepting)
      modifies this`store, this`looks
      ensures Kept() && store.ownership == old(store).ownership
      ensures ok ==> me !in old(store).accepted && store == old(store).(accepted := old(store).accepted + {me})
      ensures ok ==> old(AcceptanceChecks(me, me))
      ensures store != old(store) ==> Reproved()
      ensures old(store).disposition.Some? ==> !ok && store == old(store)
    {
      hide Consistent, Backed, Later, Ready, OfRecipe, Witnessed, ReadyVolumes, HoldsLocks;
      LaterSame(store);
      if !AcceptanceChecks(me, me) || me in store.accepted { return false; }
      ok := LookFor(Reverified(ReadyVolumes(store.receipt.value, intents)));
      if !ok { return; }
      NewLook(|old(looks)|, old(looks), looks[|looks| - 1]);
      ghost var before := store;
      ok := ProveAcceptance(me);
      LaterStill(old(store), before, store);
    }

    /** The proof of an acceptance, put where none was. */
    method ProveAcceptance(me: nat) returns (ok: bool)
      requires Valid() && me !in store.accepted && store.receipt.Some? && Ready(store.receipt.value, intents)
      requires Reverified(ReadyVolumes(store.receipt.value, intents)) in looks
      modifies this`store
      ensures Kept() && looks == old(looks)
      ensures store == old(store) || store == old(store).(accepted := old(store).accepted + {me})
      ensures ok ==> store == old(store).(accepted := old(store).accepted + {me})
    {
      hide Consistent, Backed, Later, Ready, Witnessed, ReadyVolumes;
      LaterSame(store);
      var fails: bool := *;
      if fails { return false; }
      VerifiedStep(store, log, intents, store.resumed, store.accepted + {me});
      AcceptanceClaimed(store, me, looks, intents);
      store := store.(accepted := store.accepted + {me});
      ok := *;
    }

    method ReconcileAcceptance(me: nat) returns (ok: bool)
      requires Valid() && Settling(me, Accepting)
      modifies this`store, this`looks
      ensures Kept()
      ensures ok ==> store.ownership.Some? && store.ownership.value.acceptance == Some(me) && store.disposition.None?
      ensures ok ==> me in old(store).accepted && old(AcceptanceChecks(me, me))
      ensures ok ==> store.receipt.Some? && !store.receipt.value.defined
      ensures ok || store != old(store) ==> Reproved()
      ensures old(store).disposition.Some? ==> !ok && store == old(store)
    {
      hide Consistent, Backed, Later, Ready, OfRecipe, ReadyVolumes, Witnessed;
      LaterSame(store);
      if me !in store.accepted || !AcceptanceChecks(me, me) { return false; }
      ok := LookFor(Reverified(ReadyVolumes(store.receipt.value, intents)));
      if !ok { return; }
      NewLook(|old(looks)|, old(looks), looks[|looks| - 1]);
      ghost var before := store;
      ok := RecordAcceptance(me);
      LaterStill(old(store), before, store);
    }

    /** The ownership record of an acceptance, never over another one. */
    method RecordAcceptance(me: nat) returns (ok: bool)
      requires Valid() && Settling(me, Accepting) && me in store.accepted && store.disposition.None?
      requires store.receipt.Some? && Ready(store.receipt.value, intents) && !store.receipt.value.defined
      modifies this`store
      ensures Kept() && store.receipt == old(store).receipt && store.disposition.None?
      ensures ok ==> store.ownership == Some(AcceptedOwnership(me, store.receipt.value, intents))
    {
      hide Consistent, Backed, Later, Ready, ReadyVolumes, Witnessed;
      LaterSame(store);
      var record := AcceptedOwnership(me, store.receipt.value, intents);
      if store.ownership.Some? { return store.ownership.value == record; }
      OwnershipStep(store, log, intents, record);
      NothingClaimed(store, store.(ownership := Some(record)), looks, intents);
      store := store.(ownership := Some(record));
      ok := *;
    }

    // vm.create.cleanup

    /** original: undisposed, undefined, and no allocated volume inside the preserved source. */
    predicate CleanupOriginal(me: nat)
      requires me < |store.plans|
      reads this
    {
      && OriginalReceipt(store.plans[me].reviewed) && store.disposition.None? && !store.receipt.value.defined
      && forall v :: v in store.receipt.value.volumes && v.held.Some? ==> !Overlaps(v.held.value.path, directory)
    }

    /** Validate, as far as it looks at records and the current observation. */
    predicate CleanupChecks(me: nat, current: Observation)
      requires me < |store.plans|
      reads this
    {
      var plan := store.plans[me];
      && CleanupOriginal(me) && HoldsLocks(me)
      && current == plan.observation && |current.volumes| == |store.receipt.value.volumes|
      && (forall i :: 0 <= i < |current.volumes| ==> current.volumes[i].candidate == Candidates(store.receipt.value)[i])
      && (plan.mode.Delete? ==>
        && current.graph != ""
        && forall i :: 0 <= i < |current.volumes| ==> current.volumes[i].state.Absent? || Deletable(plan, i))
    }

    /** Execute: a proof first, then one deletion at a time behind its durable intent, then the disposition. Nothing is
        deleted unless the candidates were just seen as reviewed, and what is committed tells what was seen last. */
    method ExecuteCleanup(me: nat) returns (ok: bool)
      requires Valid() && Acting(me, Cleaning)
      modifies this
      ensures Kept()
      ensures ok ==> Disposed(store, me)
      ensures ok ==>
        log == old(log) + if store.plans[me].mode.Delete? then Deletions(me, store.plans[me].observation.volumes)
          else []
      ensures log != old(log) ==> Fresh(Inspected(store.plans[me].observation))
      // Nothing is deleted or disposed of inside the preserved source, or of another receipt than the reviewed one.
      ensures log != old(log) || store.disposition != old(store).disposition ==>
        && old(store).receipt == Some(store.plans[me].reviewed.(defined := false))
        && forall v :: v in old(store).receipt.value.volumes && v.held.Some? ==>
          v.held.value.path != directory && !(directory + "/" <= v.held.value.path)
      ensures store.disposition != old(store).disposition ==> store.disposition.Some? && ToldLast(store.plans[me])
    {
      hide Consistent, Backed, Later, Witnessed, Deletions, Disposed, ToldLast, Deletable;
      LaterSame(store);
      var proof: Proof;
      ok, proof := BeginCleanup(me);
      if !ok { return; }
      if store.plans[me].mode.Delete? {
        ghost var before := store;
        ok := DeleteAll(me, proof);
        LaterStill(old(store), before, store);
        if !ok { return; }
      }
      ghost var before := store;
      ok := FinalLook(me);
      LaterStill(old(store), before, store);
    }

    /** Everything as reviewed, and a proof that claims nothing yet. */
    method BeginCleanup(me: nat) returns (ok: bool, proof: Proof)
      requires Valid() && Acting(me, Cleaning)
      modifies this`store, this`looks
      ensures Kept() && store.disposition == old(store).disposition && store.receipt == old(store).receipt
      ensures ok ==> me in store.proofs && store.proofs[me] == proof && BlankProof(proof, store.plans[me])
      ensures ok ==> Fresh(Inspected(store.plans[me].observation))
      ensures ok ==> forall i :: DeleteVolume(me, i) !in log
      ensures ok && store.plans[me].mode.Delete? ==>
        forall i :: 0 <= i < |proof.intents| ==>
          store.plans[me].observation.volumes[i].state.Absent? || Deletable(store.plans[me], i)
      ensures ok ==>
        && store.receipt == Some(store.plans[me].reviewed.(defined := false))
        && forall v :: v in store.receipt.value.volumes && v.held.Some? ==>
          v.held.value.path != directory && !(directory + "/" <= v.held.value.path)
    {
      hide Consistent, Backed, Later, OfRecipe, ProofOk, Witnessed, AbsenceWitnessed, HoldsLocks;
      LaterSame(store);
      proof := Proof(me, [], []);
      var found := Inspect();
      if found.None? || !CleanupChecks(me, found.value) { return false, proof; }
      NewLook(|old(looks)|, old(looks), looks[|looks| - 1]);
      var plan := store.plans[me];
      var n := |plan.observation.volumes|;
      proof := Proof(me, seq(n, _ => false), seq(n, _ => false));
      EmptyProof(me, plan, proof);
      NoAbsence(plan, proof, looks);
      forall i | me !in store.proofs ensures DeleteVolume(me, i) !in log {
        NothingDeletedYet(store, log, intents, me, i);
      }
      ok := SaveProof(me, None, proof);
    }

    /** Does the committed disposition tell what the last look showed? */
    ghost predicate ToldLast(plan: Plan)
      reads this
      requires store.disposition.Some?
    {
      looks != [] && looks[|looks| - 1].Inspected?
        && Tells(store.disposition.value, plan, looks[|looks| - 1].observation)
    }

    /** The last inspection of an executed cleanup, and the disposition. */
    method FinalLook(me: nat) returns (ok: bool)
      requires Valid() && Settling(me, Cleaning) && me in store.proofs
      requires store.receipt.Some? && !store.receipt.value.defined
      requires store.plans[me].mode.Delete? ==> AllTrue(store.proofs[me].absent)
      modifies this`store, this`looks
      ensures Kept()
      ensures ok ==> Disposed(store, me)
      ensures store.disposition != old(store).disposition ==> store.disposition.Some? && ToldLast(store.plans[me])
    {
      hide Consistent, Backed, Later, OfRecipe, ProofOk, DispositionRecord, Witnessed, AbsenceWitnessed,
        Tells, HoldsLocks, OriginalReceipt, Disposed, AllTrue;
      LaterSame(store);
      var final := Inspect();
      if final.None? { return false; }
      var plan, proof := store.plans[me], store.proofs[me];
      if plan.mode.Retain? && final.value != plan.observation { return false; }
      if plan.mode.Delete? && final.value.volumes != DispositionRecord(me, plan, proof).observation.volumes {
        return false;
      }
      RecordShows(me, plan, proof, final.value);
      RecordTells(me, plan, proof, final.value);
      ghost var before := store;
      ok := Finish(me, final.value);
      LaterStill(old(store), before, store);
    }

    /** One volume: a durable intent, the deletion, the expected observation, the confirmed absence. */
    method DeleteOne(me: nat, i: nat, noted: Proof, observed: Observation)
      returns (ok: bool, proof: Proof, observation: Observation)
      requires Valid() && Acting(me, Cleaning) && store.plans[me].mode.Delete? && me in store.proofs
        && store.proofs[me] == noted
      requires i < |noted.intents| == |noted.absent| == |store.plans[me].observation.volumes| == |observed.volumes|
      requires Deletable(store.plans[me], i) && DeleteVolume(me, i) !in log
      requires observed.volumes[i] == store.plans[me].observation.volumes[i]
      modifies this
      ensures Kept() && store.disposition == old(store).disposition && store.receipt == old(store).receipt
      ensures me in store.proofs && (log == old(log) || log == old(log) + [DeleteVolume(me, i)])
      ensures ok ==>
        proof == Proof(noted.operation, noted.intents[i := true], noted.absent[i := true]) && store.proofs[me] == proof
      ensures ok ==> log == old(log) + [DeleteVolume(me, i)] && observation == Without(observed, i)
      ensures old(store).proofs[me] == noted && store.proofs[me].absent != noted.absent ==>
        looks != [] && looks[|looks| - 1] == Inspected(Without(observed, i))
    {
      hide Consistent, Backed, Later, ProofOk, LaterProof, Witnessed, AbsenceWitnessed, ShowsAbsent;
      LaterSame(store);
      proof, observation := noted.(intents := noted.intents[i := true]), observed;
      IntentNoted(store, intents, me, i);
      ProofsWitnessed(store, looks, intents, me);
      MoreIntents(store.plans[me], noted, i, looks);
      ok := SaveProof(me, Some(noted), proof);
      if !ok { return; }
      ok := *;
      if !ok { return; }
      DeleteStep(store, log, intents, me, i);
      log := log + [DeleteVolume(me, i)];
      ok := *;
      if !ok { return; }
      ghost var before := store;
      var current := Inspect();
      LaterStill(old(store), before, store);
      if current != Some(Without(observation, i)) { return false, proof, observation; }
      observation := current.value;
      var previous := proof;
      before := store;
      proof := proof.(absent := proof.absent[i := true]);
      AbsentNoted(store, intents, me, i);
      ProofsWitnessed(store, looks, intents, me);
      WithoutShowsAbsent(observed, store.plans[me], i);
      OneMoreAbsent(store.plans[me], previous, i, observation, looks);
      ok := SaveProof(me, Some(previous), proof);
      LaterStill(old(store), before, store);
    }

    /** One volume that the reviewed inspection already showed absent. */
    method NoteAbsent(me: nat, i: nat, noted: Proof) returns (ok: bool, proof: Proof)
      requires Valid() && Acting(me, Cleaning) && store.plans[me].mode.Delete? && me in store.proofs
        && store.proofs[me] == noted
      requires i < |noted.intents| == |noted.absent| && AbsentAtReview(store.plans[me], i)
      requires Inspected(store.plans[me].observation) in looks
      modifies this`store
      ensures Kept() && store.disposition == old(store).disposition && store.receipt == old(store).receipt
      ensures me in store.proofs && (ok ==> store.proofs[me] == proof)
      ensures ok ==> proof == noted.(absent := noted.absent[i := true])
    {
      hide Consistent, Backed, Later, ProofOk, LaterProof, Witnessed, AbsenceWitnessed;
      AbsentNoted(store, intents, me, i);
      ProofsWitnessed(store, looks, intents, me);
      OneMoreAbsent(store.plans[me], noted, i, store.plans[me].observation, looks);
      proof := noted.(absent := noted.absent[i := true]);
      ok := SaveProof(me, Some(noted), proof);
    }

    /** The delete loop. */
    method DeleteAll(me: nat, initial: Proof) returns (ok: bool)
      requires Valid() && Acting(me, Cleaning) && store.plans[me].mode.Delete?
      requires me in store.proofs && store.proofs[me] == initial
      requires |initial.intents| == |initial.absent| == |store.plans[me].observation.volumes|
        && !(true in initial.intents)
      requires forall i ::
        0 <= i < |initial.intents| ==>
          store.plans[me].observation.volumes[i].state.Absent? || Deletable(store.plans[me], i)
      requires forall i :: DeleteVolume(me, i) !in log
      requires Inspected(store.plans[me].observation) in looks
      modifies this
      ensures Kept() && store.disposition == old(store).disposition && store.receipt == old(store).receipt
      ensures me in store.proofs && (ok ==> AllTrue(store.proofs[me].absent))
      ensures ok ==> log == old(log) + Deletions(me, store.plans[me].observation.volumes)
    {
      hide Consistent, Backed, Later, ProofOk, LaterProof, Witnessed, AbsenceWitnessed, DeletedTo, Deletions;
      LaterSame(store);
      var plan := store.plans[me];
      var observation, proof := plan.observation, initial;
      NothingDeleted(me, plan, proof, log);
      for i := 0 to |plan.observation.volumes|
        invariant Kept() && store.disposition == old(store).disposition && store.receipt == old(store).receipt
        invariant me in store.proofs && store.proofs[me] == proof
        invariant DeletedTo(me, plan, i, proof, observation, old(log), log)
      {
        ok := *;
        if !ok { return; }
        DeletedMeans(me, plan, i, proof, observation, old(log), log);
        ghost var before, noted, seen, issued := store, proof, observation, log;
        if plan.observation.volumes[i].state.Absent? {
          ok, proof := NoteAbsent(me, i, proof);
        } else {
          ok, proof, observation := DeleteOne(me, i, proof, observation);
        }
        LaterStill(old(store), before, store);
        if !ok { return; }
        DeletedNext(me, plan, i, noted, proof, seen, observation, old(log), issued, log);
      }
      DeletedMeans(me, plan, |plan.observation.volumes|, proof, observation, old(log), log);
      ok := true;
    }

    /** finish: the disposition is put where none was, and only if it tells what was seen. */
    method Finish(me: nat, ghost seen: Observation) returns (ok: bool)
      requires Valid() && Settling(me, Cleaning) && me in store.proofs
      requires store.receipt.Some? && !store.receipt.value.defined
      requires store.plans[me].mode.Delete? ==> AllTrue(store.proofs[me].absent)
      requires Inspected(seen) in looks
        && Tells(DispositionRecord(me, store.plans[me], store.proofs[me]), store.plans[me], seen)
      modifies this`store
      ensures Kept()
      ensures store.proofs == old(store).proofs
      ensures ok ==> Disposed(store, me)
      ensures store.disposition == old(store).disposition
        || store.disposition == Some(DispositionRecord(me, store.plans[me], store.proofs[me]))
    {
      hide Consistent, Backed, Later, AllTrue, Tells, Witnessed;
      LaterSame(store);
      var fails: bool := *;
      if store.disposition.Some? || fails { return false; }
      DisposeStep(store, log, intents, me);
      RecordPlan(me, store.plans[me], store.proofs[me]);
      DispositionClaimed(store, DispositionRecord(me, store.plans[me], store.proofs[me]), looks, intents);
      store := store.(disposition := Some(DispositionRecord(me, store.plans[me], store.proofs[me])));
      ok := *;
    }

    /** Reconcile never deletes: it accepts the committed record, or commits the same one after observing absence. */
    method ReconcileCleanup(me: nat) returns (ok: bool)
      requires Valid() && Settling(me, Cleaning)
      modifies this`store, this`looks
      ensures Kept()
      ensures ok ==> Disposed(store, me)
      ensures old(store).disposition.Some? ==> store == old(store)
      ensures old(store).disposition.Some? && me in store.proofs ==>
        (ok <==>
          && OriginalReceipt(store.plans[me].reviewed)
          && store.disposition.value == DispositionRecord(me, store.plans[me], store.proofs[me]))
      ensures store.disposition != old(store).disposition ==> store.disposition.Some? && ToldLast(store.plans[me])
      ensures store.disposition != old(store).disposition ==>
        && old(store).receipt == Some(store.plans[me].reviewed.(defined := false))
        && forall v :: v in old(store).receipt.value.volumes && v.held.Some? ==>
          v.held.value.path != directory && !(directory + "/" <= v.held.value.path)
    {
      hide Consistent, Backed, Later, ProofOk, DispositionRecord, OfRecipe, LaterProof, Witnessed,
        AbsenceWitnessed, Tells;
      LaterSame(store);
      if me !in store.proofs { return false; }
      var plan, proof := store.plans[me], store.proofs[me];
      if store.disposition.Some? {
        return OriginalReceipt(plan.reviewed) && store.disposition.value == DispositionRecord(me, plan, proof);
      }
      var found := Inspect();
      if found.None? { return false; }
      var current := found.value;
      if !CleanupOriginal(me) || |current.volumes| != |plan.observation.volumes| { return false; }
      ProofFits(store, intents, me);
      ghost var before := store;
      if plan.mode.Retain? {
        if current != plan.observation { return false; }
        RecordTells(me, plan, proof, current);
        ok := Finish(me, current);
        LaterStill(old(store), before, store);
        return;
      }
      ProofsWitnessed(store, looks, intents, me);
      for i := 0 to |current.volumes|
        invariant store == before && looks == old(looks) + [Inspected(current)]
        invariant |proof.intents| == |proof.absent| == |current.volumes|
        invariant ProofOk(me, plan, proof) && LaterProof(store.proofs[me], proof)
        invariant AbsenceWitnessed(plan, proof, looks)
        invariant forall k :: 0 <= k < i ==> proof.absent[k] && ShowsAbsent(current, plan, k)
      {
        var v, was := current.volumes[i], plan.observation.volumes[i];
        if v.candidate != was.candidate || !v.state.Absent? || (!was.state.Absent? && !proof.intents[i]) {
          return false;
        }
        ConfirmAbsent(me, plan, store.proofs[me], proof, i);
        OneMoreAbsent(plan, proof, i, current, looks);
        proof := proof.(absent := proof.absent[i := true]);
      }
      ok := SaveProof(me, Some(store.proofs[me]), proof);
      LaterStill(old(store), before, store);
      if !ok { return; }
      before := store;
      RecordTells(me, plan, proof, current);
      ok := Finish(me, current);
      LaterStill(old(store), before, store);
    }

    // The engine

    /** Apply of a recovery plan: all locks pass from an uncertain parent to the new job in one transaction. */
    method TakeOver(plan: Plan) returns (ok: bool)
      requires Valid()
      modifies this`store
      ensures Valid() && Later(old(store), store)
      ensures ok ==> old(store).jobs[old(store).Last()].Uncertain?
      ensures ok ==> Follows(old(store).plans[old(store).Last()].kind, plan.kind)
      ensures if ok then store == TakenOver(old(store), plan) else store == old(store)
    {
      hide Consistent, Backed, Later, Witnessed;
      LaterSame(store);
      TheLine();
      ok := *;
      if !ok || !store.jobs[store.Last()].Uncertain? || !Follows(store.plans[store.Last()].kind, plan.kind) {
        return false;
      }
      TakeOverStep(store, log, intents, plan);
      NothingClaimed(store, TakenOver(store, plan), looks, intents);
      store := TakenOver(store, plan);
    }

    lemma TheLine()
      requires Valid()
      ensures Line(store)
    {
    }

    /** The last job succeeded only if it has left what its kind is for. */
    method EndJob(state: JobState)
      requires Valid() && !state.Partial? && (state.Succeeded? ==> |store.jobs| > 0 && Settled(store))
      modifies this`store
      ensures Valid() && Later(old(store), store) && Fulfilled(store)
      ensures Line(old(store)) && store.plans == old(store).plans
        && store.jobs == old(store).jobs[old(store).Last() := state]
    {
      hide Consistent, Backed, Later, Witnessed;
      TheLine();
      JobStep(store, log, intents, state);
      var next := store.(jobs := store.jobs[store.Last() := state],
        holder := if state.Running? || state.Uncertain? then Some(store.Last()) else None);
      NothingClaimed(store, next, looks, intents);
      store := next;
    }

    method Execute(me: nat) returns (ok: bool)
      requires Valid() && me < |store.plans| && Acting(me, store.plans[me].kind)
      modifies this
      ensures Kept()
    {
      match store.plans[me].kind
      case Creating => ok := ExecuteCreation(me);
      case Resuming => ok := ExecuteResume(me);
      case Accepting => ok := ExecuteAcceptance(me);
      case Cleaning => ok := ExecuteCleanup(me);
    }

    /** No reconciliation issues a command. */
    method Settle(me: nat) returns (ok: bool)
      requires Valid() && me < |store.plans| && Settling(me, store.plans[me].kind)
      modifies this`store, this`looks
      ensures Kept()
      ensures ok ==> (store.disposition.Some? <==> store.plans[me].kind.Cleaning?)
      ensures ok ==> (store.ownership.Some? <==> !store.plans[me].kind.Cleaning?)
    {
      hide Consistent, Backed, Later, Witnessed;
      match store.plans[me].kind
      case Creating => ok := ReconcileCreation(me);
      case Resuming => ok := ReconcileResume(me);
      case Accepting => ok := ReconcileAcceptance(me);
      case Cleaning =>
        ok := ReconcileCleanup(me);
        DisposedIsUnowned(store, intents);
    }

    /** run: execute the last job, verify it, and note how it ended; a crash leaves it running. */
    method RunJob()
      requires Valid() && |store.jobs| > 0 && store.jobs[store.Last()].Running?
      modifies this
      ensures Fulfilled(store)
      ensures Valid() && Later(old(store), store) && old(log) <= log && old(looks) <= looks
    {
      hide Consistent, Backed, Later, Witnessed;
      TheLine();
      LaterSame(store);
      var me := store.Last();
      var ok := Execute(me);
      var crash: bool := *;
      if crash { return; }
      ghost var before := store;
      if ok {
        ok := Settle(me);
        LaterStill(old(store), before, store);
        crash := *;
        if crash { return; }
        before := store;
      }
      var failed: bool := *;
      EndJob(if ok then Succeeded else if failed && me == 0 then Failed else Uncertain);
      LaterStill(old(store), before, store);
    }

    /** Reconcile, on request, of an uncertain job. */
    method ReconcileJob()
      requires Valid() && Fulfilled(store)
      modifies this`store, this`looks
      ensures Fulfilled(store)
      ensures Valid() && Later(old(store), store) && old(looks) <= looks
    {
      hide Consistent, Backed, Later, Witnessed;
      TheLine();
      LaterSame(store);
      if !store.jobs[store.Last()].Uncertain? { return; }
      ghost var before := store;
      var ok := Settle(store.Last());
      if !ok { return; }
      before := store;
      EndJob(Succeeded);
      LaterStill(old(store), before, store);
    }

    /** Any run: restarts, recoveries taken over, jobs run and reconciled, in any order. */
    method Drive(steps: nat)
      requires Valid() && Fulfilled(store)
      modifies this
      ensures Fulfilled(store)
      ensures Valid() && Later(old(store), store) && old(log) <= log && old(looks) <= looks
    {
      hide Consistent, Backed, Later, Witnessed;
      LaterSame(store);
      for k := 0 to steps
        invariant Fulfilled(store)
        invariant Valid() && Later(old(store), store) && old(log) <= log && old(looks) <= looks
      {
        TheLine();
        ghost var before := store;
        var choice: nat := *;
        var plan: Plan := *;
        if choice == 0 {
          var ok := TakeOver(plan);
        } else if choice == 1 {
          ReconcileJob();
        } else if store.jobs[store.Last()].Running? {
          if choice == 2 { RunJob(); } else { EndJob(Uncertain); }
        } else {
          LaterSame(store);
        }
        LaterStill(old(store), before, store);
      }
    }
  }

  predicate BlankProof(proof: Proof, plan: Plan) {
    && |proof.intents| == |proof.absent| == |plan.observation.volumes|
    && forall i :: 0 <= i < |proof.intents| ==> !proof.intents[i] && !proof.absent[i]
  }

  /** What an inspection shows once volume i of an observation is gone. */
  function Without(o: Observation, i: nat): Observation
    requires i < |o.volumes|
  {
    o.(volumes := o.volumes[i := o.volumes[i].(state := Absent, fingerprint := "")])
  }

  lemma WithoutShowsAbsent(o: Observation, plan: Plan, i: nat)
    requires i < |o.volumes| == |plan.observation.volumes| && o.volumes[i] == plan.observation.volumes[i]
    ensures ShowsAbsent(Without(o, i), plan, i)
  {
  }

  /** The final inspection agrees with the record to be committed. */
  lemma RecordShows(me: nat, plan: Plan, proof: Proof, final: Observation)
    requires plan.mode.Delete? ==> final.volumes == DispositionRecord(me, plan, proof).observation.volumes
    ensures plan.mode.Delete? ==>
      && |final.volumes| == |plan.observation.volumes|
      && forall i :: 0 <= i < |final.volumes| ==> ShowsAbsent(final, plan, i)
  {
    if plan.mode.Delete? {
      assert forall i :: 0 <= i < |final.volumes| ==> final.volumes[i] == Gone(plan.observation.volumes[i]);
    }
  }

  lemma ProofsWitnessed(s: Store, looks: seq<Look>, intents: seq<nat>, me: nat)
    requires Witnessed(s, looks, intents) && me in s.proofs && me < |s.plans|
    ensures AbsenceWitnessed(s.plans[me], s.proofs[me], looks)
  {
  }

  /** What the last job was for is durable: the disposition of a cleanup, the ownership of any other. */
  predicate Settled(s: Store)
    requires |s.jobs| > 0
  {
    |s.plans| == |s.jobs| && if s.plans[s.Last()].kind.Cleaning? then s.disposition.Some? else s.ownership.Some?
  }

  predicate Fulfilled(s: Store) { |s.jobs| > 0 && s.jobs[s.Last()].Succeeded? ==> Settled(s) }

  lemma ReadyFits(r: Receipt, intents: seq<nat>)
    requires Ready(r, intents)
    ensures OfRecipe(r, intents) && Ready(r.(defined := true), intents) && r.volumesVerified
    ensures LaterReceipt(r, r.(defined := true))
  {
    assert forall i :: 0 <= i < |intents| ==> Secured(r.volumes[i], intents[i]) ==> Fits(r.volumes[i], intents[i]);
  }

  /** The cleanup's own record is the committed disposition, and it names the cleanup's plan and operation. */
  ghost predicate Disposed(s: Store, me: nat) {
    && me in s.proofs && me < |s.plans| && s.receipt.Some?
    && s.disposition == Some(DispositionRecord(me, s.plans[me], s.proofs[me]))
  }

  /** One deletion for each volume that was not absent at review, in order. */
  function Deletions(me: nat, volumes: seq<CleanupVolume>): seq<Command> {
    if volumes == [] then []
    else
      var i := |volumes| - 1;
      Deletions(me, volumes[..i]) + if volumes[i].state.Absent? then [] else [DeleteVolume(me, i)]
  }

  /** The delete loop after i volumes: each confirmed absent, each present one deleted, the others untouched. */
  ghost predicate DeletedTo(me: nat, plan: Plan, i: nat, proof: Proof, observation: Observation, was: seq<Command>,
      log: seq<Command>)
  {
    var volumes := plan.observation.volumes;
    && i <= |proof.intents| == |proof.absent| == |volumes| == |observation.volumes|
    && (forall k :: 0 <= k < i ==> proof.absent[k])
    && (forall k :: i <= k < |volumes| ==> observation.volumes[k] == volumes[k] && DeleteVolume(me, k) !in log)
    && log == was + Deletions(me, volumes[..i])
  }

  lemma NothingDeleted(me: nat, plan: Plan, proof: Proof, log: seq<Command>)
    requires |proof.intents| == |proof.absent| == |plan.observation.volumes|
    requires forall k :: DeleteVolume(me, k) !in log
    ensures DeletedTo(me, plan, 0, proof, plan.observation, log, log)
  {
  }

  lemma DeletedMeans(me: nat, plan: Plan, i: nat, proof: Proof, observation: Observation, was: seq<Command>,
      log: seq<Command>)
    requires DeletedTo(me, plan, i, proof, observation, was, log)
    ensures |proof.intents| == |proof.absent| == |plan.observation.volumes| == |observation.volumes|
    ensures i < |observation.volumes| ==>
      observation.volumes[i] == plan.observation.volumes[i] && DeleteVolume(me, i) !in log
    ensures was <= log
    ensures i == |proof.absent| ==> AllTrue(proof.absent) && log == was + Deletions(me, plan.observation.volumes)
  {
    assert plan.observation.volumes[..|plan.observation.volumes|] == plan.observation.volumes;
  }

  lemma DeletedNext(me: nat, plan: Plan, i: nat, noted: Proof, proof: Proof, seen: Observation,
      observation: Observation, was: seq<Command>, issued: seq<Command>, log: seq<Command>)
    requires DeletedTo(me, plan, i, noted, seen, was, issued) && i < |noted.absent|
    requires proof.absent == noted.absent[i := true] && |proof.intents| == |noted.intents|
    requires if plan.observation.volumes[i].state.Absent? then observation == seen && log == issued
      else observation == Without(seen, i) && log == issued + [DeleteVolume(me, i)]
    ensures DeletedTo(me, plan, i + 1, proof, observation, was, log)
  {
    var volumes := plan.observation.volumes;
    assert volumes[..i + 1][..i] == volumes[..i];
  }

  lemma EmptyProof(me: nat, plan: Plan, proof: Proof)
    requires plan.kind.Cleaning? && proof.operation == me
    requires |proof.intents| == |proof.absent| == |plan.reviewed.volumes| == |plan.observation.volumes|
    requires forall i :: 0 <= i < |proof.intents| ==> !proof.intents[i] && !proof.absent[i]
    ensures ProofOk(me, plan, proof)
  {
  }

  lemma IntentNoted(s: Store, intents: seq<nat>, me: nat, i: nat)
    requires Consistent(s, intents) && me in s.proofs && i < |s.proofs[me].intents|
    requires s.plans[me].mode.Delete? && Deletable(s.plans[me], i)
    ensures var proof := s.proofs[me]; var next := proof.(intents := proof.intents[i := true]);
      ProofOk(me, s.plans[me], next) && LaterProof(proof, next)
  {
    hide DisposedOk, OwnedOk, Ready, OfRecipe;
    assert ProofOk(me, s.plans[me], s.proofs[me]);
  }

  lemma AbsentNoted(s: Store, intents: seq<nat>, me: nat, i: nat)
    requires Consistent(s, intents) && me in s.proofs && i < |s.proofs[me].absent|
    requires s.plans[me].mode.Delete? && i < |s.proofs[me].intents|
      && (s.proofs[me].intents[i] || AbsentAtReview(s.plans[me], i))
    ensures var proof := s.proofs[me]; var next := proof.(absent := proof.absent[i := true]);
      ProofOk(me, s.plans[me], next) && LaterProof(proof, next)
  {
    hide DisposedOk, OwnedOk, Ready, OfRecipe;
    assert ProofOk(me, s.plans[me], s.proofs[me]);
  }

  lemma ConfirmAbsent(me: nat, plan: Plan, first: Proof, proof: Proof, i: nat)
    requires ProofOk(me, plan, proof) && LaterProof(first, proof) && i < |proof.absent| && plan.mode.Delete?
    requires proof.intents[i] || AbsentAtReview(plan, i)
    ensures var next := proof.(absent := proof.absent[i := true]); ProofOk(me, plan, next) && LaterProof(first, next)
  {
  }

  lemma ProofFits(s: Store, intents: seq<nat>, me: nat)
    requires Consistent(s, intents) && me in s.proofs
    ensures me < |s.plans| && ProofOk(me, s.plans[me], s.proofs[me])
    ensures |s.proofs[me].intents| == |s.proofs[me].absent| == |s.plans[me].observation.volumes|
    ensures LaterProof(s.proofs[me], s.proofs[me])
  {
  }

  lemma DisposedIsUnowned(s: Store, intents: seq<nat>)
    requires Consistent(s, intents)
    ensures s.disposition.None? || s.ownership.None?
  {
  }

  /** Once a cleanup has its proof, only one disposition record is left for it to commit, whoever commits it and
      when. */
  lemma RecordIsDetermined(a: Store, b: Store, me: nat)
    requires Later(a, b) && me in a.proofs && me < |a.plans| && Disposed(b, me)
    ensures b.disposition == Some(DispositionRecord(me, a.plans[me], a.proofs[me]))
  {
    hide LaterReceipt;
    assert LaterProof(a.proofs[me], b.proofs[me]);
  }

  /** In every reachable state: what is disposed of was never defined or owned; each deletion was issued once, behind a
      durable intent, for an exact generation seen at review; and each definition came from a complete durable
      receipt. */
  lemma WhatHoldsThroughout(s: Store, log: seq<Command>, intents: seq<nat>)
    requires Consistent(s, intents) && Backed(s, log, intents)
    ensures s.disposition.Some? ==> s.ownership.None? && s.receipt.Some? && !s.receipt.value.defined
    ensures forall k :: 0 <= k < |log| && log[k].DeleteVolume? ==>
      var id, i := log[k].plan, log[k].volume;
      && id in s.proofs && i < |s.proofs[id].intents| && s.proofs[id].intents[i] && Deletable(s.plans[id], i)
      && forall j :: 0 <= j < |log| && log[j] == log[k] ==> j == k
    ensures forall k :: 0 <= k < |log| && log[k].Define? ==>
      log[k].receipt.Some? && Ready(log[k].receipt.value, intents) && s.receipt.Some?
        && s.receipt.value.volumes == log[k].receipt.value.volumes
  {
    hide Ready, OfRecipe, DispositionRecord, AllTrue, Deletable, OwnedOk;
    forall k | 0 <= k < |log| && log[k].DeleteVolume?
      ensures var id, i := log[k].plan, log[k].volume;
        id in s.proofs && i < |s.proofs[id].intents| && s.proofs[id].intents[i] && Deletable(s.plans[id], i)
    {
      assert log[k] in log && CommandBacked(s, log[k], intents);
      assert ProofOk(log[k].plan, s.plans[log[k].plan], s.proofs[log[k].plan]);
    }
    forall k | 0 <= k < |log| && log[k].Define?
      ensures log[k].receipt.Some? && Ready(log[k].receipt.value, intents) && s.receipt.Some?
        && s.receipt.value.volumes == log[k].receipt.value.volumes
    {
      assert log[k] in log && CommandBacked(s, log[k], intents);
    }
  }

  /** In every reachable state: ownership lists one volume for each of the recipe's, in order, all read back, of a VM
      that was observed or accepted with them; nothing is defined from volumes not read back; and a disposition tells
      what an inspection showed. */
  lemma WhatWasSeen(s: Store, log: seq<Command>, looks: seq<Look>, intents: seq<nat>)
    requires Consistent(s, intents) && Backed(s, log, intents) && Witnessed(s, looks, intents)
    ensures s.ownership.Some? ==>
      var volumes := s.ownership.value.volumes;
      && |volumes| == |intents| && (forall i :: 0 <= i < |intents| ==> volumes[i].intent == intents[i])
      && (forall v :: v in volumes ==> ReadBack(v) in looks)
      && (Observed(volumes) in looks || Reverified(volumes) in looks)
    ensures forall k :: 0 <= k < |log| && log[k].Define? ==>
      && log[k].receipt.Some? && |log[k].receipt.value.volumes| == |intents|
      && forall p :: p in log[k].receipt.value.volumes ==> p.held.Some? && ReadBack(p.held.value) in looks
    ensures s.disposition.Some? ==>
      && s.disposition.value.plan < |s.plans|
      && DispositionSeen(s.disposition.value, s.plans[s.disposition.value.plan], looks)
  {
    hide Tells, AbsenceWitnessed, DispositionRecord, AllTrue, ProofOk;
    if s.receipt.Some? && Ready(s.receipt.value, intents) { VolumesReadBack(s, looks, intents); }
    if s.ownership.Some? {
      OwnershipListsTheVolumes(s.ownership.value.operation, s.receipt.value, intents);
      OwnerListed(s, intents);
    }
    forall k | 0 <= k < |log| && log[k].Define?
      ensures log[k].receipt.Some? && |log[k].receipt.value.volumes| == |intents|
      ensures forall p :: p in log[k].receipt.value.volumes ==> p.held.Some? && ReadBack(p.held.value) in looks
    {
      assert log[k] in log && CommandBacked(s, log[k], intents);
    }
    if s.disposition.Some? { DisposedPlan(s, intents); }
  }

  lemma VolumesReadBack(s: Store, looks: seq<Look>, intents: seq<nat>)
    requires Witnessed(s, looks, intents) && s.receipt.Some? && Ready(s.receipt.value, intents)
    ensures forall p :: p in s.receipt.value.volumes ==> p.held.Some? && ReadBack(p.held.value) in looks
    ensures forall v :: v in ReadyVolumes(s.receipt.value, intents) ==> ReadBack(v) in looks
  {
    var r := s.receipt.value;
    assert forall i :: 0 <= i < |intents| ==> Secured(r.volumes[i], intents[i]);
    forall v | v in ReadyVolumes(r, intents) ensures ReadBack(v) in looks {
      var i :| 0 <= i < |intents| && v == ReadyVolumes(r, intents)[i];
      assert r.volumes[i].held == Some(v);
    }
  }

  lemma OwnerListed(s: Store, intents: seq<nat>)
    requires Consistent(s, intents) && s.ownership.Some?
    ensures s.receipt.Some? && Ready(s.receipt.value, intents)
    ensures s.receipt.value.defined ==> s.ownership.value == CreatedOwnership(s.receipt.value, intents)
    ensures !s.receipt.value.defined ==> s.accepted != {} && AcceptedBy(s, intents, s.ownership.value)
  {
  }

  lemma DisposedPlan(s: Store, intents: seq<nat>)
    requires Consistent(s, intents) && s.disposition.Some?
    ensures s.disposition.value.plan < |s.plans|
  {
  }
}
