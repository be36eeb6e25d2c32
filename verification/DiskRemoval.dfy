/** Removing a VM together with selected disks: one durable intent and one acknowledgement around each irrevocable
    effect. Every step may fail, with or without its effect, and the coordinator may stop after any of them. */
module DiskRemoval {
  import opened Text

  datatype Mark = Pending | Intent | Deleted

  datatype Receipt = Receipt(binding: nat, definitionRemoved: bool, disks: seq<Mark>)

  datatype Command = RemoveDefinition | DeleteDisk(i: nat)

  /** How many disks are acknowledged deleted before the first that is not. */
  function Done(disks: seq<Mark>): (n: nat)
    ensures n <= |disks| && (forall i :: 0 <= i < n ==> disks[i].Deleted?) && (n < |disks| ==> !disks[n].Deleted?)
  {
    if disks == [] || !disks[0].Deleted? then 0 else 1 + Done(disks[1..])
  }

  /** deleted*, at most one intent, pending*. */
  predicate Shape(disks: seq<Mark>) {
    forall i :: Done(disks) < i < |disks| ==> disks[i].Pending?
  }

  predicate AllAre(disks: seq<Mark>, mark: Mark) { forall i :: 0 <= i < |disks| ==> disks[i] == mark }

  /** The first n commands a removal can issue: the definition, then the disks in order, each once. */
  function Script(n: nat): (c: seq<Command>)
    ensures |c| == n && forall k :: 0 <= k < n ==> c[k] == if k == 0 then RemoveDefinition else DeleteDisk(k - 1)
  {
    seq(n, k requires 0 <= k < n => if k == 0 then RemoveDefinition else DeleteDisk(k - 1))
  }

  /** What the receipt and the commands issued so far have to do with each other. */
  ghost predicate Agree(receipt: Option<Receipt>, log: seq<Command>, n: nat) {
    && log == Script(|log|)
    && match receipt
       case None => log == []
       case Some(r) =>
         && |r.disks| == n && Shape(r.disks)
         && if !r.definitionRemoved then AllAre(r.disks, Pending) && |log| <= 1
           else
             var done := Done(r.disks);
             1 + done <= |log| <= 1 + done + (if done < n && r.disks[done].Intent? then 1 else 0)
  }

  lemma {:induction false} DoneIs(disks: seq<Mark>, k: nat)
    requires k <= |disks| && (forall i :: 0 <= i < k ==> disks[i].Deleted?) && (k < |disks| ==> !disks[k].Deleted?)
    ensures Done(disks) == k
  {
    if k > 0 { DoneIs(disks[1..], k - 1); }
  }

  lemma ScriptExtends(log: seq<Command>, c: Command)
    requires log == Script(|log|) && c == if log == [] then RemoveDefinition else DeleteDisk(|log| - 1)
    ensures log + [c] == Script(|log| + 1)
  {
  }

  /** In every reachable state no disk deletion was issued before the definition's removal was recorded, none was issued
      twice, each has at least its durable intent, and only the last one can lack its acknowledgement. */
  lemma WhatAgreeMeans(receipt: Option<Receipt>, log: seq<Command>, n: nat)
    requires Agree(receipt, log, n)
    ensures forall k :: 0 <= k < |log| && log[k].DeleteDisk? ==>
      && receipt.Some? && receipt.value.definitionRemoved && log[k].i < n && !receipt.value.disks[log[k].i].Pending?
      && (k < |log| - 1 ==> receipt.value.disks[log[k].i].Deleted?)
      && log[0] == RemoveDefinition && forall j :: 0 <= j < |log| && log[j] == log[k] ==> j == k
    ensures receipt.Some? ==> forall i :: 0 <= i < n && receipt.value.disks[i].Deleted? ==> DeleteDisk(i) in log
  {
    if receipt.Some? {
      forall i | 0 <= i < n && receipt.value.disks[i].Deleted? ensures DeleteDisk(i) in log {
        assert i < Done(receipt.value.disks);
        assert log[i + 1] == DeleteDisk(i);
      }
    }
  }

  // What was seen

  /** A check showed the first i disks absent and the others present. */
  predicate ShowedFrom(looks: seq<seq<bool>>, n: nat, i: nat) { seq(n, k => k >= i) in looks }

  ghost predicate ShowedAbsent(looks: seq<seq<bool>>, n: nat, i: nat) {
    exists look :: look in looks && |look| == n && i < n && !look[i]
  }

  /** The removal began on a check that showed every disk present; each deletion was issued on one that showed exactly
      the disks before it absent; and each acknowledgement followed one that showed the disk absent. */
  ghost predicate Witnessed(receipt: Option<Receipt>, log: seq<Command>, looks: seq<seq<bool>>, n: nat) {
    && (receipt.Some? || log != [] ==> ShowedFrom(looks, n, 0))
    && (forall i :: DeleteDisk(i) in log ==> ShowedFrom(looks, n, i))
    && (receipt.Some? ==>
      forall i :: 0 <= i < |receipt.value.disks| && receipt.value.disks[i].Deleted? ==> ShowedAbsent(looks, n, i))
  }

  lemma LooksGrow(receipt: Option<Receipt>, log: seq<Command>, looks: seq<seq<bool>>, more: seq<seq<bool>>, n: nat)
    requires Witnessed(receipt, log, looks, n) && looks <= more
    ensures Witnessed(receipt, log, more, n)
  {
    assert forall look :: look in looks ==> look in more;
    if receipt.Some? {
      forall i | 0 <= i < |receipt.value.disks| && receipt.value.disks[i].Deleted? ensures ShowedAbsent(more, n, i) {
        assert ShowedAbsent(looks, n, i);
      }
    }
  }

  lemma AllTrue(states: seq<bool>)
    requires false !in states
    ensures states == seq(|states|, _ => true)
  {
    forall k | 0 <= k < |states| ensures states[k] {
      assert states[k] in states;
    }
  }

  lemma AllSeen(before: Option<Receipt>, r: Receipt, log: seq<Command>, looks: seq<seq<bool>>, n: nat)
    requires Witnessed(before, log, looks, n) && AllAre(r.disks, Pending) && seq(n, _ => true) in looks
    ensures Witnessed(Some(r), log, looks, n)
  {
    assert seq(n, _ => true) == seq(n, k => k >= 0);
  }

  lemma RemovalSeen(r: Receipt, log: seq<Command>, looks: seq<seq<bool>>, n: nat)
    requires Witnessed(Some(r), log, looks, n)
    ensures Witnessed(Some(r), log + [RemoveDefinition], looks, n)
  {
  }

  lemma SameMarks(r: Receipt, next: Receipt, log: seq<Command>, looks: seq<seq<bool>>, n: nat)
    requires Witnessed(Some(r), log, looks, n) && |next.disks| == |r.disks|
    requires forall i :: 0 <= i < |r.disks| && next.disks[i].Deleted? ==> r.disks[i].Deleted?
    ensures Witnessed(Some(next), log, looks, n)
  {
  }

  lemma DeletionSeen(r: Receipt, log: seq<Command>, looks: seq<seq<bool>>, n: nat, i: nat, seen: seq<bool>)
    requires Witnessed(Some(r), log, looks, n) && seen in looks && |seen| == n
    requires forall k :: 0 <= k < n ==> seen[k] == (k >= i)
    ensures Witnessed(Some(r), log + [DeleteDisk(i)], looks, n)
  {
    assert seen == seq(n, k => k >= i);
  }

  lemma AbsenceSeen(r: Receipt, log: seq<Command>, looks: seq<seq<bool>>, n: nat, i: nat, seen: seq<bool>)
    requires Witnessed(Some(r), log, looks, n) && seen in looks && |seen| == n && i < n && !seen[i] && |r.disks| == n
    ensures Witnessed(Some(r.(disks := r.disks[i := Deleted])), log, looks, n)
  {
    assert ShowedAbsent(looks, n, i);
  }

  class Removal {
    const n: nat
    var receipt: Option<Receipt>
    var defined: bool
    var present: seq<bool>
    ghost var log: seq<Command>
    /** What the checks showed. */
    ghost var looks: seq<seq<bool>>

    ghost predicate Valid()
      reads this
    {
      |present| == n && Agree(receipt, log, n) && Witnessed(receipt, log, looks, n)
    }

    constructor (n: nat)
      ensures Valid() && this.n == n && receipt.None? && log == [] && defined && AllPresent()
    {
      this.n, receipt, defined, present, log, looks := n, None, true, seq(n, _ => true), [], [];
    }

    predicate AllPresent()
      reads this
    {
      forall i :: 0 <= i < |present| ==> present[i]
    }

    /** saveReceipt: compare-and-swap. A failed call may still have written. */
    method Save(previous: Option<Receipt>, next: Receipt, quiet: bool) returns (ok: bool)
      requires Valid() && (receipt == previous ==> Agree(Some(next), log, n) && Witnessed(Some(next), log, looks, n))
      modifies this`receipt
      ensures Valid() && (receipt == old(receipt) || (old(receipt) == previous && receipt == Some(next)))
      ensures ok ==> old(receipt) == previous && receipt == Some(next)
      ensures quiet && old(receipt) == previous ==> ok
    {
      var fails: bool := *;
      if receipt != previous || (fails && !quiet) { return false; }
      receipt := Some(next);
      fails := *;
      ok := quiet || !fails;
    }

    /** Whatever anybody else does to the definition and the volumes. */
    method Outside(quiet: bool)
      requires Valid()
      modifies this`defined, this`present
      ensures Valid() && (quiet ==> defined == old(defined) && present == old(present))
    {
      if !quiet {
        defined := *;
        var states: seq<bool> := *;
        if |states| == n { present := states; }
      }
    }

    /** CheckDiskRemoval: an error, or the true state of each volume. */
    method Check(quiet: bool) returns (states: Option<seq<bool>>)
      requires Valid()
      modifies this`defined, this`present, this`looks
      ensures Valid() && (states.Some? ==> states.value == present)
      ensures looks == if states.Some? then old(looks) + [states.value] else old(looks)
      ensures quiet ==> states.Some? && defined == old(defined) && present == old(present)
    {
      Outside(quiet);
      var fails: bool := *;
      if fails && !quiet { return None; }
      LooksGrow(receipt, log, looks, looks + [present], n);
      looks := looks + [present];
      return Some(present);
    }

    /** Execute: the receipt decides, step by step, and no step is issued without its durable intent. */
    method Execute(binding: nat, quiet: bool) returns (ok: bool)
      requires Valid()
      modifies this
      ensures Valid() && old(log) <= log && old(looks) <= looks
      ensures old(receipt).Some? ==> !ok && receipt == old(receipt) && log == old(log)
      ensures receipt != old(receipt) || log != old(log) ==>
        |old(looks)| < |looks| && looks[|old(looks)|] == seq(n, _ => true)
      ensures quiet && !old(AllPresent()) ==> !ok && receipt == old(receipt) && log == old(log)
      ensures ok ==>
        receipt.Some? && receipt.value == Receipt(binding, true, receipt.value.disks)
          && AllAre(receipt.value.disks, Deleted)
      ensures ok ==> log == Script(n + 1)
      ensures quiet && old(receipt).None? && old(AllPresent()) ==>
        ok && !defined && forall i :: 0 <= i < n ==> !present[i]
    {
      hide Agree, Shape, Witnessed;
      var states := Check(quiet);
      if states.None? || false in states.value { return false; }
      var r := Receipt(binding, false, seq(n, _ => Pending));
      Fresh(r, log, n, receipt);
      AllTrue(states.value);
      AllSeen(receipt, r, log, looks, n);
      ok := Save(None, r, quiet);
      if !ok { return; }
      Issued(r, log, n);
      RemovalSeen(r, log, looks, n);
      log := log + [RemoveDefinition];
      var removes: bool := *;
      if removes || quiet { defined := false; }
      var fails: bool := *;
      if fails && !quiet { return false; }
      Acknowledged(r, log, n);
      SameMarks(r, r.(definitionRemoved := true), log, looks, n);
      var previous := Some(r);
      r := r.(definitionRemoved := true);
      ok := Save(previous, r, quiet);
      if !ok { return; }
      ok := DeleteDisks(r, quiet);
    }

    /** The delete loop. */
    method DeleteDisks(first: Receipt, quiet: bool) returns (ok: bool)
      requires Valid() && receipt == Some(first) && first.definitionRemoved && |log| == 1
      requires |first.disks| == n && AllAre(first.disks, Pending)
      modifies this
      ensures Valid() && old(log) <= log && old(looks) <= looks
      ensures ok ==>
        receipt.Some? && receipt.value == first.(disks := receipt.value.disks) && AllAre(receipt.value.disks, Deleted)
      ensures ok ==> log == Script(n + 1)
      ensures quiet && old(AllPresent()) ==> ok && defined == old(defined) && forall i :: 0 <= i < n ==> !present[i]
    {
      hide Agree, Shape, Witnessed;
      var r := first;
      for i := 0 to n
        invariant Valid() && receipt == Some(r) && r == first.(disks := r.disks) && MarkedTo(r.disks, n, i)
        invariant |log| == 1 + i && old(log) <= log && old(looks) <= looks
        invariant quiet && old(AllPresent()) ==>
          defined == old(defined) && forall k :: 0 <= k < n ==> present[k] == (k >= i)
      {
        var stops: bool := *;
        if stops && !quiet { return false; }
        ok, r := DeleteOne(r, i, quiet);
        if !ok { return; }
      }
      LogIsScript(receipt, log, n);
      ok := true;
    }

    /** One round: all volumes as the receipt says, intent, deletion, absence seen, acknowledgement. */
    method DeleteOne(before: Receipt, i: nat, quiet: bool) returns (ok: bool, r: Receipt)
      requires Valid() && receipt == Some(before) && before.definitionRemoved && i < n && MarkedTo(before.disks, n, i)
        && |log| == 1 + i
      modifies this
      ensures Valid() && old(log) <= log && old(looks) <= looks
      ensures ok ==>
        receipt == Some(r) && r == before.(disks := r.disks) && MarkedTo(r.disks, n, i + 1) && |log| == 2 + i
      ensures quiet && (forall k :: 0 <= k < n ==> old(present)[k] == (k >= i)) ==>
        ok && defined == old(defined) && forall k :: 0 <= k < n ==> present[k] == (k >= i + 1)
    {
      hide Agree, Shape, Witnessed;
      r := before;
      var states := Check(quiet);
      if states.None? { return false, r; }
      if exists k :: 0 <= k < n && states.value[k] != (k >= i) { return false, r; }
      Intended(r, log, n, i);
      ghost var seen := states.value;
      SameMarks(r, r.(disks := r.disks[i := Intent]), log, looks, n);
      r := r.(disks := r.disks[i := Intent]);
      ok := Save(Some(before), r, quiet);
      if !ok { return; }
      ok, r := Attempt(r, i, seen, quiet);
    }

    /** The deletion behind its durable intent, the absence seen, the acknowledgement. */
    method Attempt(intended: Receipt, i: nat, ghost seen: seq<bool>, quiet: bool) returns (ok: bool, r: Receipt)
      requires Valid() && receipt == Some(intended) && intended.definitionRemoved && i < n && |log| == 1 + i
      requires |intended.disks| == n && intended.disks[i].Intent? && MarkedTo(intended.disks[i := Pending], n, i)
      requires seen in looks && |seen| == n && forall k :: 0 <= k < n ==> seen[k] == (k >= i)
      modifies this
      ensures Valid() && old(log) <= log && old(looks) <= looks
      ensures ok ==> receipt == Some(r) && r == intended.(disks := intended.disks[i := Deleted]) && |log| == 2 + i
      ensures quiet ==> ok && defined == old(defined) && present == old(present)[i := false]
    {
      hide Agree, Shape, Witnessed;
      r := intended;
      assert forall k :: 0 <= k < n && k != i ==> r.disks[k] == r.disks[i := Pending][k];
      Attempted(r, log, n, i);
      DeletionSeen(r, log, looks, n, i, seen);
      log := log + [DeleteDisk(i)];
      var deletes: bool := *;
      if deletes || quiet { present := present[i := false]; }
      var fails: bool := *;
      if fails && !quiet { return false, r; }
      var states := Check(quiet);
      if states.None? || states.value[i] { return false, r; }
      var previous := Some(r);
      Confirmed(r, log, n, i);
      AbsenceSeen(r, log, looks, n, i, states.value);
      r := r.(disks := r.disks[i := Deleted]);
      ok := Save(previous, r, quiet);
    }

    /** Reconcile: it issues and writes nothing, and is satisfied only by a fully acknowledged removal seen absent. */
    method Reconcile(binding: nat, quiet: bool) returns (done: bool)
      requires Valid()
      modifies this`defined, this`present, this`looks
      ensures Valid() && old(looks) <= looks
      ensures done ==> receipt.Some? && receipt.value == Receipt(binding, true, receipt.value.disks)
      ensures done ==> AllAre(receipt.value.disks, Deleted) && forall i :: 0 <= i < n ==> !present[i]
      ensures quiet && receipt.Some? && receipt.value == Receipt(binding, true, receipt.value.disks) ==>
        (AllAre(receipt.value.disks, Deleted) && (forall i :: 0 <= i < n ==> !present[i]) ==> done)
    {
      if receipt.None? || receipt.value.binding != binding || !receipt.value.definitionRemoved
        || !AllAre(receipt.value.disks, Deleted) {
        return false;
      }
      var states := Check(quiet);
      return states.Some? && forall i :: 0 <= i < n ==> !states.value[i];
    }

    /** Any run of executions, reconciliations, crashes and outside changes. */
    method Run(steps: nat)
      requires Valid()
      modifies this
      ensures Valid() && old(log) <= log && old(looks) <= looks
    {
      for k := 0 to steps
        invariant Valid() && old(log) <= log && old(looks) <= looks
      {
        var choice: nat, binding: nat := *, *;
        if choice == 0 {
          var _ := Execute(binding, false);
        } else if choice == 1 {
          var _ := Reconcile(binding, false);
        } else {
          Outside(false);
        }
      }
    }
  }

  /** The first i disks are acknowledged deleted and the others pending. */
  predicate MarkedTo(disks: seq<Mark>, n: nat, i: nat) {
    |disks| == n && (forall k :: 0 <= k < i && k < n ==> disks[k].Deleted?)
      && (forall k :: i <= k < n ==> disks[k].Pending?)
  }

  lemma Fresh(r: Receipt, log: seq<Command>, n: nat, before: Option<Receipt>)
    requires Agree(before, log, n) && |r.disks| == n && AllAre(r.disks, Pending) && !r.definitionRemoved
    ensures before.None? ==> Agree(Some(r), log, n) && log == []
  {
  }

  lemma Issued(r: Receipt, log: seq<Command>, n: nat)
    requires Agree(Some(r), log, n) && !r.definitionRemoved && log == []
    ensures Agree(Some(r), log + [RemoveDefinition], n)
  {
    ScriptExtends(log, RemoveDefinition);
  }

  lemma Acknowledged(r: Receipt, log: seq<Command>, n: nat)
    requires Agree(Some(r), log, n) && !r.definitionRemoved && |log| == 1
    ensures Agree(Some(r.(definitionRemoved := true)), log, n)
  {
    DoneIs(r.disks, 0);
  }

  lemma Intended(r: Receipt, log: seq<Command>, n: nat, i: nat)
    requires Agree(Some(r), log, n) && r.definitionRemoved && i < n && MarkedTo(r.disks, n, i) && |log| == 1 + i
    ensures Agree(Some(r.(disks := r.disks[i := Intent])), log, n)
  {
    DoneIs(r.disks, i);
    DoneIs(r.disks[i := Intent], i);
  }

  lemma Attempted(r: Receipt, log: seq<Command>, n: nat, i: nat)
    requires Agree(Some(r), log, n) && r.definitionRemoved && i < n && r.disks[i].Intent? && |log| == 1 + i
    requires forall k :: 0 <= k < i ==> r.disks[k].Deleted?
    ensures Agree(Some(r), log + [DeleteDisk(i)], n)
  {
    DoneIs(r.disks, i);
    ScriptExtends(log, DeleteDisk(i));
  }

  lemma Confirmed(r: Receipt, log: seq<Command>, n: nat, i: nat)
    requires Agree(Some(r), log, n) && r.definitionRemoved && i < n && r.disks[i].Intent? && |log| == 2 + i
    requires (forall k :: 0 <= k < i ==> r.disks[k].Deleted?) && (forall k :: i < k < n ==> r.disks[k].Pending?)
    ensures Agree(Some(r.(disks := r.disks[i := Deleted])), log, n)
  {
    DoneIs(r.disks, i);
    DoneIs(r.disks[i := Deleted], i + 1);
  }

  lemma LogIsScript(receipt: Option<Receipt>, log: seq<Command>, n: nat)
    requires Agree(receipt, log, n)
    ensures log == Script(|log|)
  {
  }
}
