/** Moving a stopped VM's disk into another pool: copy, point the definition at the copy, delete the original. Each
    provider call may fail with or without its effect, and the coordinator may stop after any step. */
module DiskMove {
  import opened Text

  type Content = nat

  /** How far a move got, as recorded and as seen. */
  datatype Stage = Intent | Copied | Retargeted | OldDeleted

  datatype Receipt = Receipt(binding: nat, stage: Stage, oldVolumeKept: bool)

  datatype Volume = Partial | Whole(content: Content)

  /** The saved definition and the two volumes. */
  datatype World = World(namesCopy: bool, original: Option<Volume>, copied: Option<Volume>)

  datatype Command = Copy | Define | DeleteOld

  datatype Outcome = Done | NotDone | Failed

  /** CheckDiskMove: what it reports, or nothing where it reports an error. "Before" is the stage of an intent. */
  function Seen(w: World, content: Content): Option<Stage> {
    if !w.namesCopy then
      if w.original != Some(Whole(content)) then None
      else if w.copied.None? then Some(Intent)
      else if w.copied == Some(Whole(content)) then Some(Copied)
      else None
    else if w.copied != Some(Whole(content)) then None
    else if w.original.None? then Some(OldDeleted)
    else Some(Retargeted)
  }

  function Rank(s: Stage): nat {
    match s case Intent => 0 case Copied => 1 case Retargeted => 2 case OldDeleted => 3
  }

  /** How far the world is, whether or not a check would report it. */
  function Reached(w: World, content: Content): nat {
    if w.namesCopy then (if w.original.None? then 3 else 2) else if w.copied == Some(Whole(content)) then 1 else 0
  }

  /** The commands still to be issued from a stage on. */
  function Commands(from: Stage, keepOldCopy: bool): seq<Command> {
    (if from.Intent? then [Copy] else []) + (if Rank(from) < 2 then [Define] else [])
    + (if !keepOldCopy && !from.OldDeleted? then [DeleteOld] else [])
  }

  /** The definition names an existing volume with the disk's content. */
  predicate Bootable(w: World, content: Content) {
    (if w.namesCopy then w.copied else w.original) == Some(Whole(content))
  }

  /** The receipt is never ahead of the world. */
  predicate NotAhead(r: Option<Receipt>, w: World, content: Content) {
    r.Some? ==> Rank(r.value.stage) <= Reached(w, content)
  }

  /** A check never reports more, or less, than there is. */
  lemma SeenIsReached(w: World, content: Content)
    requires Bootable(w, content)
    ensures Seen(w, content).Some? ==> Rank(Seen(w, content).value) == Reached(w, content)
    ensures Seen(w, content).None? <==> !w.namesCopy && w.copied.Some? && w.copied != Some(Whole(content))
  {
  }

  class Move {
    const content: Content
    const keepOldCopy: bool
    var receipt: Option<Receipt>
    var world: World
    ghost var log: seq<Command>

    ghost predicate Valid()
      reads this
    {
      && Bootable(world, content) && NotAhead(receipt, world, content)
      && (DeleteOld in log ==> world.namesCopy && !keepOldCopy)
      && (world.original.None? ==> DeleteOld in log)
      && (log != [] ==> receipt.Some?)
      // Each step is recorded before the next one is issued.
      && (Copy in log && Define in log ==> Rank(receipt.value.stage) >= 1)
      && (Define in log && DeleteOld in log ==> Rank(receipt.value.stage) >= 2)
      && (forall j, k :: 0 <= j < |log| && 0 <= k < |log| && log[j] == log[k] ==> j == k)
    }

    /** What no step takes back, and what belongs to the definition. */
    twostate predicate Onward()
      reads this
    {
      && Valid() && old(log) <= log && (old(world).namesCopy ==> world.namesCopy)
      && (old(receipt).Some? ==> receipt.Some?)
    }

    constructor (content: Content, keepOldCopy: bool)
      ensures Valid() && receipt.None? && log == [] && this.content == content && this.keepOldCopy == keepOldCopy
      ensures world == World(false, Some(Whole(content)), None)
    {
      this.content, this.keepOldCopy, receipt, log := content, keepOldCopy, None, [];
      world := World(false, Some(Whole(content)), None);
    }

    method Save(previous: Option<Receipt>, next: Receipt, quiet: bool) returns (ok: bool)
      requires Valid() && NotAhead(Some(next), world, content)
      requires previous.Some? ==> Rank(previous.value.stage) <= Rank(next.stage)
      modifies this`receipt
      ensures Onward()
      ensures ok ==> old(receipt) == previous && receipt == Some(next)
      ensures receipt == old(receipt) || (old(receipt) == previous && receipt == Some(next))
      ensures quiet && old(receipt) == previous ==> ok
    {
      var fails: bool := *;
      if receipt != previous || (fails && !quiet) { return false; }
      receipt := Some(next);
      fails := *;
      ok := quiet || !fails;
    }

    method Check(quiet: bool) returns (seen: Option<Stage>)
      ensures seen.Some? ==> seen == Seen(world, content)
      ensures quiet ==> seen == Seen(world, content)
    {
      var fails: bool := *;
      if fails && !quiet { return None; }
      return Seen(world, content);
    }

    /** The stream copy: never over an existing name, read back before it is called a copy. */
    method CopyDiskVolume(quiet: bool) returns (ok: bool)
      requires Valid() && receipt.Some? && log == []
      modifies this`world, this`log
      ensures Onward() && log == [Copy] && world.namesCopy == old(world).namesCopy
        && world.original == old(world).original
      ensures ok ==> world.copied == Some(Whole(content))
      ensures quiet && old(world).copied.None? ==> ok
    {
      log := log + [Copy];
      if world.copied.Some? { return false; }
      var reached: nat := *;
      if reached == 0 && !quiet { return false; }
      if reached == 1 && !quiet {
        world := world.(copied := Some(Partial));
        return false;
      }
      world := world.(copied := Some(Whole(content)));
      ok := *;
      if quiet { ok := true; }
    }

    /** The definition is saved naming the copy, if the copy is the verified one. */
    method DefineMovedDisk(quiet: bool) returns (ok: bool)
      requires Valid() && receipt.Some? && Define !in log && DeleteOld !in log
      requires Copy in log ==> Rank(receipt.value.stage) >= 1
      modifies this`world, this`log
      ensures Onward() && log == old(log) + [Define] && world == old(world).(namesCopy := world.namesCopy)
      ensures ok ==> world.namesCopy
      ensures quiet && old(world).copied == Some(Whole(content)) ==> ok
    {
      log := log + [Define];
      var fails: bool := *;
      if world.copied != Some(Whole(content)) || (fails && !quiet) { return false; }
      world := world.(namesCopy := true);
      ok := *;
      if quiet { ok := true; }
    }

    /** The original is deleted, never while the definition names it. */
    method DeleteOldVolume(quiet: bool) returns (ok: bool)
      requires Valid() && receipt.Some? && world.namesCopy && !keepOldCopy && DeleteOld !in log
      requires Define in log ==> Rank(receipt.value.stage) >= 2
      modifies this`world, this`log
      ensures Onward() && log == old(log) + [DeleteOld] && world == old(world).(original := world.original)
      ensures ok ==> world.original.None?
      ensures quiet ==> ok
    {
      log := log + [DeleteOld];
      var fails: bool := *;
      if fails && !quiet { return false; }
      world := world.(original := None);
      ok := *;
      if quiet { ok := true; }
    }

    /** What a finished move records, by how far the world was when it began: each step it took itself, and whether the
        original it was to delete was kept. */
    predicate Finished(was: World, r: Receipt, now: World) {
      var seen := Seen(was, content);
      && seen.Some? && now.namesCopy
      && var deletes := !keepOldCopy && !seen.value.OldDeleted?;
      && (r.stage.OldDeleted? ==> now.original.None?)
      && (if deletes then r.stage.OldDeleted? <==> !r.oldVolumeKept else !r.stage.OldDeleted? && !r.oldVolumeKept)
      && (!r.stage.OldDeleted? ==> r.stage == if Rank(seen.value) < 2 then Retargeted else Intent)
    }

    /** Execute: the steps that are still to be done, each recorded once it is done. */
    method Execute(binding: nat, quiet: bool) returns (outcome: Outcome)
      requires Valid()
      modifies this
      ensures Onward()
      ensures old(receipt).Some? ==>
        outcome.Failed? && receipt == old(receipt) && world == old(world) && log == old(log)
      ensures outcome.NotDone? ==> !world.namesCopy && world.original == Some(Whole(content))
      ensures outcome.Done? ==> world.namesCopy && receipt.Some? && receipt.value.binding == binding
      ensures outcome.Done? ==> Seen(old(world), content).Some? && Finished(old(world), receipt.value, world)
      ensures outcome.Done? ==> log == old(log) + Commands(Seen(old(world), content).value, keepOldCopy)
      ensures quiet && old(receipt).None? && Seen(old(world), content).Some? ==>
        outcome.Done? && (world.original.None? <==> old(world).original.None? || !keepOldCopy)
    {
      var r := Receipt(binding, Intent, false);
      var ok := Save(None, r, quiet);
      if !ok { return Failed; }
      var seen := Check(quiet);
      if seen.None? { return Failed; }
      var stage := seen.value;
      if stage.Intent? {
        ok := CopyDiskVolume(quiet);
        if !ok {
          var after := Check(quiet);
          return if after == Some(Intent) || after == Some(Copied) then NotDone else Failed;
        }
        var previous := Some(r);
        r := r.(stage := Copied);
        ok := Save(previous, r, quiet);
        if !ok { return Failed; }
        stage := Copied;
      }
      if stage.Copied? {
        ok, r := Retarget(r, quiet);
        if !ok { return Failed; }
        stage := Retargeted;
      }
      ok := Conclude(r, stage, quiet);
      return if ok then Done else Failed;
    }

    /** The definition, and its record. */
    method Retarget(before: Receipt, quiet: bool) returns (ok: bool, r: Receipt)
      requires Valid() && receipt == Some(before) && Define !in log && DeleteOld !in log && Rank(before.stage) <= 2
      requires Copy in log ==> Rank(before.stage) >= 1
      modifies this
      ensures Onward() && log == old(log) + [Define] && world.original == old(world).original
      ensures receipt.Some? && r == before.(stage := Retargeted)
      ensures ok ==> receipt == Some(r) && world.namesCopy
      ensures quiet && old(world).copied == Some(Whole(content)) ==> ok
    {
      r := before.(stage := Retargeted);
      ok := DefineMovedDisk(quiet);
      if !ok { return; }
      ok := Save(Some(before), r, quiet);
    }

    /** The original's deletion, unless it is to be kept or gone already, and the last record. */
    method Conclude(before: Receipt, stage: Stage, quiet: bool) returns (ok: bool)
      requires Valid() && receipt == Some(before) && DeleteOld !in log && Rank(stage) >= 2 && world.namesCopy
      requires (stage.OldDeleted? <==> world.original.None?) && (Define in log ==> Rank(before.stage) >= 2)
      modifies this
      ensures Onward() && log == old(log) + if stage.Retargeted? && !keepOldCopy then [DeleteOld] else []
      ensures world.namesCopy
      ensures ok ==> receipt.Some? && receipt.value.binding == before.binding
      ensures ok ==>
        if stage.Retargeted? && !keepOldCopy then
          receipt.value == (if receipt.value.stage.OldDeleted? then before.(stage := OldDeleted)
            else before.(oldVolumeKept := true))
          && (receipt.value.stage.OldDeleted? ==> world.original.None?)
        else receipt.value == before && world == old(world)
      ensures quiet ==> ok && (world.original.None? <==> old(world).original.None? || !keepOldCopy)
    {
      var r := before;
      if stage.Retargeted? && !keepOldCopy {
        ok := DeleteOldVolume(quiet);
        r := if ok then r.(stage := OldDeleted) else r.(oldVolumeKept := true);
      }
      ok := Save(Some(before), r, quiet);
    }

    /** Reconcile changes nothing, and is satisfied only when the definition names the verified copy. */
    method Reconcile(binding: nat, quiet: bool) returns (done: bool)
      requires Valid()
      ensures done ==>
        receipt.Some? && receipt.value.binding == binding && world.namesCopy && world.copied == Some(Whole(content))
      ensures quiet && receipt.Some? && receipt.value.binding == binding ==> (done <==> world.namesCopy)
    {
      if receipt.None? || receipt.value.binding != binding { return false; }
      var seen := Check(quiet);
      return seen == Some(Retargeted) || seen == Some(OldDeleted);
    }

    /** Any run of executions and reconciliations, each cut short anywhere. */
    method Run(steps: nat)
      requires Valid()
      modifies this
      ensures Onward()
    {
      for k := 0 to steps
        invariant Onward()
      {
        var execute: bool, binding: nat := *, *;
        if execute {
          var _ := Execute(binding, false);
        } else {
          var _ := Reconcile(binding, false);
        }
      }
    }
  }
}
