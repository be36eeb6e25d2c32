/** Handing a prepared copy over to a new VM: its files are released behind the upload, and from the first release on
    no other creation may use them. Other creations and their crashes interleave with every step. */
module HandOver {
  import opened Text

  type Byte = bv8
  type Plan = nat

  /** A prepared copy as it stands: what its files read as, who took it over, and how much of each is freed. */
  datatype State = State(files: seq<seq<Byte>>, handed: Option<Plan>, freed: seq<nat>)

  ghost predicate FileOk(file: seq<Byte>, original: seq<Byte>, freed: nat) {
    |file| == |original| && freed <= |original| && forall k :: freed <= k < |file| ==> file[k] == original[k]
  }

  /** A file is its original but for a freed prefix, and only a recorded hand-over frees anything. */
  ghost predicate StateOk(originals: seq<seq<Byte>>, s: State) {
    && |s.files| == |s.freed| == |originals|
    && (forall i :: 0 <= i < |s.files| ==> FileOk(s.files[i], originals[i], s.freed[i]))
    && (s.handed.None? ==> forall i :: 0 <= i < |s.freed| ==> s.freed[i] == 0)
  }

  /** checkSource offers the copy to a plan. */
  predicate Offered(originals: seq<seq<Byte>>, s: State, plan: Plan, handOver: bool) {
    (s.handed.None? && s.files == originals) || (handOver && s.handed == Some(plan))
  }

  function TakenOver(s: State, plan: Plan): State { s.(handed := Some(plan)) }

  /** A file with its first bytes freed: they read as zero. */
  function Zeroed(file: seq<Byte>, end: nat): (f: seq<Byte>)
    ensures |f| == |file|
  {
    seq(|file|, k requires 0 <= k < |file| => if k < end then 0 else file[k])
  }

  function Freed(s: State, i: nat, end: nat): State
    requires i < |s.files| == |s.freed|
  {
    s.(files := s.files[i := Zeroed(s.files[i], end)], freed := s.freed[i := Max(s.freed[i], end)])
  }

  /** A prepared copy: what its files were prepared with, what they read as now, and who took it over. */
  class Prepared {
    const originals: seq<seq<Byte>>
    var files: seq<seq<Byte>>
    var handed: Option<Plan>
    ghost var freed: seq<nat>

    ghost predicate Valid()
      reads this
    {
      StateOk(originals, Now())
    }

    ghost function Now(): State
      reads this
    {
      State(files, handed, freed)
    }

    /** What steps of one plan may change: it may take the copy over if nobody has, and free only what it took over. */
    twostate predicate StepsOf(plan: Plan)
      reads this
    {
      && Valid() && (handed == old(handed) || (old(handed).None? && handed == Some(plan)))
      && ((files == old(files) && freed == old(freed)) || handed == Some(plan))
      && (forall i :: 0 <= i < |freed| && i < |old(freed)| ==> old(freed)[i] <= freed[i])
    }

    /** What steps of all other plans may change. */
    twostate predicate StepsOfOthers(plan: Plan)
      reads this
    {
      && Valid() && (old(handed).Some? ==> handed == old(handed))
        && (handed == Some(plan) ==> old(handed) == Some(plan))
      && (old(handed) == Some(plan) ==> files == old(files) && freed == old(freed))
    }

    constructor (originals: seq<seq<Byte>>)
      ensures Valid() && this.originals == originals && handed.None?
    {
      this.originals, files, handed, freed := originals, originals, None, seq(|originals|, _ => 0);
    }

    /** A step of some other creation. */
    method Others(plan: Plan)
      requires Valid()
      modifies this
      ensures StepsOfOthers(plan)
    {
      var other: Plan := *;
      if other == plan { return; }
      var takes: bool := *;
      if takes && handed.None? { handed := Some(other); }
      var i: nat, to: nat := *, *;
      if handed == Some(other) && i < |files| && to <= |originals[i]| { var _ := Punch(i, to); }
    }

    /** The file system frees a prefix of a file, or some part of it when it fails. */
    method Punch(i: nat, to: nat) returns (ok: bool)
      requires Valid() && i < |files| && to <= |originals[i]| && handed.Some?
      modifies this
      ensures Valid() && exists end: nat :: (end <= to && (ok ==> end == to)) && Now() == Freed(old(Now()), i, end)
      ensures handed == old(handed) && freed == old(freed)[i := freed[i]]
      ensures old(freed)[i] <= freed[i] <= Max(old(freed)[i], to) && (ok ==> to <= freed[i])
    {
      ok := *;
      var end: nat :| end <= to && (ok ==> end == to);
      assert FileOk(files[i], originals[i], freed[i]);
      files := files[i := Zeroed(files[i], end)];
      freed := freed[i := Max(freed[i], end)];
      assert Now() == Freed(old(Now()), i, end);
    }

    /** RecordHandOver: put where nothing was. */
    method RecordHandOver(plan: Plan) returns (ok: bool)
      requires Valid()
      modifies this`handed
      ensures StepsOf(plan)
      ensures ok ==> old(handed).None? && Now() == TakenOver(old(Now()), plan)
    {
      var fails: bool := *;
      if handed.Some? || fails { return false; }
      handed := Some(plan);
      ok := *;
    }

    /** Approved: never for a copy that was handed over, and only with every file unchanged. */
    method Approved() returns (ok: bool)
      requires Valid()
      ensures ok ==> handed.None? && files == originals
    {
      if handed.Some? { return false; }
      assert forall i :: 0 <= i < |files| ==> FileOk(files[i], originals[i], 0) ==> files[i] == originals[i];
      ok := *;
    }

    /** checkSource: the files themselves, or after a hand-over the receipt, which only the plan that took them may rely
        on. */
    method CheckSource(plan: Plan, handOver: bool) returns (ok: bool)
      requires Valid()
      ensures ok ==> Offered(originals, Now(), plan, handOver)
    {
      if handOver && handed.Some? {
        if handed.value != plan { return false; }
        ok := *;
      } else {
        ok := Approved();
      }
    }
  }

  function Max(a: int, b: int): int { if a < b then b else a }

  datatype Chunk = Bytes(bytes: seq<Byte>) | End | Failed

  /** releasingReader over one file of a copy that its plan has taken over. */
  class ReleasingReader {
    const copy: Prepared
    const plan: Plan
    const file: nat
    var read: nat
    var released: nat

    ghost predicate Valid()
      reads this, copy
    {
      && copy.Valid() && copy.handed == Some(plan) && file < |copy.files|
      && released <= copy.freed[file] <= read <= |copy.originals[file]|
    }

    /** How much of the prepared file still takes up space. */
    ghost function Kept(): nat
      requires Valid()
      reads this, copy
    {
      |copy.originals[file]| - copy.freed[file]
    }

    constructor (copy: Prepared, plan: Plan, file: nat)
      requires copy.Valid() && copy.handed == Some(plan) && file < |copy.files| && copy.freed[file] == 0
      ensures Valid() && this.copy == copy && this.plan == plan && this.file == file && read == 0 && fresh(this)
    {
      this.copy, this.plan, this.file, read, released := copy, plan, file, 0, 0;
    }

    method Release(end: nat) returns (ok: bool)
      requires Valid() && end <= read
      modifies this`released, copy
      ensures Valid() && copy.StepsOf(plan) && (ok ==> end <= released)
      ensures copy.freed == old(copy.freed)[file := copy.freed[file]]
        && copy.freed[file] <= Max(old(copy.freed)[file], end)
    {
      if end <= released { return true; }
      ok := copy.Punch(file, end);
      if ok { released := end; }
    }

    /** Read: first release what the read before returned, then read on. Only bytes of earlier reads are ever freed,
        and file and upload together never take more than the file's size and one outstanding read. */
    method Read(most: nat) returns (chunk: Chunk)
      requires Valid()
      modifies this, copy
      ensures Valid() && copy.StepsOf(plan)
      ensures old(read) <= read
      ensures chunk.Bytes? ==> |chunk.bytes| <= most && chunk.bytes == copy.originals[file][old(read)..read]
      ensures chunk.Bytes? ==> Kept() + read <= |copy.originals[file]| + |chunk.bytes|
      ensures !chunk.Bytes? ==> read == old(read)
      ensures chunk.End? ==> read == |copy.originals[file]|
      ensures copy.freed[file] <= old(read)
      ensures copy.freed == old(copy.freed)[file := copy.freed[file]]
    {
      var ok := Release(read);
      if !ok { return Failed; }
      ok := *;
      if !ok { return Failed; }
      if read == |copy.files[file]| { return End; }
      assert FileOk(copy.files[file], copy.originals[file], copy.freed[file]);
      var n :| 0 <= n <= most && read + n <= |copy.files[file]|;
      chunk := Bytes(copy.files[file][read..read + n]);
      read := read + n;
    }
  }

  /** The upload of a handed-over file: whatever the sizes of the reads and whatever others do meanwhile, the volume
      receives the original bytes in order, and in the end the whole file is released. */
  method UploadReleasing(copy: Prepared, plan: Plan, file: nat, rounds: nat) returns (ok: bool, uploaded: seq<Byte>)
    requires copy.Valid() && copy.handed == Some(plan) && file < |copy.files| && copy.freed[file] == 0
    modifies copy
    ensures copy.Valid() && copy.handed == Some(plan)
    ensures uploaded <= copy.originals[file] && copy.freed[file] <= |uploaded|
    ensures ok ==> uploaded == copy.originals[file] && copy.freed[file] == |copy.originals[file]|
    ensures copy.freed == old(copy.freed)[file := copy.freed[file]]
  {
    var reader := new ReleasingReader(copy, plan, file);
    uploaded := [];
    for k := 0 to rounds
      invariant reader.Valid() && fresh(reader) && reader.copy == copy && reader.plan == plan && reader.file == file
      invariant uploaded == copy.originals[file][..reader.read]
      invariant copy.freed == old(copy.freed)[file := copy.freed[file]]
    {
      copy.Others(plan);
      var most: nat := *;
      var chunk := reader.Read(most);
      match chunk
      case Failed => return false, uploaded;
      case End =>
        ok := reader.Release(|uploaded|);
        return ok, uploaded;
      case Bytes(bytes) =>
        uploaded := uploaded + bytes;
        assert uploaded == copy.originals[file][..reader.read];
    }
    ok := false;
  }

  /** The disks of one creation between its two source checks: uploaded, verified by digest, and the source checked
      again. Kept or handed over, what it ends with are the original bytes. */
  method CreateVolumes(copy: Prepared, plan: Plan, handOver: bool, sha: seq<Byte> -> nat)
    returns (ok: bool, volumes: seq<seq<Byte>>)
    requires copy.Valid()
    modifies copy
    ensures copy.Valid()
    ensures ok ==> volumes == copy.originals
    ensures ok && !handOver ==> copy.handed.None? && copy.files == copy.originals
    ensures ok && handOver && |volumes| > 0 ==> copy.handed == Some(plan)
    ensures old(copy.handed).Some? && |copy.originals| > 0 ==> copy.handed == old(copy.handed) && !ok
    ensures !handOver && copy.handed == Some(plan) ==> old(copy.handed) == Some(plan)
  {
    volumes := [];
    ok := copy.CheckSource(plan, handOver);
    if !ok { return; }
    var handedOver := false;
    for i := 0 to |copy.originals|
      invariant copy.Valid() && |volumes| == i
      invariant old(copy.handed).Some? ==> handOver && i == 0 && copy.handed == old(copy.handed)
      invariant handedOver <==> handOver && i > 0
      invariant handedOver ==> copy.handed == Some(plan)
      invariant handedOver || copy.handed.None? ==> volumes == copy.originals[..i]
      invariant handedOver ==> forall k :: i <= k < |copy.freed| ==> copy.freed[k] == 0
      invariant old(copy.handed).None? && !handedOver ==> copy.handed != Some(plan)
    {
      copy.Others(plan);
      var volume: seq<Byte>;
      if handOver {
        if !handedOver {
          ok := copy.RecordHandOver(plan);
          if !ok { return false, volumes; }
          handedOver := true;
        }
        var rounds: nat := *;
        ok, volume := UploadReleasing(copy, plan, i, rounds);
      } else {
        volume := UploadKeeping(copy, plan, i);
        ok := *;
      }
      if !ok || sha(volume) != sha(copy.originals[i]) { return false, volumes; }
      volumes := volumes + [volume];
    }
    copy.Others(plan);
    ok := copy.CheckSource(plan, handOver);
  }

  /** The upload of a file that is kept. While nobody has taken the copy over, it is the original, byte by byte. */
  method UploadKeeping(copy: Prepared, plan: Plan, file: nat) returns (uploaded: seq<Byte>)
    requires copy.Valid() && file < |copy.files| && copy.handed != Some(plan)
    modifies copy
    ensures copy.Valid() && copy.handed != Some(plan) && (old(copy.handed).Some? ==> copy.handed == old(copy.handed))
    ensures copy.handed.None? ==> uploaded == copy.originals[file]
  {
    uploaded := [];
    var read := 0;
    assert FileOk(copy.files[file], copy.originals[file], copy.freed[file]);
    while read < |copy.files[file]|
      invariant copy.Valid() && copy.handed != Some(plan)
        && (old(copy.handed).Some? ==> copy.handed == old(copy.handed))
      invariant read <= |copy.files[file]| == |copy.originals[file]|
      invariant copy.handed.None? ==> uploaded == copy.originals[file][..read]
    {
      copy.Others(plan);
      assert FileOk(copy.files[file], copy.originals[file], copy.freed[file]);
      uploaded := uploaded + [copy.files[file][read]];
      read := read + 1;
    }
  }

  /** Both plans are offered the copy; the taker takes it over and frees a byte; the keeper's next read of it differs
      from the original, and the keeper is no longer offered the copy. */
  ghost predicate FreedUnder(originals: seq<seq<Byte>>, s: State, keeper: Plan, taker: Plan, file: nat) {
    var taken := TakenOver(s, taker);
    && keeper != taker && StateOk(originals, s) && Offered(originals, s, keeper, false)
      && Offered(originals, s, taker, true)
    && StateOk(originals, taken) && file < |originals|
    && var freed := Freed(taken, file, 1);
    && StateOk(originals, freed) && freed.files[file] != originals[file] && !Offered(originals, freed, keeper, false)
  }

  /** The hand-over record is the dividing line: whatever holds a byte other than zero can be freed under a keeper. */
  lemma KeptCopyMayBeFreed(originals: seq<seq<Byte>>, keeper: Plan, taker: Plan, file: nat)
    requires keeper != taker && file < |originals| && originals[file] != [] && originals[file][0] != 0
    ensures FreedUnder(originals, State(originals, None, seq(|originals|, _ => 0)), keeper, taker, file)
  {
    var s := State(originals, None, seq(|originals|, _ => 0));
    assert Freed(TakenOver(s, taker), file, 1).files[file][0] == 0;
  }
}
