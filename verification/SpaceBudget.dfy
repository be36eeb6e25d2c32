/** The pool-space budget of a VM creation: what planning reserves, what the review recomputes, and what is
    still required before each volume. Sizes are 64-bit; sums that could wrap are written out. */
module SpaceBudget {
  import opened Sets
  import opened Text

  const TWO_TO_64 := 0x1_0000_0000_0000_0000
  type U64 = n: int | 0 <= n < TWO_TO_64
  type I64 = n: int | -TWO_TO_64 / 2 <= n < TWO_TO_64 / 2

  const MIB := 1024 * 1024
  const GIB := 1024 * MIB
  const RESERVE: nat := 64 * MIB
  const HEADROOM: U64 := 16 * MIB

  /** uint64 of a signed 64-bit value. */
  function ToU64(n: I64): U64 { n % TWO_TO_64 }

  /** creationAddBytes. */
  function AddBytes(a: U64, b: U64): Option<U64> { if b > TWO_TO_64 - 1 - a then None else Some(a + b) }

  /** creationDiskBudget: virtual size plus a quarter and headroom. */
  function DiskBudget(size: U64): Option<U64> {
    match AddBytes(size, size / 4)
    case None => None
    case Some(total) => AddBytes(total, HEADROOM)
  }

  datatype Rule = VirtualSize | FileBytes | OtherRule

  /** A prepared disk or read-only medium. */
  datatype Source = Source(id: string, format: string, virtualBytes: I64, fileBytes: I64, sha: string)

  datatype Volume = Volume(contentType: string, pool: string, name: string, source: string, virtualBytes: U64,
    fileBytes: U64, sha: string)

  /** The part of a creation recipe that accounts for space. */
  datatype Recipe = Recipe(
    uuid: string, pool: string, diskIDs: seq<string>, mediaIDs: seq<string>,
    disks: seq<Source>, media: seq<Source>, seed: Option<Source>,
    volumes: seq<Volume>, required: U64, rule: Rule, handOver: bool)

  /** diskReserve. */
  function DiskReserve(rule: Rule, handOver: bool, virtualBytes: U64, fileBytes: U64): Option<U64> {
    match rule
    case VirtualSize => DiskBudget(virtualBytes)
    case FileBytes => if handOver then Some(HEADROOM) else AddBytes(fileBytes, HEADROOM)
    case OtherRule => None
  }

  /** writtenReserve. */
  function WrittenReserve(rule: Rule, handOver: bool, v: Volume): U64 {
    if rule.VirtualSize? || v.contentType != "" then v.fileBytes
    else match DiskReserve(rule, handOver, v.virtualBytes, v.fileBytes) case Some(n) => n case None => 0
  }

  /** What one volume needs under the recipe's rule. */
  function VolumeReserve(rule: Rule, handOver: bool, v: Volume): Option<U64> {
    if v.contentType != "" then Some(v.fileBytes) else DiskReserve(rule, handOver, v.virtualBytes, v.fileBytes)
  }

  function Reserve(r: Recipe, i: nat): (n: nat)
    requires i < |r.volumes|
  {
    match VolumeReserve(r.rule, r.handOver, r.volumes[i]) case Some(n) => n case None => 0
  }

  /** The reserves of the first i volumes, and of the volumes from i on. */
  function ReservesTo(r: Recipe, i: nat): nat
    requires i <= |r.volumes|
  {
    if i == 0 then 0 else ReservesTo(r, i - 1) + Reserve(r, i - 1)
  }

  function ReservesFrom(r: Recipe, i: nat): nat
    requires i <= |r.volumes|
    decreases |r.volumes| - i
  {
    if i == |r.volumes| then 0 else Reserve(r, i) + ReservesFrom(r, i + 1)
  }

  function CopiedTo(r: Recipe, i: nat): nat
    requires i <= |r.volumes|
  {
    if i == 0 then 0 else CopiedTo(r, i - 1) + r.volumes[i - 1].fileBytes
  }

  function WrittenTo(r: Recipe, i: nat): nat
    requires i <= |r.volumes|
  {
    if i == 0 then 0 else WrittenTo(r, i - 1) + WrittenReserve(r.rule, r.handOver, r.volumes[i - 1])
  }

  lemma {:induction false} ReservesSplit(r: Recipe, i: nat)
    requires i <= |r.volumes|
    ensures ReservesTo(r, i) + ReservesFrom(r, i) == ReservesTo(r, |r.volumes|)
    decreases |r.volumes| - i
  {
    if i < |r.volumes| { ReservesSplit(r, i + 1); }
  }

  // Which recipes are accepted

  function DiskName(uuid: string, i: nat): string { "virmill-" + uuid + "-disk-" + Pad(i) + ".qcow2" }

  function MediumName(uuid: string, i: nat): string { "virmill-" + uuid + "-media-" + Pad(i) + ".iso" }

  function DiskVolume(r: Recipe, i: nat, s: Source): Volume {
    Volume("", r.pool, DiskName(r.uuid, i), s.id, ToU64(s.virtualBytes), ToU64(s.fileBytes), s.sha)
  }

  function MediumVolume(r: Recipe, i: nat, s: Source): Volume {
    Volume("cdrom-iso", r.pool, MediumName(r.uuid, i), s.id, ToU64(s.fileBytes), ToU64(s.fileBytes), s.sha)
  }

  /** The source of an identifier, the last one if there are several. */
  function Lookup(sources: seq<Source>, id: string): (s: Option<Source>)
    ensures s.Some? ==> s.value in sources && s.value.id == id
    ensures s.None? <==> forall x :: x in sources ==> x.id != id
  {
    if sources == [] then None
    else
      var last := sources[|sources| - 1];
      if last.id == id then Some(last) else Lookup(sources[..|sources| - 1], id)
  }

  predicate Distinct(ids: seq<string>) { forall i, j :: 0 <= i < j < |ids| ==> ids[i] != ids[j] }

  function IDs(sources: seq<Source>): (ids: seq<string>)
    ensures |ids| == |sources| && forall i :: 0 <= i < |ids| ==> ids[i] == sources[i].id
  {
    seq(|sources|, i requires 0 <= i < |sources| => sources[i].id)
  }

  function SeedMedium(seed: Source): Source { Source(seed.id, "raw", 0, seed.fileBytes, seed.sha) }

  function AllMedia(r: Recipe): seq<Source> { r.media + if r.seed.Some? then [SeedMedium(r.seed.value)] else [] }

  predicate Header(r: Recipe) {
    && !r.rule.OtherRule? && (r.handOver ==> r.rule.FileBytes?)
    && r.uuid != "" && r.pool != "" && 1 <= |r.diskIDs| <= 64 && |r.mediaIDs| <= 4 && |r.media| <= 4
    && |r.disks| == |r.diskIDs| && |r.volumes| == |r.diskIDs| + |r.mediaIDs|
  }

  predicate SourceDiskOk(s: Source) { s.id != "" && 0 < s.virtualBytes <= 512 * GIB && 0 < s.fileBytes }

  predicate SourceMediumOk(s: Source) { s.id != "" && s.format == "raw" }

  predicate SeedOk(s: Source) { s.id != "" && 17 * 2048 <= s.fileBytes <= 16 * MIB && s.fileBytes % 2048 == 0 }

  /** Prepared sources have different identifiers and lawful sizes. */
  predicate Inventory(r: Recipe) {
    && (forall s :: s in r.disks ==> SourceDiskOk(s)) && (forall s :: s in r.media ==> SourceMediumOk(s))
    && (r.seed.Some? ==> SeedOk(r.seed.value))
    && Distinct(IDs(r.disks + AllMedia(r))) && |AllMedia(r)| == |r.mediaIDs|
  }

  predicate MediumSizeOk(s: Source) { 32768 <= s.fileBytes <= 64 * GIB && s.fileBytes % 2048 == 0 }

  predicate DiskAt(r: Recipe, i: nat)
    requires i < |r.diskIDs| <= |r.volumes|
  {
    var s := Lookup(r.disks, r.diskIDs[i]);
    && s.Some? && r.volumes[i] == DiskVolume(r, i, s.value)
    && var budget := DiskBudget(ToU64(s.value.virtualBytes)); budget.Some? && ToU64(s.value.fileBytes) <= budget.value
  }

  predicate MediumAt(r: Recipe, i: nat)
    requires i < |r.mediaIDs| && |r.volumes| == |r.diskIDs| + |r.mediaIDs|
  {
    var s := Lookup(AllMedia(r), r.mediaIDs[i]);
    s.Some? && MediumSizeOk(s.value) && r.volumes[|r.diskIDs| + i] == MediumVolume(r, i, s.value)
  }

  /** Every volume stands for one source and every source has one volume. */
  predicate Mapped(r: Recipe)
    requires Header(r)
  {
    && Distinct(r.diskIDs) && (forall i :: 0 <= i < |r.diskIDs| ==> DiskAt(r, i))
    && Distinct(r.mediaIDs) && (forall i :: 0 <= i < |r.mediaIDs| ==> MediumAt(r, i))
  }

  predicate Accepted(r: Recipe) {
    Header(r) && Inventory(r) && Mapped(r) && r.required == RESERVE + ReservesTo(r, |r.volumes|)
  }

  /** No partial sum leaves 64 bits. */
  predicate Fits(r: Recipe) {
    && (forall i :: 0 <= i <= |r.volumes| ==> RESERVE + ReservesTo(r, i) < TWO_TO_64)
    && (forall i :: 0 <= i <= |r.volumes| ==> CopiedTo(r, i) < TWO_TO_64)
  }

  const ONE_VOLUME: nat := 1024 * GIB

  lemma ReserveBound(r: Recipe, i: nat)
    requires Header(r) && Inventory(r) && Mapped(r) && i < |r.volumes|
    ensures VolumeReserve(r.rule, r.handOver, r.volumes[i]).Some?
    ensures Reserve(r, i) <= ONE_VOLUME && r.volumes[i].fileBytes <= ONE_VOLUME
    ensures WrittenReserve(r.rule, r.handOver, r.volumes[i]) <= Reserve(r, i)
    ensures r.rule.FileBytes? ==> WrittenReserve(r.rule, r.handOver, r.volumes[i]) == Reserve(r, i)
  {
    hide DiskName, MediumName, AllMedia, Distinct;
    if i < |r.diskIDs| {
      assert DiskAt(r, i);
      assert SourceDiskOk(Lookup(r.disks, r.diskIDs[i]).value);
    } else {
      assert MediumAt(r, i - |r.diskIDs|);
    }
  }

  lemma {:induction false} SumsBounded(r: Recipe, i: nat)
    requires Header(r) && Inventory(r) && Mapped(r) && i <= |r.volumes|
    ensures ReservesTo(r, i) <= i * ONE_VOLUME && CopiedTo(r, i) <= i * ONE_VOLUME
  {
    hide Header, Inventory, Mapped, Reserve;
    if i > 0 {
      SumsBounded(r, i - 1);
      ReserveBound(r, i - 1);
    }
  }

  /** A well-formed recipe never comes near the end of 64 bits. */
  lemma NeverWraps(r: Recipe)
    requires Header(r) && Inventory(r) && Mapped(r)
    ensures Fits(r) && RESERVE + ReservesTo(r, |r.volumes|) < TWO_TO_64
  {
    forall i | 0 <= i <= |r.volumes| ensures RESERVE + ReservesTo(r, i) < TWO_TO_64 && CopiedTo(r, i) < TWO_TO_64 {
      SumsBounded(r, i);
      assert i <= 68;
    }
  }

  // Recomputing the budget

  /** A dictionary of sources by identifier. */
  ghost predicate AsLookup(found: map<string, Source>, sources: seq<Source>) {
    && (forall id :: id in found <==> Lookup(sources, id).Some?)
    && (forall id :: id in found ==> found[id] == Lookup(sources, id).value)
    && |found| == |sources|
  }

  predicate AllSeen(seen: set<string>, sources: seq<Source>) {
    (forall s :: s in sources ==> s.id in seen) && (forall id :: id in seen ==> Lookup(sources, id).Some?)
  }

  lemma DistinctExtend(sources: seq<Source>, x: Source, seen: set<string>)
    requires AllSeen(seen, sources)
    ensures AllSeen(seen + {x.id}, sources + [x])
    ensures Distinct(IDs(sources + [x])) <==> Distinct(IDs(sources)) && x.id !in seen
  {
    SeenExtend(sources, x, seen);
    DistinctMore(sources, x, seen);
  }

  lemma SeenExtend(sources: seq<Source>, x: Source, seen: set<string>)
    requires AllSeen(seen, sources)
    ensures AllSeen(seen + {x.id}, sources + [x])
  {
    var more := sources + [x];
    assert more[..|more| - 1] == sources && more[|more| - 1] == x;
  }

  lemma DistinctMore(sources: seq<Source>, x: Source, seen: set<string>)
    requires AllSeen(seen, sources)
    ensures Distinct(IDs(sources + [x])) <==> Distinct(IDs(sources)) && x.id !in seen
  {
    var ids, all := IDs(sources), IDs(sources + [x]);
    assert all == ids + [x.id];
    if x.id in seen {
      var s := Lookup(sources, x.id).value;
      var i :| 0 <= i < |sources| && sources[i] == s;
      assert all[i] == all[|sources|];
    } else {
      forall i | 0 <= i < |sources| ensures all[i] != x.id { assert sources[i].id in seen; }
      assert forall i :: 0 <= i < |ids| ==> all[i] == ids[i];
    }
  }

  lemma DistinctPrefix(sources: seq<Source>, i: nat)
    requires i <= |sources| && Distinct(IDs(sources))
    ensures Distinct(IDs(sources[..i]))
  {
    assert IDs(sources[..i]) == IDs(sources)[..i];
  }

  lemma LookupLast(sources: seq<Source>, x: Source, id: string)
    ensures Lookup(sources + [x], id) == if x.id == id then Some(x) else Lookup(sources, id)
  {
    var more := sources + [x];
    assert more[|more| - 1] == x && more[..|more| - 1] == sources;
  }

  lemma LookupExtend(found: map<string, Source>, sources: seq<Source>, x: Source)
    requires AsLookup(found, sources) && x.id !in found
    ensures AsLookup(found[x.id := x], sources + [x])
  {
    hide Lookup;
    forall id ensures Lookup(sources + [x], id) == if x.id == id then Some(x) else Lookup(sources, id) {
      LookupLast(sources, x, id);
    }
    assert found[x.id := x].Keys == found.Keys + {x.id};
  }

  /** One list of sources read into a dictionary; identifiers already seen are refused. */
  method ReadSources(before: seq<Source>, sources: seq<Source>, isDisk: bool, seen: set<string>)
    returns (ok: bool, found: map<string, Source>, after: set<string>)
    requires AllSeen(seen, before) && Distinct(IDs(before))
    ensures ok <==>
      Distinct(IDs(before + sources))
        && forall s :: s in sources ==> if isDisk then SourceDiskOk(s) else SourceMediumOk(s)
    ensures ok ==> AsLookup(found, sources) && AllSeen(after, before + sources)
  {
    hide Distinct, AllSeen, IDs, SourceDiskOk, SourceMediumOk, AsLookup;
    found, after := map[], seen;
    assert AsLookup(found, []) by { NothingFound(); }
    assert sources[..0] == [] && before + [] == before;
    for i := 0 to |sources|
      invariant AsLookup(found, sources[..i]) && AllSeen(after, before + sources[..i])
        && Distinct(IDs(before + sources[..i]))
      invariant forall s :: s in sources[..i] ==> if isDisk then SourceDiskOk(s) else SourceMediumOk(s)
    {
      var s := sources[i];
      assert (before + sources[..i]) + [s] == before + sources[..i + 1] == (before + sources)[..|before| + i + 1];
      assert sources[..i] + [s] == sources[..i + 1];
      DistinctExtend(before + sources[..i], s, after);
      FoundIsSeen(found, sources[..i], before, after, s.id);
      if s.id in after || !(if isDisk then SourceDiskOk(s) else SourceMediumOk(s)) {
        if Distinct(IDs(before + sources)) { DistinctPrefix(before + sources, |before| + i + 1); }
        return false, map[], {};
      }
      LookupExtend(found, sources[..i], s);
      found, after := found[s.id := s], after + {s.id};
    }
    assert sources[..|sources|] == sources;
    return true, found, after;
  }

  lemma NothingFound()
    ensures AsLookup(map[], [])
  {
  }

  lemma FoundIsSeen(found: map<string, Source>, sources: seq<Source>, before: seq<Source>, seen: set<string>,
      id: string)
    requires AsLookup(found, sources) && AllSeen(seen, before + sources)
    ensures id in found ==> id in seen
  {
    if id in found {
      var s := Lookup(sources, id).value;
      assert s in before + sources;
    }
  }

  /** The inventory, list by list. */
  lemma InventoryParts(r: Recipe)
    ensures Inventory(r) <==>
      && (forall s :: s in r.disks ==> SourceDiskOk(s)) && (forall s :: s in r.media ==> SourceMediumOk(s))
      && Distinct(IDs(r.disks)) && Distinct(IDs(r.disks + r.media))
      && (r.seed.Some? ==> SeedOk(r.seed.value) && Distinct(IDs(r.disks + r.media + [SeedMedium(r.seed.value)])))
      && |r.media| + (if r.seed.Some? then 1 else 0) == |r.mediaIDs|
  {
    hide Distinct, IDs, SourceDiskOk, SourceMediumOk, SeedOk, SeedMedium;
    var all := r.disks + AllMedia(r);
    assert all[..|r.disks|] == r.disks && all[..|r.disks + r.media|] == r.disks + r.media;
    assert all == if r.seed.Some? then r.disks + r.media + [SeedMedium(r.seed.value)] else r.disks + r.media;
    if Distinct(IDs(all)) {
      DistinctPrefix(all, |r.disks|);
      DistinctPrefix(all, |r.disks + r.media|);
    }
  }

  /** The inventory checks, and the two dictionaries. */
  method ReadInventory(r: Recipe) returns (ok: bool, disks: map<string, Source>, media: map<string, Source>)
    ensures ok <==> Inventory(r)
    ensures ok ==> AsLookup(disks, r.disks) && AsLookup(media, AllMedia(r))
  {
    hide Inventory, Distinct, AllSeen, IDs, SourceDiskOk, SourceMediumOk, AsLookup, SeedOk, SeedMedium;
    InventoryParts(r);
    media := map[];
    NothingSeen();
    var seen: set<string>;
    ok, disks, seen := ReadSources([], r.disks, true, {});
    assert [] + r.disks == r.disks;
    if !ok { return; }
    ok, media, seen := ReadSources(r.disks, r.media, false, seen);
    if !ok { return; }
    if r.seed.Some? {
      var medium := SeedMedium(r.seed.value);
      DistinctExtend(r.disks + r.media, medium, seen);
      FoundIsSeen(media, r.media, r.disks, seen, medium.id);
      if medium.id in seen || !SeedOk(r.seed.value) { return false, disks, media; }
      LookupExtend(media, r.media, medium);
      media := media[medium.id := medium];
    } else {
      assert r.media + [] == r.media;
    }
    CountFound(media, AllMedia(r));
    ok := |media| == |r.mediaIDs|;
  }

  lemma NothingSeen()
    ensures AllSeen({}, []) && Distinct(IDs([]))
  {
  }

  lemma CountFound(found: map<string, Source>, sources: seq<Source>)
    requires AsLookup(found, sources)
    ensures |found| == |sources|
  {
  }

  /** Sources not yet used: those of a dictionary but for the first i identifiers, which are different. */
  ghost predicate Left(left: map<string, Source>, sources: seq<Source>, ids: seq<string>, i: nat)
    requires i <= |ids|
  {
    && (forall id :: id in left <==> Lookup(sources, id).Some? && id !in ids[..i])
    && (forall id :: id in left ==> left[id] == Lookup(sources, id).value)
    && |left| + i == |sources| && Distinct(ids[..i])
  }

  lemma LeftBegins(found: map<string, Source>, sources: seq<Source>, ids: seq<string>)
    requires AsLookup(found, sources)
    ensures Left(found, sources, ids, 0)
  {
  }

  lemma LeftStep(left: map<string, Source>, sources: seq<Source>, ids: seq<string>, i: nat)
    requires i < |ids| && Left(left, sources, ids, i)
    ensures ids[i] !in left && Distinct(ids) ==> Lookup(sources, ids[i]).None?
    ensures ids[i] in left ==>
      Lookup(sources, ids[i]) == Some(left[ids[i]]) && Left(left - {ids[i]}, sources, ids, i + 1)
  {
    assert ids[..i + 1] == ids[..i] + [ids[i]];
    assert ids[i] in ids[..i] ==> exists k :: 0 <= k < i && ids[k] == ids[i];
    if ids[i] in left {
      assert (left - {ids[i]}).Keys == left.Keys - {ids[i]};
    }
  }

  lemma LeftEnds(left: map<string, Source>, sources: seq<Source>, ids: seq<string>)
    requires Left(left, sources, ids, |ids|)
    ensures Distinct(ids) && |left| + |ids| == |sources|
  {
    assert ids[..|ids|] == ids;
  }

  /** What the sum loop has: i volumes summed, none refused. */
  ghost predicate Summed(r: Recipe, i: nat, required: U64, copied: U64) {
    i <= |r.volumes| && required == RESERVE + ReservesTo(r, i) && copied == CopiedTo(r, i)
  }

  /** One more volume: exact sums, or a sum that does not fit. */
  lemma SumStep(r: Recipe, i: nat, required: U64, copied: U64)
    requires i < |r.volumes| && Summed(r, i, required, copied)
    ensures var reserve, v := VolumeReserve(r.rule, r.handOver, r.volumes[i]), r.volumes[i];
      var more := if reserve.Some? then AddBytes(required, reserve.value) else None;
      var also := AddBytes(copied, v.fileBytes);
      if reserve.Some? && more.Some? && also.Some? then Summed(r, i + 1, more.value, also.value)
      else reserve.None? || !Fits(r)
  {
    hide VolumeReserve;
    assert CopiedTo(r, i + 1) == CopiedTo(r, i) + r.volumes[i].fileBytes;
    assert ReservesTo(r, i + 1) == ReservesTo(r, i) + Reserve(r, i);
  }

  /** What acceptance means for the loops: nothing is refused and every sum fits. */
  lemma AcceptedMeans(r: Recipe)
    requires Accepted(r)
    ensures Fits(r) && Distinct(r.diskIDs) && Distinct(r.mediaIDs)
    ensures forall i :: 0 <= i < |r.diskIDs| ==> DiskAt(r, i)
    ensures forall i :: 0 <= i < |r.mediaIDs| ==> MediumAt(r, i)
    ensures forall i :: 0 <= i < |r.volumes| ==> VolumeReserve(r.rule, r.handOver, r.volumes[i]).Some?
  {
    hide Inventory, Fits, VolumeReserve, Reserve, DiskAt, MediumAt, ReservesTo;
    NeverWraps(r);
    forall i | 0 <= i < |r.volumes| ensures VolumeReserve(r.rule, r.handOver, r.volumes[i]).Some? {
      ReserveBound(r, i);
    }
  }

  /** creationSpaceBudget: the pool space and the copied bytes of a recipe, or a refusal. */
  method CreationSpaceBudget(r: Recipe) returns (budget: Option<(U64, U64)>)
    ensures budget.Some? <==> Accepted(r)
    ensures budget.Some? ==> budget.value == (r.required, CopiedTo(r, |r.volumes|))
  {
    hide Accepted, Left, Lookup, Distinct, AllMedia, Inventory, DiskVolume, MediumVolume, MediumSizeOk, DiskBudget,
      Mapped, IDs, AddBytes, Fits, AsLookup;
    hide DiskAt, MediumAt, Summed, ReservesTo, CopiedTo, VolumeReserve, Reserve, Header;
    HeaderFirst(r);
    if !Header(r) { return None; }
    var ok, disks, media := ReadInventory(r);
    if !ok { return None; }
    LeftBegins(disks, r.disks, r.diskIDs);
    LeftBegins(media, AllMedia(r), r.mediaIDs);
    if Accepted(r) { AcceptedMeans(r); }
    var required: U64, copied: U64 := RESERVE, 0;
    SumBegins(r);
    for i := 0 to |r.diskIDs|
      invariant Left(disks, r.disks, r.diskIDs, i) && Summed(r, i, required, copied)
      invariant forall k :: 0 <= k < i ==> DiskAt(r, k)
    {
      LeftStep(disks, r.disks, r.diskIDs, i);
      SumStep(r, i, required, copied);
      DiskAtMeans(r, i);
      var id, v := r.diskIDs[i], r.volumes[i];
      if id !in disks { return None; }
      var source := disks[id];
      var most := DiskBudget(ToU64(source.virtualBytes));
      if most.None? || ToU64(source.fileBytes) > most.value || v != DiskVolume(r, i, source) { return None; }
      var reserve := DiskReserve(r.rule, r.handOver, ToU64(source.virtualBytes), ToU64(source.fileBytes));
      if reserve.None? { return None; }
      var more, also := AddBytes(required, reserve.value), AddBytes(copied, v.fileBytes);
      if more.None? || also.None? { return None; }
      required, copied := more.value, also.value;
      disks := disks - {id};
    }
    for i := 0 to |r.mediaIDs|
      invariant Left(media, AllMedia(r), r.mediaIDs, i) && Summed(r, |r.diskIDs| + i, required, copied)
      invariant forall k :: 0 <= k < i ==> MediumAt(r, k)
    {
      LeftStep(media, AllMedia(r), r.mediaIDs, i);
      SumStep(r, |r.diskIDs| + i, required, copied);
      MediumAtMeans(r, i);
      var id, v := r.mediaIDs[i], r.volumes[|r.diskIDs| + i];
      if id !in media || !MediumSizeOk(media[id]) || v != MediumVolume(r, i, media[id]) { return None; }
      var more, also := AddBytes(required, v.fileBytes), AddBytes(copied, v.fileBytes);
      if more.None? || also.None? { return None; }
      required, copied := more.value, also.value;
      media := media - {id};
    }
    LeftEnds(disks, r.disks, r.diskIDs);
    LeftEnds(media, AllMedia(r), r.mediaIDs);
    AcceptedIf(r, required, copied);
    if |disks| != 0 || |media| != 0 || required != r.required { return None; }
    return Some((required, copied));
  }

  lemma HeaderFirst(r: Recipe)
    ensures Accepted(r) ==> Header(r) && Inventory(r)
    ensures Header(r) ==> |r.disks| == |r.diskIDs| && |r.volumes| == |r.diskIDs| + |r.mediaIDs|
    ensures Inventory(r) ==> |AllMedia(r)| == |r.mediaIDs|
  {
  }

  lemma SumBegins(r: Recipe)
    ensures Summed(r, 0, RESERVE, 0)
  {
  }

  lemma DiskAtMeans(r: Recipe, i: nat)
    requires i < |r.diskIDs| <= |r.volumes|
    ensures var s := Lookup(r.disks, r.diskIDs[i]);
      DiskAt(r, i) <==>
        && s.Some? && r.volumes[i] == DiskVolume(r, i, s.value)
        && var most := DiskBudget(ToU64(s.value.virtualBytes)); most.Some? && ToU64(s.value.fileBytes) <= most.value
    ensures forall s :: r.volumes[i] == DiskVolume(r, i, s) ==>
      VolumeReserve(r.rule, r.handOver, r.volumes[i]) ==
        DiskReserve(r.rule, r.handOver, ToU64(s.virtualBytes), ToU64(s.fileBytes))
  {
    hide DiskName, DiskReserve;
  }

  lemma MediumAtMeans(r: Recipe, i: nat)
    requires i < |r.mediaIDs| && |r.volumes| == |r.diskIDs| + |r.mediaIDs|
    ensures var s := Lookup(AllMedia(r), r.mediaIDs[i]);
      MediumAt(r, i) <==> s.Some? && MediumSizeOk(s.value) && r.volumes[|r.diskIDs| + i] == MediumVolume(r, i, s.value)
    ensures forall s :: r.volumes[|r.diskIDs| + i] == MediumVolume(r, i, s) ==>
      VolumeReserve(r.rule, r.handOver, r.volumes[|r.diskIDs| + i]) == Some(r.volumes[|r.diskIDs| + i].fileBytes)
  {
    hide MediumName, DiskReserve;
  }

  lemma AcceptedIf(r: Recipe, required: U64, copied: U64)
    requires Header(r) && Inventory(r) && Distinct(r.diskIDs) && Distinct(r.mediaIDs)
    requires forall i :: 0 <= i < |r.diskIDs| ==> DiskAt(r, i)
    requires forall i :: 0 <= i < |r.mediaIDs| ==> MediumAt(r, i)
    requires Summed(r, |r.volumes|, required, copied)
    ensures Accepted(r) <==> required == r.required
    ensures copied == CopiedTo(r, |r.volumes|)
  {
    hide DiskAt, MediumAt, Inventory, Distinct, CopiedTo, ReservesTo;
  }

  // What is still required before a volume

  /** checkSpace: what the pool must still offer once `written` bytes of the budget are used. */
  function StillRequired(required: U64, written: nat): U64
  {
    if written < required then required - written else RESERVE
  }

  lemma {:induction false} WrittenBounds(r: Recipe, i: nat)
    requires Accepted(r) && i <= |r.volumes|
    ensures WrittenTo(r, i) <= ReservesTo(r, i)
    ensures r.rule.FileBytes? ==> WrittenTo(r, i) == ReservesTo(r, i)
  {
    hide Inventory, Mapped, Reserve, WrittenReserve;
    if i > 0 {
      WrittenBounds(r, i - 1);
      ReserveBound(r, i - 1);
    }
  }

  /** Before volume i an accepted recipe still requires the reserve and what volumes i onward need: exactly so under the
      file-size rule, at least so under the older one. The sums never wrap and the fallback is never taken. */
  lemma RemainingBeforeVolume(r: Recipe, i: nat)
    requires Accepted(r) && i <= |r.volumes|
    ensures WrittenTo(r, i) < r.required < TWO_TO_64
    ensures r.rule.FileBytes? ==> StillRequired(r.required, WrittenTo(r, i)) == RESERVE + ReservesFrom(r, i)
    ensures r.rule.VirtualSize? ==> StillRequired(r.required, WrittenTo(r, i)) >= RESERVE + ReservesFrom(r, i)
  {
    hide Inventory, Mapped, Reserve, WrittenReserve;
    WrittenBounds(r, i);
    ReservesSplit(r, i);
  }

  // What the budget buys

  predicate IsDisk(r: Recipe, i: nat) { i < |r.diskIDs| }

  /** The reserve of each volume of an accepted recipe, in bytes. */
  lemma ReserveIs(r: Recipe, i: nat)
    requires Accepted(r) && i < |r.volumes|
    ensures IsDisk(r, i) <==> r.volumes[i].contentType == ""
    ensures !IsDisk(r, i) ==> Reserve(r, i) == r.volumes[i].fileBytes
    ensures IsDisk(r, i) && r.rule.VirtualSize? ==>
      Reserve(r, i) == r.volumes[i].virtualBytes + r.volumes[i].virtualBytes / 4 + 16 * MIB
    ensures IsDisk(r, i) && r.rule.FileBytes? && !r.handOver ==> Reserve(r, i) == r.volumes[i].fileBytes + 16 * MIB
    ensures IsDisk(r, i) && r.handOver ==> Reserve(r, i) == 16 * MIB
    ensures !r.handOver ==> Reserve(r, i) >= r.volumes[i].fileBytes
  {
    hide DiskName, MediumName, AllMedia, Distinct;
    if i < |r.diskIDs| {
      assert DiskAt(r, i);
      assert SourceDiskOk(Lookup(r.disks, r.diskIDs[i]).value);
    } else {
      assert MediumAt(r, i - |r.diskIDs|);
    }
  }

  /** What the pool loses to a volume: its file, or nothing for a disk whose prepared copy, on the same filesystem, is
      released behind the upload. */
  function PoolUse(r: Recipe, i: nat): nat
    requires i < |r.volumes|
  {
    if r.handOver && IsDisk(r, i) then 0 else r.volumes[i].fileBytes
  }

  function PoolUseTo(r: Recipe, i: nat): nat
    requires i <= |r.volumes|
  {
    if i == 0 then 0 else PoolUseTo(r, i - 1) + PoolUse(r, i - 1)
  }

  function PoolUseFrom(r: Recipe, i: nat): nat
    requires i <= |r.volumes|
    decreases |r.volumes| - i
  {
    if i == |r.volumes| then 0 else PoolUse(r, i) + PoolUseFrom(r, i + 1)
  }

  /** With the older rule, or when the copy is kept, nothing is released: the use is the file bytes. */
  lemma {:induction false} KeptCopyUsesItsBytes(r: Recipe, i: nat)
    requires !r.handOver && i <= |r.volumes|
    ensures PoolUseTo(r, i) == CopiedTo(r, i)
  {
    if i > 0 { KeptCopyUsesItsBytes(r, i - 1); }
  }

  lemma UseIsReserved(r: Recipe, i: nat)
    requires Accepted(r) && i < |r.volumes|
    ensures PoolUse(r, i) <= WrittenReserve(r.rule, r.handOver, r.volumes[i]) <= Reserve(r, i)
  {
    hide Inventory, Mapped;
    ReserveIs(r, i);
    ReserveBound(r, i);
  }

  lemma {:induction false} UsesAreReserved(r: Recipe, i: nat)
    requires Accepted(r) && i <= |r.volumes|
    ensures PoolUseTo(r, i) <= WrittenTo(r, i)
  {
    hide Accepted, PoolUse, WrittenReserve;
    if i > 0 {
      UsesAreReserved(r, i - 1);
      UseIsReserved(r, i - 1);
    }
  }

  lemma {:induction false} LaterUsesAreReserved(r: Recipe, i: nat)
    requires Accepted(r) && i <= |r.volumes|
    ensures PoolUseFrom(r, i) <= ReservesFrom(r, i)
    decreases |r.volumes| - i
  {
    hide Accepted, PoolUse, Reserve;
    if i < |r.volumes| {
      LaterUsesAreReserved(r, i + 1);
      UseIsReserved(r, i);
    }
  }

  /** Before volume i the check demands enough for everything still to come, and leaves the reserve free. */
  lemma EnoughForTheRest(r: Recipe, i: nat)
    requires Accepted(r) && i <= |r.volumes|
    ensures StillRequired(r.required, WrittenTo(r, i)) >= RESERVE + PoolUseFrom(r, i)
  {
    hide Accepted;
    RemainingBeforeVolume(r, i);
    LaterUsesAreReserved(r, i);
    assert r.rule.FileBytes? || r.rule.VirtualSize? by { KnownRule(r); }
  }

  lemma KnownRule(r: Recipe)
    requires Accepted(r)
    ensures r.rule.FileBytes? || r.rule.VirtualSize?
  {
  }

  /** A pool that had the reviewed total and serves nobody else passes the check before every volume, and has the
      reserve left in the end. */
  lemma EveryCheckPasses(r: Recipe, available: nat, i: nat)
    requires Accepted(r) && available >= r.required && i <= |r.volumes|
    ensures available - PoolUseTo(r, i) >= StillRequired(r.required, WrittenTo(r, i))
    ensures available - PoolUseTo(r, i) >= RESERVE + PoolUseFrom(r, i)
  {
    hide Accepted;
    UsesAreReserved(r, i);
    RemainingBeforeVolume(r, i);
    EnoughForTheRest(r, i);
  }

  /** The total of an accepted recipe: the reserve, and for a kept copy at least all file bytes; under the file-size
      rule exactly those with the headroom of each disk; for a copy handed over the headroom and the media alone. */
  lemma TotalRequired(r: Recipe)
    requires Accepted(r)
    ensures r.required >= RESERVE + PoolUseTo(r, |r.volumes|)
    ensures !r.handOver ==> r.required >= RESERVE + CopiedTo(r, |r.volumes|)
    ensures r.rule.FileBytes? ==> r.required == RESERVE + |r.diskIDs| * 16 * MIB + PoolUseTo(r, |r.volumes|)
  {
    hide Inventory, Mapped;
    EveryCheckPasses(r, r.required, |r.volumes|);
    if !r.handOver { KeptCopyUsesItsBytes(r, |r.volumes|); }
    if r.rule.FileBytes? { FileSizeTotal(r, |r.volumes|); }
  }

  lemma {:induction false} FileSizeTotal(r: Recipe, i: nat)
    requires Accepted(r) && r.rule.FileBytes? && i <= |r.volumes|
    ensures ReservesTo(r, i) == PoolUseTo(r, i) + (if i < |r.diskIDs| then i else |r.diskIDs|) * 16 * MIB
  {
    hide Accepted, Reserve;
    if i > 0 {
      FileSizeTotal(r, i - 1);
      ReserveIs(r, i - 1);
    }
  }

  function IdSet(ids: seq<string>): set<string> { set id | id in ids }

  lemma {:induction false} DistinctCount(ids: seq<string>)
    requires Distinct(ids)
    ensures |IdSet(ids)| == |ids|
  {
    if ids == [] {
      assert IdSet(ids) == {};
    } else {
      var last, rest := ids[|ids| - 1], ids[..|ids| - 1];
      DistinctCount(rest);
      assert ids == rest + [last];
      assert IdSet(ids) == IdSet(rest) + {last};
    }
  }

  lemma Named(sources: seq<Source>, id: string)
    ensures Lookup(sources, id).Some? <==> id in IDs(sources)
  {
    if Lookup(sources, id).Some? {
      var k :| 0 <= k < |sources| && sources[k] == Lookup(sources, id).value;
      assert IDs(sources)[k] == id;
    } else {
      forall k | 0 <= k < |sources| ensures IDs(sources)[k] != id { assert sources[k] in sources; }
    }
  }

  lemma Unique(sources: seq<Source>, s: Source)
    requires Distinct(IDs(sources)) && s in sources
    ensures Lookup(sources, s.id) == Some(s)
  {
    var k :| 0 <= k < |sources| && sources[k] == s;
    Named(sources, s.id);
    assert IDs(sources)[k] == s.id;
    var t := Lookup(sources, s.id).value;
    var j :| 0 <= j < |sources| && sources[j] == t;
    assert IDs(sources)[j] == IDs(sources)[k];
  }

  lemma SameNames(ids: seq<string>, names: seq<string>)
    requires Distinct(ids) && Distinct(names) && |ids| == |names| && forall id :: id in ids ==> id in names
    ensures forall id :: id in names ==> id in ids
  {
    hide Distinct;
    DistinctCount(ids);
    DistinctCount(names);
    SubsetOfSameSize(IdSet(ids), IdSet(names));
    forall id | id in names ensures id in ids {
      assert id in IdSet(names);
    }
  }

  /** As many different identifiers as sources, each found: then each source is named. */
  lemma EachNamedOnce(sources: seq<Source>, ids: seq<string>)
    requires Distinct(ids) && Distinct(IDs(sources)) && |ids| == |sources|
    requires forall i :: 0 <= i < |ids| ==> Lookup(sources, ids[i]).Some?
    ensures forall s ::
      s in sources ==> exists i :: 0 <= i < |ids| && ids[i] == s.id && Lookup(sources, s.id) == Some(s)
  {
    hide Lookup, Distinct;
    forall id | id in ids ensures id in IDs(sources) { Named(sources, id); }
    SameNames(ids, IDs(sources));
    forall s | s in sources ensures exists i :: 0 <= i < |ids| && ids[i] == s.id && Lookup(sources, s.id) == Some(s) {
      Unique(sources, s);
      Named(sources, s.id);
    }
  }

  /** In an accepted recipe disks map one-to-one to their sources. */
  lemma DisksAreOneToOne(r: Recipe)
    requires Accepted(r)
    ensures Distinct(r.diskIDs)
    ensures forall s ::
      s in r.disks ==> exists i :: 0 <= i < |r.diskIDs| && r.diskIDs[i] == s.id && r.volumes[i] == DiskVolume(r, i, s)
  {
    hide DiskVolume, MediumVolume, Lookup, ReservesTo, Inventory, MediumAt, DiskBudget, Distinct, IDs;
    InventoryIsDistinct(r);
    forall i | 0 <= i < |r.diskIDs| ensures Lookup(r.disks, r.diskIDs[i]).Some? { assert DiskAt(r, i); }
    EachNamedOnce(r.disks, r.diskIDs);
    forall s | s in r.disks
      ensures exists i :: 0 <= i < |r.diskIDs| && r.diskIDs[i] == s.id && r.volumes[i] == DiskVolume(r, i, s)
    {
      var i :| 0 <= i < |r.diskIDs| && r.diskIDs[i] == s.id && Lookup(r.disks, s.id) == Some(s);
      assert DiskAt(r, i);
    }
  }

  /** Each disk volume is its source's, bytes, digest and all, in the recipe's pool. */
  lemma DiskVolumesAre(r: Recipe, i: nat)
    requires Accepted(r) && i < |r.diskIDs|
    ensures exists s ::
      && s in r.disks && s.id == r.diskIDs[i]
      && r.volumes[i].source == s.id && r.volumes[i].sha == s.sha && r.volumes[i].pool == r.pool
      && r.volumes[i].virtualBytes == s.virtualBytes && r.volumes[i].fileBytes == s.fileBytes
  {
    hide DiskName, MediumName, Distinct, IDs, AllMedia;
    assert DiskAt(r, i);
    var s := Lookup(r.disks, r.diskIDs[i]).value;
    assert SourceDiskOk(s);
  }

  /** And each medium's, at its exact size. */
  lemma MediumVolumesAre(r: Recipe, i: nat)
    requires Accepted(r) && i < |r.mediaIDs|
    ensures exists s ::
      && s in AllMedia(r) && s.id == r.mediaIDs[i]
      && var v := r.volumes[|r.diskIDs| + i];
      && v.source == s.id && v.sha == s.sha && v.pool == r.pool && v.virtualBytes == v.fileBytes == s.fileBytes
  {
    hide DiskName, MediumName, Distinct, IDs, AllMedia;
    assert MediumAt(r, i);
    var s := Lookup(AllMedia(r), r.mediaIDs[i]).value;
    assert s.fileBytes >= 0;
  }

  /** No two volumes share a name. */
  lemma VolumeNamesDiffer(r: Recipe, i: nat, j: nat)
    requires Accepted(r) && i < j < |r.volumes|
    ensures r.volumes[i].name != r.volumes[j].name
  {
    hide Accepted, DiskName, MediumName;
    var n := |r.diskIDs|;
    NameOf(r, i);
    NameOf(r, j);
    if j < n {
      DiskNamesDiffer(r.uuid, i, j);
    } else if i < n {
      KindsDiffer(r.uuid, i, j - n);
    } else {
      MediumNamesDiffer(r.uuid, i - n, j - n);
    }
  }

  lemma NameOf(r: Recipe, i: nat)
    requires Accepted(r) && i < |r.volumes|
    ensures r.volumes[i].name ==
      if i < |r.diskIDs| then DiskName(r.uuid, i) else MediumName(r.uuid, i - |r.diskIDs|)
  {
    hide DiskName, MediumName, Distinct, IDs, AllMedia;
    if i < |r.diskIDs| { assert DiskAt(r, i); } else { assert MediumAt(r, i - |r.diskIDs|); }
  }

  lemma DiskNamesDiffer(uuid: string, i: nat, j: nat)
    requires i != j
    ensures DiskName(uuid, i) != DiskName(uuid, j)
  {
    hide Pad, Digits;
    PadReads(i);
    PadReads(j);
    Between("virmill-" + uuid + "-disk-", Pad(i), ".qcow2");
    Between("virmill-" + uuid + "-disk-", Pad(j), ".qcow2");
  }

  lemma MediumNamesDiffer(uuid: string, i: nat, j: nat)
    requires i != j
    ensures MediumName(uuid, i) != MediumName(uuid, j)
  {
    hide Pad, Digits;
    PadReads(i);
    PadReads(j);
    Between("virmill-" + uuid + "-media-", Pad(i), ".iso");
    Between("virmill-" + uuid + "-media-", Pad(j), ".iso");
  }

  lemma Between(head: string, middle: string, tail: string)
    ensures var all := head + middle + tail; |all| >= |head| + |tail| && all[|head|..|all| - |tail|] == middle
  {
  }

  lemma KindsDiffer(uuid: string, i: nat, j: nat)
    ensures DiskName(uuid, i) != MediumName(uuid, j)
  {
    hide Pad;
    assert DiskName(uuid, i)[|uuid| + 9] == 'd' && MediumName(uuid, j)[|uuid| + 9] == 'm';
  }

  /** So do media, the seed among them. */
  lemma MediaAreOneToOne(r: Recipe)
    requires Accepted(r)
    ensures Distinct(r.mediaIDs)
    ensures forall s :: s in AllMedia(r) ==>
      exists i :: 0 <= i < |r.mediaIDs| && r.mediaIDs[i] == s.id && r.volumes[|r.diskIDs| + i] == MediumVolume(r, i, s)
  {
    hide DiskVolume, MediumVolume, Lookup, ReservesTo, Inventory, DiskAt, AllMedia, MediumSizeOk, Distinct, IDs;
    InventoryIsDistinct(r);
    forall i | 0 <= i < |r.mediaIDs| ensures Lookup(AllMedia(r), r.mediaIDs[i]).Some? { assert MediumAt(r, i); }
    EachNamedOnce(AllMedia(r), r.mediaIDs);
    forall s | s in AllMedia(r)
      ensures exists i ::
        0 <= i < |r.mediaIDs| && r.mediaIDs[i] == s.id && r.volumes[|r.diskIDs| + i] == MediumVolume(r, i, s)
    {
      var i :| 0 <= i < |r.mediaIDs| && r.mediaIDs[i] == s.id && Lookup(AllMedia(r), s.id) == Some(s);
      assert MediumAt(r, i);
    }
  }

  lemma InventoryIsDistinct(r: Recipe)
    requires Inventory(r)
    ensures Distinct(IDs(r.disks)) && Distinct(IDs(AllMedia(r))) && |AllMedia(r)| == |r.mediaIDs|
  {
    var all := IDs(r.disks + AllMedia(r));
    assert IDs(r.disks) == all[..|r.disks|];
    forall i, j | 0 <= i < j < |AllMedia(r)| ensures IDs(AllMedia(r))[i] != IDs(AllMedia(r))[j] {
      assert all[|r.disks| + i] != all[|r.disks| + j];
    }
  }

  // Planning

  function Wrap(n: int): U64 { n % TWO_TO_64 }

  /** What planning establishes by itself; it does not bound sizes and adds without a check for wrapping. */
  predicate Planned(r: Recipe) {
    && |r.disks| == |r.diskIDs| && |AllMedia(r)| == |r.mediaIDs| && |r.volumes| == |r.diskIDs| + |r.mediaIDs|
    && Distinct(r.diskIDs) && Distinct(r.mediaIDs)
    && (forall i :: 0 <= i < |r.diskIDs| ==> PlannedDisk(r, i))
    && (forall i :: 0 <= i < |r.mediaIDs| ==> PlannedMedium(r, i))
    && r.required == Wrap(RESERVE + ReservesTo(r, |r.volumes|))
  }

  predicate PlannedDisk(r: Recipe, i: nat)
    requires i < |r.diskIDs|
  {
    var s := Lookup(r.disks, r.diskIDs[i]);
    i < |r.volumes| && s.Some? && r.volumes[i] == DiskVolume(r, i, s.value)
  }

  predicate PlannedMedium(r: Recipe, i: nat)
    requires i < |r.mediaIDs|
  {
    var s := Lookup(AllMedia(r), r.mediaIDs[i]);
    |r.diskIDs| + i < |r.volumes| && s.Some? && r.volumes[|r.diskIDs| + i] == MediumVolume(r, i, s.value)
  }

  /** A disk image no larger than its own worst case; a medium of a lawful size. */
  predicate SizesLawful(r: Recipe) {
    && (forall s :: s in r.disks ==> SourceDiskOk(s) && s.fileBytes <= s.virtualBytes + s.virtualBytes / 4 + HEADROOM)
    && (forall s :: s in AllMedia(r) ==> MediumSizeOk(s))
  }

  /** A planned recipe of lawful sources is accepted at review, at the very total planning arrived at. */
  lemma PlannedIsAccepted(r: Recipe)
    requires Planned(r) && Header(r) && Inventory(r) && SizesLawful(r)
    ensures Accepted(r)
  {
    hide DiskVolume, MediumVolume, Reserve, ReservesTo, Distinct, IDs, SizesLawful, AllMedia, Inventory, DiskAt,
      MediumAt, PlannedDisk, PlannedMedium, Fits;
    forall i | 0 <= i < |r.diskIDs| ensures DiskAt(r, i) { PlannedDiskAt(r, i); }
    forall i | 0 <= i < |r.mediaIDs| ensures MediumAt(r, i) { PlannedMediumAt(r, i); }
    NeverWraps(r);
  }

  lemma PlannedDiskAt(r: Recipe, i: nat)
    requires i < |r.diskIDs| <= |r.volumes| && PlannedDisk(r, i) && SizesLawful(r)
    ensures DiskAt(r, i)
  {
    hide DiskVolume, AllMedia;
  }

  lemma PlannedMediumAt(r: Recipe, i: nat)
    requires i < |r.mediaIDs| && |r.volumes| == |r.diskIDs| + |r.mediaIDs| && PlannedMedium(r, i) && SizesLawful(r)
    ensures MediumAt(r, i)
  {
    hide MediumVolume, AllMedia;
  }

  lemma {:induction false} ReservesExtend(r: Recipe, more: Recipe, i: nat)
    requires i <= |r.volumes| <= |more.volumes| && r.volumes == more.volumes[..|r.volumes|] && r.rule == more.rule
      && r.handOver == more.handOver
    ensures ReservesTo(r, i) == ReservesTo(more, i)
  {
    if i > 0 {
      ReservesExtend(r, more, i - 1);
      assert r.volumes[i - 1] == more.volumes[i - 1];
    }
  }

  /** What planning demands of a request. */
  predicate Plannable(r: Recipe) {
    && |r.disks| == |r.diskIDs| && |AllMedia(r)| == |r.mediaIDs| && Distinct(r.diskIDs + r.mediaIDs)
    && (forall i :: 0 <= i < |r.diskIDs| ==> DiskPlannable(r, r.diskIDs[i]))
    && (r.seed.Some? ==>
      r.seed.value.id !in r.diskIDs && (Lookup(r.media, r.seed.value.id).None? || r.seed.value.id == ""))
    && (forall i :: 0 <= i < |r.mediaIDs| ==> MediumPlannable(r, r.mediaIDs[i]))
  }

  predicate DiskPlannable(r: Recipe, id: string) {
    var s := Lookup(r.disks, id);
    s.Some? && DiskReserve(r.rule, r.handOver, ToU64(s.value.virtualBytes), ToU64(s.value.fileBytes)).Some?
  }

  predicate MediumPlannable(r: Recipe, id: string) {
    var s := Lookup(AllMedia(r), id);
    s.Some? && s.value.format == "raw"
  }

  /** The part of Planned that holds after the first `n` volumes. */
  predicate PlannedTo(r: Recipe, n: nat) {
    && |r.volumes| == n
    && (forall i :: 0 <= i < |r.diskIDs| && i < n ==> PlannedDisk(r, i))
    && (forall i :: 0 <= i < |r.mediaIDs| && |r.diskIDs| + i < n ==> PlannedMedium(r, i))
    && r.required == Wrap(RESERVE + ReservesTo(r, n))
  }

  lemma PlanSum(r: Recipe, v: Volume, reserve: U64)
    requires VolumeReserve(r.rule, r.handOver, v) == Some(reserve)
      && r.required == Wrap(RESERVE + ReservesTo(r, |r.volumes|))
    ensures var more := r.(volumes := r.volumes + [v], required := Wrap(r.required + reserve));
      more.required == Wrap(RESERVE + ReservesTo(more, |r.volumes| + 1))
  {
    hide VolumeReserve;
    var n := |r.volumes|;
    var more := r.(volumes := r.volumes + [v], required := Wrap(r.required + reserve));
    ReservesExtend(r, more, n);
    assert Reserve(more, n) == reserve;
  }

  lemma SameMedia(r: Recipe, more: Recipe)
    requires more == r.(volumes := more.volumes, required := more.required)
    ensures AllMedia(r) == AllMedia(more)
    ensures forall i, s ::
      DiskVolume(r, i, s) == DiskVolume(more, i, s) && MediumVolume(r, i, s) == MediumVolume(more, i, s)
  {
    hide DiskName, MediumName;
  }

  lemma PlanStep(r: Recipe, v: Volume, reserve: U64)
    requires PlannedTo(r, |r.volumes|) && VolumeReserve(r.rule, r.handOver, v) == Some(reserve)
    requires |r.volumes| < |r.diskIDs| ==>
      Lookup(r.disks, r.diskIDs[|r.volumes|]).Some?
        && v == DiskVolume(r, |r.volumes|, Lookup(r.disks, r.diskIDs[|r.volumes|]).value)
    requires |r.volumes| >= |r.diskIDs| ==>
      var i := |r.volumes| - |r.diskIDs|;
      i < |r.mediaIDs| && Lookup(AllMedia(r), r.mediaIDs[i]).Some?
        && v == MediumVolume(r, i, Lookup(AllMedia(r), r.mediaIDs[i]).value)
    ensures PlannedTo(r.(volumes := r.volumes + [v], required := Wrap(r.required + reserve)), |r.volumes| + 1)
  {
    hide Lookup, VolumeReserve, DiskVolume, MediumVolume, AllMedia;
    var n := |r.volumes|;
    var more := r.(volumes := r.volumes + [v], required := Wrap(r.required + reserve));
    PlanSum(r, v, reserve);
    SameMedia(r, more);
    hide ReservesTo, Wrap;
    forall i | 0 <= i < |r.diskIDs| && i < n + 1 ensures PlannedDisk(more, i) {
      if i < n { assert PlannedDisk(r, i); }
    }
    forall i | 0 <= i < |r.mediaIDs| && |r.diskIDs| + i < n + 1 ensures PlannedMedium(more, i) {
      if |r.diskIDs| + i < n { assert PlannedMedium(r, i); }
    }
  }

  /** `seen` holds the first n identifiers, all different. */
  ghost predicate SeenTo(seen: set<string>, ids: seq<string>, n: nat)
    requires n <= |ids|
  {
    Distinct(ids[..n]) && forall id :: id in seen <==> id in ids[..n]
  }

  lemma SeenStep(seen: set<string>, ids: seq<string>, n: nat)
    requires n < |ids| && SeenTo(seen, ids, n)
    ensures if ids[n] in seen then !Distinct(ids) else SeenTo(seen + {ids[n]}, ids, n + 1)
  {
    assert ids[..n + 1] == ids[..n] + [ids[n]];
    if ids[n] in seen {
      var k :| 0 <= k < n && ids[..n][k] == ids[n];
      assert ids[k] == ids[n];
    } else {
      assert forall k :: 0 <= k < n ==> ids[..n][k] == ids[k] && ids[k] in ids[..n];
    }
  }

  /** The part of Service.Plan that lists volumes and adds up the space; additions may wrap. */
  method PlanVolumes(request: Recipe) returns (plan: Option<Recipe>)
    requires request.volumes == [] && request.required == RESERVE
    ensures plan.Some? <==> Plannable(request)
    ensures plan.Some? ==>
      Planned(plan.value) && plan.value == request.(volumes := plan.value.volumes, required := plan.value.required)
  {
    hide Lookup, AllMedia, DiskPlannable, MediumPlannable, PlannedTo, Planned, Distinct, SeenTo;
    if |request.diskIDs| != |request.disks| { return None; }
    var ids := request.diskIDs + request.mediaIDs;
    NothingPlanned(request, ids);
    var ok, r, seen := PlanDisks(request, ids);
    SameMedia(request, r);
    SamePlannable(request, r);
    if !ok || |AllMedia(r)| != |r.mediaIDs| { return None; }
    if r.seed.Some? {
      var id := r.seed.value.id;
      SeenDisks(seen, r, ids);
      if id in seen || (Lookup(r.media, id).Some? && id != "") { return None; }
    }
    ok, r := PlanMedia(r, ids, seen);
    SameMedia(request, r);
    if !ok { return None; }
    PlanEnds(r, ids);
    return Some(r);
  }

  method PlanDisks(request: Recipe, ids: seq<string>) returns (ok: bool, r: Recipe, seen: set<string>)
    requires ids == request.diskIDs + request.mediaIDs && request.volumes == [] && PlannedTo(request, 0)
      && SeenTo({}, ids, 0)
    ensures r == request.(volumes := r.volumes, required := r.required)
    ensures if ok then |r.volumes| == |r.diskIDs| && PlannedTo(r, |r.diskIDs|) && SeenTo(seen, ids, |r.diskIDs|)
        && forall k :: 0 <= k < |r.diskIDs| ==> DiskPlannable(request, r.diskIDs[k])
      else !Distinct(ids) || exists k :: 0 <= k < |r.diskIDs| && !DiskPlannable(request, r.diskIDs[k])
  {
    hide Lookup, DiskReserve, DiskVolume, MediumVolume, PlannedTo, Distinct, SeenTo;
    r, seen := request, {};
    for i := 0 to |r.diskIDs|
      invariant r == request.(volumes := r.volumes, required := r.required) && |r.volumes| == i && PlannedTo(r, i)
      invariant SeenTo(seen, ids, i)
      invariant forall k :: 0 <= k < i ==> DiskPlannable(request, r.diskIDs[k])
    {
      var id := r.diskIDs[i];
      assert id == ids[i];
      SeenStep(seen, ids, i);
      var source := Lookup(r.disks, id);
      if source.None? || id in seen { return false, r, seen; }
      seen := seen + {id};
      var s := source.value;
      var reserve := DiskReserve(r.rule, r.handOver, ToU64(s.virtualBytes), ToU64(s.fileBytes));
      if reserve.None? { return false, r, seen; }
      DiskVolumeReserve(r, i, s);
      PlanStep(r, DiskVolume(r, i, s), reserve.value);
      r := r.(volumes := r.volumes + [DiskVolume(r, i, s)], required := Wrap(r.required + reserve.value));
    }
    ok := true;
  }

  method PlanMedia(request: Recipe, ids: seq<string>, before: set<string>) returns (ok: bool, r: Recipe)
    requires ids == request.diskIDs + request.mediaIDs && |request.volumes| == |request.diskIDs|
    requires PlannedTo(request, |request.diskIDs|) && SeenTo(before, ids, |request.diskIDs|)
    ensures r == request.(volumes := r.volumes, required := r.required)
    ensures if ok then PlannedTo(r, |ids|) && Distinct(ids)
      && forall k :: 0 <= k < |r.mediaIDs| ==> MediumPlannable(request, r.mediaIDs[k])
      else !Distinct(ids) || exists k :: 0 <= k < |r.mediaIDs| && !MediumPlannable(request, r.mediaIDs[k])
  {
    hide Lookup, DiskReserve, DiskVolume, MediumVolume, PlannedTo, Distinct, SeenTo, AllMedia;
    r := request;
    var seen := before;
    for i := 0 to |r.mediaIDs|
      invariant r == request.(volumes := r.volumes, required := r.required) && |r.volumes| == |r.diskIDs| + i
        && PlannedTo(r, |r.volumes|)
      invariant SeenTo(seen, ids, |r.diskIDs| + i) && AllMedia(r) == AllMedia(request)
      invariant forall k :: 0 <= k < i ==> MediumPlannable(request, r.mediaIDs[k])
    {
      var id := r.mediaIDs[i];
      assert id == ids[|r.diskIDs| + i];
      SeenStep(seen, ids, |r.diskIDs| + i);
      var source := Lookup(AllMedia(r), id);
      if source.None? || id in seen || source.value.format != "raw" { return false, r; }
      seen := seen + {id};
      var v := MediumVolume(r, i, source.value);
      MediumVolumeReserve(r, i, source.value);
      PlanStep(r, v, v.fileBytes);
      SameMedia(r, r.(volumes := r.volumes + [v], required := Wrap(r.required + v.fileBytes)));
      r := r.(volumes := r.volumes + [v], required := Wrap(r.required + v.fileBytes));
    }
    SeenAll(seen, ids);
    ok := true;
  }

  lemma SamePlannable(r: Recipe, more: Recipe)
    requires more == r.(volumes := more.volumes, required := more.required)
    ensures forall id :: MediumPlannable(r, id) == MediumPlannable(more, id)
  {
    SameMedia(r, more);
  }

  lemma SeenAll(seen: set<string>, ids: seq<string>)
    requires SeenTo(seen, ids, |ids|)
    ensures Distinct(ids)
  {
    assert ids[..|ids|] == ids;
  }

  lemma SeenDisks(seen: set<string>, r: Recipe, ids: seq<string>)
    requires ids == r.diskIDs + r.mediaIDs && SeenTo(seen, ids, |r.diskIDs|)
    ensures forall id :: id in seen <==> id in r.diskIDs
  {
    assert ids[..|r.diskIDs|] == r.diskIDs;
  }

  lemma NothingPlanned(r: Recipe, ids: seq<string>)
    requires r.volumes == [] && r.required == RESERVE
    ensures PlannedTo(r, 0) && SeenTo({}, ids, 0)
  {
  }

  lemma DiskVolumeReserve(r: Recipe, i: nat, s: Source)
    ensures VolumeReserve(r.rule, r.handOver, DiskVolume(r, i, s)) ==
      DiskReserve(r.rule, r.handOver, ToU64(s.virtualBytes), ToU64(s.fileBytes))
  {
  }

  lemma MediumVolumeReserve(r: Recipe, i: nat, s: Source)
    ensures VolumeReserve(r.rule, r.handOver, MediumVolume(r, i, s)) == Some(MediumVolume(r, i, s).fileBytes)
  {
  }

  lemma PlanEnds(r: Recipe, ids: seq<string>)
    requires ids == r.diskIDs + r.mediaIDs && PlannedTo(r, |ids|) && |r.disks| == |r.diskIDs|
      && |AllMedia(r)| == |r.mediaIDs|
    requires Distinct(ids)
    ensures Planned(r)
  {
    hide Lookup, ReservesTo, DiskVolume, MediumVolume;
    assert ids[..|ids|] == ids;
    assert forall i :: 0 <= i < |r.diskIDs| ==> r.diskIDs[i] == ids[i];
    assert forall i :: 0 <= i < |r.mediaIDs| ==> r.mediaIDs[i] == ids[|r.diskIDs| + i];
    assert |r.volumes| == |r.diskIDs| + |r.mediaIDs|;
  }
}
