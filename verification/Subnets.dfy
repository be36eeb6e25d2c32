/** Subnet reservations: blocks of addresses (section 3.1 of RFC 4632) that never share an address, because every check
    and the reservation behind it happen under one allocation lock. */
module Subnets {
  import opened Text

  /** A block: an address of its family's width in bits, and the number of leading bits that count. */
  datatype Block = Block(width: nat, address: nat, bits: nat)

  /** The address without its last n bits. */
  function High(a: nat, n: nat): nat { if n == 0 then a else High(a / 2, n - 1) }

  function Pow2(n: nat): (p: nat)
    ensures p > 0
  {
    if n == 0 then 1 else 2 * Pow2(n - 1)
  }

  predicate WellFormed(b: Block) { b.bits <= b.width }

  predicate Contains(b: Block, a: nat)
    requires WellFormed(b)
  {
    High(a, b.width - b.bits) == High(b.address, b.width - b.bits)
  }

  /** netip.Prefix.Overlaps: one family, and equal on the shorter prefix. */
  predicate Overlaps(p: Block, q: Block)
    requires WellFormed(p) && WellFormed(q)
  {
    p.width == q.width &&
    var bits := if p.bits < q.bits then p.bits else q.bits;
    High(p.address, p.width - bits) == High(q.address, p.width - bits)
  }

  /** Some address lies in both. */
  ghost predicate Share(p: Block, q: Block)
    requires WellFormed(p) && WellFormed(q)
  {
    p.width == q.width && exists a: nat :: Contains(p, a) && Contains(q, a)
  }

  lemma {:induction false} HighTwice(a: nat, m: nat, n: nat)
    ensures High(High(a, m), n) == High(a, m + n)
  {
    if m > 0 { HighTwice(a / 2, m - 1, n); }
  }

  lemma HighMono(a: nat, b: nat, m: nat, n: nat)
    requires High(a, m) == High(b, m) && m <= n
    ensures High(a, n) == High(b, n)
  {
    HighTwice(a, m, n - m);
    HighTwice(b, m, n - m);
  }

  lemma DivideTwice(a: nat, x: nat)
    requires x > 0
    ensures a / 2 / x == a / (2 * x)
  {
    var h, r := a / 2 / x, a / 2 % x;
    assert a / 2 == x * h + r;
    var rest := 2 * r + a % 2;
    assert a == (2 * x) * h + rest && 0 <= rest < 2 * x;
    UniqueQuotient(a, 2 * x, h, rest);
  }

  lemma Multiples(x: nat, a: nat, b: nat)
    ensures a < b ==> x * (a + 1) <= x * b
  {
  }

  lemma UniqueQuotient(a: nat, x: nat, h: nat, rest: nat)
    requires x > 0 && a == x * h + rest && rest < x
    ensures a / x == h
  {
    Multiples(x, a / x, h);
    Multiples(x, h, a / x);
    assert a == x * (a / x) + a % x;
  }

  /** Dropping bits is dividing by a power of two: a block is one aligned run of addresses. */
  lemma {:induction false} HighIsQuotient(a: nat, n: nat)
    ensures High(a, n) == a / Pow2(n)
  {
    if n > 0 {
      HighIsQuotient(a / 2, n - 1);
      DivideTwice(a, Pow2(n - 1));
    }
  }

  /** Two blocks overlap exactly when they share an address. */
  lemma OverlapsIffShare(p: Block, q: Block)
    requires WellFormed(p) && WellFormed(q)
    ensures Overlaps(p, q) <==> Share(p, q)
  {
    hide High;
    if p.width == q.width {
      var n := p.width - if p.bits < q.bits then p.bits else q.bits;
      if Overlaps(p, q) {
        assert Contains(p, if p.bits < q.bits then q.address else p.address);
        assert Contains(q, if p.bits < q.bits then q.address else p.address);
      }
      if Share(p, q) {
        var a: nat :| Contains(p, a) && Contains(q, a);
        HighMono(a, p.address, p.width - p.bits, n);
        HighMono(a, q.address, q.width - q.bits, n);
      }
    }
  }

  /** And then the longer prefix lies within the shorter one. */
  lemma OverlapIsNesting(p: Block, q: Block)
    requires WellFormed(p) && WellFormed(q) && p.width == q.width && p.bits <= q.bits
    ensures Overlaps(p, q) <==> forall a: nat :: Contains(q, a) ==> Contains(p, a)
  {
    hide High;
    if Overlaps(p, q) {
      forall a: nat | Contains(q, a) ensures Contains(p, a) {
        HighMono(a, q.address, q.width - q.bits, p.width - p.bits);
      }
    }
    assert Contains(q, q.address);
  }

  // Reservations

  /** A durable reservation; a guest-only network may have no subnet. */
  datatype Record = Record(connection: string, block: Option<Block>, job: nat)

  type Records = map<string, Record>

  predicate BlockOk(b: Option<Block>) { b.Some? ==> WellFormed(b.value) }

  ghost predicate AllOk(records: Records) {
    forall id :: id in records ==> BlockOk(records[id].block)
  }

  ghost predicate Apart(p: Option<Block>, q: Option<Block>)
    requires BlockOk(p) && BlockOk(q)
  {
    p.Some? && q.Some? ==> !Share(p.value, q.value)
  }

  /** A block shares no address with any reservation of a connection. */
  ghost predicate Free(records: Records, connection: string, block: Option<Block>)
    requires AllOk(records) && BlockOk(block)
  {
    forall id :: id in records && records[id].connection == connection ==> Apart(block, records[id].block)
  }

  /** No two reservations with a subnet on one connection share an address. */
  ghost predicate Disjoint(records: Records)
    requires AllOk(records)
  {
    forall i, j :: i in records && j in records && i != j && records[i].connection == records[j].connection ==>
      Apart(records[i].block, records[j].block)
  }

  lemma ShareIsMutual(p: Block, q: Block)
    requires WellFormed(p) && WellFormed(q)
    ensures Share(p, q) <==> Share(q, p)
  {
  }

  lemma ReserveKeepsDisjoint(records: Records, id: string, r: Record)
    requires AllOk(records) && Disjoint(records) && BlockOk(r.block) && Free(records, r.connection, r.block)
      && id !in records
    ensures AllOk(records[id := r]) && Disjoint(records[id := r])
  {
    hide Share;
    var more := records[id := r];
    forall i, j | i in more && j in more && i != j && more[i].connection == more[j].connection
      ensures Apart(more[i].block, more[j].block) {
      if more[i].block.Some? && more[j].block.Some? { ShareIsMutual(more[i].block.value, more[j].block.value); }
    }
  }

  /** A reservation that a candidate of another network on the connection has to keep clear of. */
  predicate Counts(records: Records, connection: string, exclude: Option<string>, id: string) {
    id in records && exclude != Some(id) && records[id].connection == connection
  }

  /** checkNetworkCIDR over the reservations of a connection and what else was observed to be occupied. */
  method CheckCIDR(records: Records, connection: string, exclude: Option<string>, block: Option<Block>,
      observed: seq<Block>)
    returns (ok: bool)
    requires AllOk(records) && BlockOk(block) && forall b :: b in observed ==> WellFormed(b)
    ensures ok <==>
      && (forall id :: Counts(records, connection, exclude, id) ==> Apart(block, records[id].block))
      && (forall b :: b in observed ==> Apart(block, Some(b)))
  {
    if block.None? { return true; }
    hide Share, Overlaps;
    var conflicts := 0;
    var rest := records.Keys;
    while rest != {}
      invariant rest <= records.Keys && conflicts >= 0
      invariant conflicts == 0 <==>
        forall id :: Counts(records, connection, exclude, id) && id !in rest ==> Apart(block, records[id].block)
      decreases |rest|
    {
      var id :| id in rest;
      rest := rest - {id};
      if Counts(records, connection, exclude, id) && records[id].block.Some? {
        OverlapsIffShare(block.value, records[id].block.value);
        if Overlaps(block.value, records[id].block.value) { conflicts := conflicts + 1; }
      }
    }
    ghost var reserved := conflicts;
    for k := 0 to |observed|
      invariant conflicts >= reserved >= 0
      invariant conflicts == 0 <==> reserved == 0 && forall i :: 0 <= i < k ==> Apart(block, Some(observed[i]))
    {
      assert observed[k] in observed;
      OverlapsIffShare(block.value, observed[k]);
      if Overlaps(block.value, observed[k]) { conflicts := conflicts + 1; }
    }
    return conflicts == 0;
  }

  /** A define step that has checked its subnet but not yet reserved it. */
  datatype Candidate = Candidate(id: string, connection: string, block: Option<Block>)

  /** The reservations, the one lock every network job holds from acceptance to its end, and the jobs between their
      check and their write. */
  class Allocation {
    var records: Records
    var holder: Option<nat>
    var checked: map<nat, Candidate>

    ghost predicate Valid()
      reads this
    {
      && AllOk(records) && Disjoint(records)
      && forall job :: job in checked ==>
        && holder == Some(job) && BlockOk(checked[job].block)
        && Free(records, checked[job].connection, checked[job].block)
    }

    constructor ()
      ensures Valid() && records == map[] && holder.None?
    {
      records, holder, checked := map[], None, map[];
    }

    /** A job is accepted only if the lock is free, or takes it over from the job it recovers. */
    method Accept(job: nat, recovers: Option<nat>) returns (ok: bool)
      requires Valid() && job !in checked
      modifies this
      ensures Valid() && records == old(records)
      ensures ok <==> old(holder) == recovers && (recovers.Some? ==> recovers.value !in old(checked))
      ensures holder == if ok then Some(job) else old(holder)
    {
      if holder != recovers || (recovers.Some? && recovers.value in checked) { return false; }
      holder := Some(job);
      ok := true;
    }

    /** A job ends, or the coordinator restarts: what it had checked is forgotten. */
    method Forget(job: nat, release: bool)
      requires Valid()
      modifies this
      ensures Valid() && records == old(records) && job !in checked
      ensures holder == if release && old(holder) == Some(job) then None else old(holder)
    {
      checked := checked - {job};
      if release && holder == Some(job) { holder := None; }
    }

    /** The define step, up to its check. Only the holder of the lock executes. */
    method CheckStep(job: nat, c: Candidate, observed: seq<Block>) returns (ok: bool)
      requires Valid() && holder == Some(job) && BlockOk(c.block) && forall b :: b in observed ==> WellFormed(b)
      modifies this`checked
      ensures Valid() && records == old(records)
      ensures ok ==> job in checked && checked[job] == c && Free(records, c.connection, c.block)
      ensures ok ==> forall b :: b in observed ==> Apart(c.block, Some(b))
    {
      ok := CheckCIDR(records, c.connection, None, c.block, observed);
      if ok { checked := checked[job := c]; }
    }

    /** The records with the job's checked candidate reserved for it. */
    function Reserved(job: nat): Records
      requires job in checked
      reads this
    {
      var c := checked[job];
      records[c.id := Record(c.connection, c.block, job)]
    }

    /** The define step's write: put where nothing was. A put that reports failure may still have been durable. */
    method ReserveStep(job: nat) returns (ok: bool)
      requires Valid() && job in checked
      modifies this
      ensures Valid() && job !in checked && holder == old(holder)
      ensures records == old(records) || (old(checked)[job].id !in old(records) && records == old(Reserved(job)))
      ensures ok ==> records == old(Reserved(job)) && old(checked)[job].id !in old(records)
    {
      var c := checked[job];
      checked := checked - {job};
      var written: bool := *;
      if c.id in records || !written { return false; }
      var r := Record(c.connection, c.block, job);
      ReserveKeepsDisjoint(records, c.id, r);
      OnlyHolder(job);
      records := records[c.id := r];
      ok := *;
    }

    /** The lock admits one job between check and write, so a reservation never spoils another's check. */
    lemma OnlyHolder(job: nat)
      requires Valid() && holder == Some(job) && job !in checked
      ensures checked == map[]
    {
      assert forall other :: other in checked ==> other == job;
    }

    /** Any interleaving of any number of jobs, with crashes between check and write. Reservations are never dropped. */
    method Run(steps: nat)
      requires Valid()
      modifies this
      ensures Valid() && forall id :: id in old(records) ==> id in records && records[id] == old(records)[id]
    {
      for k := 0 to steps
        invariant Valid() && forall id :: id in old(records) ==> id in records && records[id] == old(records)[id]
      {
        var choice: nat, job: nat := *, *;
        var flag: bool := *;
        var recovers: Option<nat> := *;
        var c: Candidate := *;
        var observed: seq<Block> := *;
        if choice == 0 {
          if job !in checked { var _ := Accept(job, recovers); }
        } else if choice == 1 {
          Forget(job, flag);
        } else if job in checked {
          var _ := ReserveStep(job);
        } else if holder == Some(job) && BlockOk(c.block) && forall b :: b in observed ==> WellFormed(b) {
          var _ := CheckStep(job, c, observed);
        }
      }
    }
  }
}
