/** The auxiliary archive: the deterministic writer, the byte-exact validator and
    the positional reader of the ustar Interchange Format (pax utility, POSIX.1).
    The content of a 512-byte header and the digest function are parameters. */
module Archive {
  import opened Text

  type Byte = b: int | 0 <= b < 256
  type Bytes = seq<Byte>

  datatype Member = Member(id: string, size: nat)

  /** The header of a member of given name and size, and SHA-256. */
  datatype Host = Host(header: (string, nat) -> Bytes, sha: Bytes -> string)

  /** What the delivery metadata says about an archive. */
  datatype Artifact = Artifact(size: nat, sha: string, sums: map<string, string>)

  const BLOCK := 512
  const FOOTER := 1024
  const CHUNK := 0x1_0000
  const MAX_MEMBERS := 128
  const MAX_PAYLOAD := 255 * 0x10_0000
  const MAX_SNAPSHOT := 256 * 0x10_0000

  function Zeros(n: nat): (z: Bytes)
    ensures |z| == n
  {
    seq(n, _ => 0)
  }

  function Padding(size: nat): (n: nat)
    ensures n < BLOCK && (size + n) % BLOCK == 0
  {
    (BLOCK - size % BLOCK) % BLOCK
  }

  /** The room one member takes: header, content and padding. */
  function Span(m: Member): (n: nat)
    ensures n >= BLOCK + m.size
  {
    BLOCK + m.size + Padding(m.size)
  }

  function TotalSize(ms: seq<Member>): nat { if ms == [] then FOOTER else Span(ms[0]) + TotalSize(ms[1..]) }

  function TotalPayload(ms: seq<Member>): nat { if ms == [] then 0 else ms[0].size + TotalPayload(ms[1..]) }

  predicate Fit(ms: seq<Member>, ps: seq<Bytes>) {
    |ps| == |ms| && forall i :: 0 <= i < |ms| ==> |ps[i]| == ms[i].size
  }

  /** The archive of the given payloads. */
  function Encode(ms: seq<Member>, ps: seq<Bytes>, host: Host): Bytes
    requires Fit(ms, ps)
  {
    if ms == [] then Zeros(FOOTER)
    else host.header(ms[0].id, ms[0].size) + ps[0] + Zeros(Padding(ms[0].size)) + Encode(ms[1..], ps[1..], host)
  }

  predicate HeadersFit(ms: seq<Member>, host: Host) {
    forall i :: 0 <= i < |ms| ==> |host.header(ms[i].id, ms[i].size)| == BLOCK
  }

  lemma {:induction false} EncodeSize(ms: seq<Member>, ps: seq<Bytes>, host: Host)
    requires Fit(ms, ps) && HeadersFit(ms, host)
    ensures |Encode(ms, ps, host)| == TotalSize(ms)
  {
    if ms != [] {
      EncodeSize(ms[1..], ps[1..], host);
    }
  }

  /** The payloads have the declared digests. */
  predicate Summed(ms: seq<Member>, ps: seq<Bytes>, sums: map<string, string>, host: Host) {
    |ps| == |ms| && forall i :: 0 <= i < |ms| ==> ms[i].id in sums && host.sha(ps[i]) == sums[ms[i].id]
  }

  /** A byte string is an exact archive of payloads with the declared sizes and digests. */
  ghost predicate IsArchive(ms: seq<Member>, file: Bytes, sums: map<string, string>, host: Host) {
    exists ps :: Fit(ms, ps) && Summed(ms, ps, sums, host) && file == Encode(ms, ps, host)
  }

  // The validator's view: one member after the other

  predicate Scan(ms: seq<Member>, file: Bytes, sums: map<string, string>, host: Host) {
    if ms == [] then file == Zeros(FOOTER)
    else HeadOk(ms[0], file, sums, host) && Scan(ms[1..], file[Span(ms[0])..], sums, host)
  }

  predicate HeadOk(m: Member, file: Bytes, sums: map<string, string>, host: Host) {
    && |file| >= Span(m)
    && file[..BLOCK] == host.header(m.id, m.size)
    && m.id in sums && host.sha(file[BLOCK..BLOCK + m.size]) == sums[m.id]
    && file[BLOCK + m.size..Span(m)] == Zeros(Padding(m.size))
  }

  lemma HeadDecides(m: Member, file: Bytes, payload: Bytes, rest: Bytes, sums: map<string, string>, host: Host)
    requires |payload| == m.size && |host.header(m.id, m.size)| == BLOCK
    requires file == host.header(m.id, m.size) + payload + Zeros(Padding(m.size)) + rest
    ensures file[BLOCK..BLOCK + m.size] == payload && file[Span(m)..] == rest
    ensures HeadOk(m, file, sums, host) <==> m.id in sums && host.sha(payload) == sums[m.id]
  {
    assert file[..BLOCK] == host.header(m.id, m.size);
    assert file[BLOCK + m.size..Span(m)] == Zeros(Padding(m.size));
  }

  lemma HeadRebuilds(m: Member, file: Bytes, sums: map<string, string>, host: Host)
    requires HeadOk(m, file, sums, host)
    ensures file == host.header(m.id, m.size) + file[BLOCK..BLOCK + m.size] + Zeros(Padding(m.size)) + file[Span(m)..]
  {
    assert file[BLOCK..] == file[BLOCK..BLOCK + m.size] + file[BLOCK + m.size..];
    assert file[BLOCK + m.size..] == file[BLOCK + m.size..Span(m)] + file[Span(m)..];
  }

  /** Scanning succeeds exactly on archives. */
  lemma {:induction false} ScanIsArchive(ms: seq<Member>, file: Bytes, sums: map<string, string>, host: Host)
    requires HeadersFit(ms, host)
    ensures Scan(ms, file, sums, host) <==> IsArchive(ms, file, sums, host)
  {
    if ms == [] {
      if Scan(ms, file, sums, host) {
        assert Fit(ms, []) && Summed(ms, [], sums, host) && file == Encode(ms, [], host);
      }
    } else {
      if Scan(ms, file, sums, host) {
        var rest := file[Span(ms[0])..];
        ScanIsArchive(ms[1..], rest, sums, host);
        var tail :| Fit(ms[1..], tail) && Summed(ms[1..], tail, sums, host) && rest == Encode(ms[1..], tail, host);
        HeadRebuilds(ms[0], file, sums, host);
        ConsIsArchive(ms, file, tail, sums, host);
      }
      if IsArchive(ms, file, sums, host) {
        var ps :| Fit(ms, ps) && Summed(ms, ps, sums, host) && file == Encode(ms, ps, host);
        var rest := Encode(ms[1..], ps[1..], host);
        hide Scan, HeadOk;
        HeadDecides(ms[0], file, ps[0], rest, sums, host);
        assert Fit(ms[1..], ps[1..]) && Summed(ms[1..], ps[1..], sums, host);
        ScanIsArchive(ms[1..], rest, sums, host);
        ScanUnfolds(ms, file, sums, host);
      }
    }
  }

  lemma ScanUnfolds(ms: seq<Member>, file: Bytes, sums: map<string, string>, host: Host)
    requires ms != [] && HeadOk(ms[0], file, sums, host)
    ensures Scan(ms, file, sums, host) <==> Scan(ms[1..], file[Span(ms[0])..], sums, host)
  {
  }

  lemma ConsIsArchive(ms: seq<Member>, file: Bytes, tail: seq<Bytes>, sums: map<string, string>, host: Host)
    requires ms != [] && Fit(ms[1..], tail) && Summed(ms[1..], tail, sums, host) && |file| >= Span(ms[0])
    requires var payload := file[BLOCK..BLOCK + ms[0].size];
      && ms[0].id in sums && host.sha(payload) == sums[ms[0].id]
      && file == host.header(ms[0].id, ms[0].size) + payload + Zeros(Padding(ms[0].size)) + Encode(ms[1..], tail, host)
    ensures IsArchive(ms, file, sums, host)
  {
    var ps := [file[BLOCK..BLOCK + ms[0].size]] + tail;
    assert ps[1..] == tail;
    assert forall i :: 1 <= i < |ms| ==> ms[i] == ms[1..][i - 1] && ps[i] == tail[i - 1];
    assert Fit(ms, ps) && Summed(ms, ps, sums, host) && file == Encode(ms, ps, host);
  }

  /** What metadata validation already established about the artifact. */
  predicate MetadataOk(ms: seq<Member>, a: Artifact) {
    && InventoryOk(ms)
    && a.size == TotalSize(ms) && a.size <= MAX_SNAPSHOT
    && |a.sums| == |ms| && forall i :: 0 <= i < |ms| ==> ms[i].id in a.sums
  }

  /** What request validation established about the reviewed members. */
  predicate InventoryOk(ms: seq<Member>) {
    0 < |ms| <= MAX_MEMBERS && TotalPayload(ms) <= MAX_PAYLOAD && Named(ms, |ms|)
  }

  /** The first n members are numbered in order, in at least three digits. */
  predicate Named(ms: seq<Member>, n: nat) {
    n <= |ms| && forall k :: 0 <= k < n ==> ms[k].id == MemberName(k)
  }

  function MemberName(k: nat): string { "members/" + Pad(k) }

  lemma NamesDiffer(ms: seq<Member>, n: nat)
    requires Named(ms, n)
    ensures DistinctIds(ms[..n])
  {
    hide MemberName;
    forall i, j | 0 <= i < j < n ensures ms[i].id != ms[j].id {
      NamesApart(i, j);
    }
  }

  lemma NamesApart(i: nat, j: nat)
    requires i != j
    ensures MemberName(i) != MemberName(j)
  {
    hide Pad, Digits;
    PadReads(i);
    PadReads(j);
    assert MemberName(i)[8..] == Pad(i) && MemberName(j)[8..] == Pad(j);
  }

  lemma {:induction false} PayloadBounds(ms: seq<Member>, k: nat)
    requires k < |ms|
    ensures ms[k].size <= TotalPayload(ms)
  {
    if k > 0 { PayloadBounds(ms[1..], k - 1); }
  }

  /** The size loop of ValidateAuxiliaryDelivery. */
  method ArtifactSize(ms: seq<Member>) returns (size: nat)
    ensures size == TotalSize(ms)
  {
    size := FOOTER;
    for i := 0 to |ms|
      invariant size + TotalSize(ms[i..]) == FOOTER + TotalSize(ms)
    {
      assert ms[i..][1..] == ms[i + 1..];
      Rounding(ms[i].size);
      size := size + BLOCK + (ms[i].size + 511) / BLOCK * BLOCK;
    }
  }

  lemma Rounding(size: nat)
    ensures (size + 511) / BLOCK * BLOCK == size + Padding(size)
  {
  }

  /** Within the member and payload bounds the archive always fits the snapshot bound. */
  lemma {:induction false} BoundsSuffice(ms: seq<Member>)
    ensures TotalSize(ms) <= FOOTER + TotalPayload(ms) + 1023 * |ms|
    ensures |ms| <= MAX_MEMBERS && TotalPayload(ms) <= MAX_PAYLOAD ==> TotalSize(ms) <= MAX_SNAPSHOT
  {
    if ms != [] {
      BoundsSuffice(ms[1..]);
    }
  }

  // Validation

  /** Reads `count` bytes at the reader's position; too few is an error. */
  function ReadFull(file: Bytes, pos: nat, count: nat): (r: Option<Bytes>)
    requires pos <= |file|
    ensures r.Some? <==> pos + count <= |file|
    ensures r.Some? ==> r.value == file[pos..pos + count]
  {
    if pos + count <= |file| then Some(file[pos..pos + count]) else None
  }

  /** One member's content, read and hashed chunk by chunk. */
  method HashContent(file: Bytes, start: nat, size: nat) returns (content: Option<Bytes>)
    requires start <= |file|
    ensures content.Some? <==> start + size <= |file|
    ensures content.Some? ==> content.value == file[start..start + size]
  {
    var hashed: Bytes := [];
    var remaining: nat := size;
    while remaining > 0
      invariant remaining <= size && start + (size - remaining) <= |file|
      invariant hashed == file[start..start + (size - remaining)]
    {
      var count := if remaining < CHUNK then remaining else CHUNK;
      var chunk := ReadFull(file, start + (size - remaining), count);
      if chunk.None? { return None; }
      hashed := hashed + chunk.value;
      remaining := remaining - count;
    }
    return Some(hashed);
  }

  /** One member: header, content digest and padding. */
  method ValidateMember(m: Member, file: Bytes, pos: nat, sums: map<string, string>, host: Host)
    returns (next: Option<nat>)
    requires pos <= |file| && |host.header(m.id, m.size)| == BLOCK && m.id in sums
    ensures next.Some? <==> HeadOk(m, file[pos..], sums, host)
    ensures next.Some? ==> next.value == pos + Span(m) <= |file|
  {
    ghost var f := file[pos..];
    var header := ReadFull(file, pos, BLOCK);
    if header.None? { return None; }
    assert f[..BLOCK] == header.value;
    if header.value != host.header(m.id, m.size) { return None; }
    var content := HashContent(file, pos + BLOCK, m.size);
    if content.None? { return None; }
    assert f[BLOCK..BLOCK + m.size] == content.value;
    if host.sha(content.value) != sums[m.id] { return None; }
    var padding := ReadFull(file, pos + BLOCK + m.size, Padding(m.size));
    if padding.None? { return None; }
    assert f[BLOCK + m.size..Span(m)] == padding.value;
    if padding.value != Zeros(Padding(m.size)) { return None; }
    return Some(pos + Span(m));
  }

  /** validateAuxiliaryArchive: it accepts exactly the archives of payloads with the
      declared sizes and digests whose own digest is the declared one. */
  method ValidateArchive(ms: seq<Member>, a: Artifact, file: Bytes, host: Host) returns (ok: bool)
    ensures ok <==>
      MetadataOk(ms, a) && HeadersFit(ms, host) && IsArchive(ms, file, a.sums, host) && host.sha(file) == a.sha
  {
    var size := ArtifactSize(ms);
    if size != a.size || !MetadataOk(ms, a) { return false; }
    if |file| != a.size {
      if HeadersFit(ms, host) && IsArchive(ms, file, a.sums, host) {
        var ps :| Fit(ms, ps) && Summed(ms, ps, a.sums, host) && file == Encode(ms, ps, host);
        EncodeSize(ms, ps, host);
      }
      return false;
    }
    if HeadersFit(ms, host) { ScanIsArchive(ms, file, a.sums, host); }
    var pos: nat := 0;
    for i := 0 to |ms|
      invariant pos <= |file|
      invariant forall k :: 0 <= k < i ==> |host.header(ms[k].id, ms[k].size)| == BLOCK
      invariant Scan(ms, file, a.sums, host) <==> Scan(ms[i..], file[pos..], a.sums, host)
    {
      assert ms[i..][1..] == ms[i + 1..];
      if |host.header(ms[i].id, ms[i].size)| != BLOCK { return false; }
      var next := ValidateMember(ms[i], file, pos, a.sums, host);
      if next.None? { return false; }
      assert file[pos..][Span(ms[i])..] == file[next.value..];
      pos := next.value;
    }
    ghost var rest := file[pos..];
    var footer := ReadFull(file, pos, FOOTER);
    if footer.None? || footer.value != Zeros(FOOTER) {
      assert rest == Zeros(FOOTER) ==> pos + FOOTER == |file|;
      assert footer.Some? && pos + FOOTER == |file| ==> footer.value == rest;
      return false;
    }
    // The stream digest covers what was read; then nothing may follow.
    if host.sha(file[..pos + FOOTER]) != a.sha || pos + FOOTER != |file| {
      assert pos + FOOTER == |file| ==> file[..pos + FOOTER] == file;
      return false;
    }
    assert file[..pos + FOOTER] == file && rest == footer.value;
    return true;
  }

  // Writing

  function Flatten(parts: seq<Bytes>): Bytes { if parts == [] then [] else parts[0] + Flatten(parts[1..]) }

  lemma {:induction false} FlattenAppend(a: seq<Bytes>, b: seq<Bytes>)
    ensures Flatten(a + b) == Flatten(a) + Flatten(b)
  {
    if a == [] {
      assert a + b == b;
    } else {
      FlattenAppend(a[1..], b);
      assert (a + b)[1..] == a[1..] + b;
      assert Flatten(a + b) == a[0] + (Flatten(a[1..]) + Flatten(b));
    }
  }

  /** A section of at most `size` bytes of what a held reader can supply. */
  function Section(content: Bytes, size: nat): Bytes { if |content| <= size then content else content[..size] }

  function Sections(ms: seq<Member>, contents: seq<Bytes>): (s: seq<Bytes>)
    requires |contents| == |ms|
    ensures |s| == |ms|
  {
    seq(|ms|, i requires 0 <= i < |ms| => Section(contents[i], ms[i].size))
  }

  /** The parts of one member as the writer queues them. */
  function Parts(m: Member, content: Bytes, host: Host): seq<Bytes> {
    [host.header(m.id, m.size), Section(content, m.size), Zeros(Padding(m.size))]
  }

  lemma PartsAre(m: Member, content: Bytes, host: Host)
    ensures Flatten(Parts(m, content, host)) ==
      host.header(m.id, m.size) + Section(content, m.size) + Zeros(Padding(m.size))
  {
    var parts := Parts(m, content, host);
    assert parts[1..] == [parts[1], parts[2]];
    assert parts[1..][1..] == [parts[2]];
    assert Flatten([parts[2]]) == parts[2];
  }

  predicate DistinctIds(ms: seq<Member>) { forall i, j :: 0 <= i < j < |ms| ==> ms[i].id != ms[j].id }

  /** Encoding as the writer builds it, from the front. */
  function Front(ms: seq<Member>, ps: seq<Bytes>, host: Host): Bytes
    requires |ps| == |ms|
  {
    if ms == [] then []
    else
      var n := |ms| - 1;
      Front(ms[..n], ps[..n], host) + (host.header(ms[n].id, ms[n].size) + ps[n] + Zeros(Padding(ms[n].size)))
  }

  lemma {:induction false} FrontEncode(ms: seq<Member>, ps: seq<Bytes>, i: nat, host: Host)
    requires Fit(ms, ps) && i <= |ms|
    ensures Front(ms[..i], ps[..i], host) + Encode(ms[i..], ps[i..], host) == Encode(ms, ps, host)
  {
    if i > 0 {
      FrontEncode(ms, ps, i - 1, host);
      assert ms[..i][..i - 1] == ms[..i - 1] && ps[..i][..i - 1] == ps[..i - 1];
      assert ms[i - 1..][1..] == ms[i..] && ps[i - 1..][1..] == ps[i..];
    }
  }

  datatype Written = Written(file: Bytes, artifact: Artifact)

  /** The parts queued for the first i members, their announced size. */
  predicate Queued(ms: seq<Member>, ps: seq<Bytes>, i: nat, parts: seq<Bytes>, size: nat, host: Host) {
    && i <= |ms| == |ps|
    && (forall k :: 0 <= k < i ==> |host.header(ms[k].id, ms[k].size)| == BLOCK)
    && size + TotalSize(ms[i..]) == FOOTER + TotalSize(ms) && size <= MAX_SNAPSHOT
    && Flatten(parts) == Front(ms[..i], ps[..i], host)
    && |Flatten(parts)| + FOOTER <= size
    && (|Flatten(parts)| + FOOTER == size <==> forall k :: 0 <= k < i ==> |ps[k]| == ms[k].size)
  }

  /** The digests of the first i members, and no others. */
  predicate Digested(ms: seq<Member>, ps: seq<Bytes>, i: nat, sums: map<string, string>, host: Host) {
    && i <= |ms| == |ps|
    && sums.Keys == Names(ms[..i])
    && forall k :: 0 <= k < i ==> sums[ms[k].id] == host.sha(ps[k])
  }

  lemma QueueNext(
      ms: seq<Member>, ps: seq<Bytes>, i: nat, parts: seq<Bytes>, size: nat, host: Host, content: Bytes)
    requires i < |ms| && Queued(ms, ps, i, parts, size, host)
    requires Span(ms[i]) <= MAX_SNAPSHOT - size && |host.header(ms[i].id, ms[i].size)| == BLOCK
    requires ps[i] == Section(content, ms[i].size)
    ensures Queued(ms, ps, i + 1, parts + Parts(ms[i], content, host), size + Span(ms[i]), host)
  {
    var m, new' := ms[i], parts + Parts(ms[i], content, host);
    assert ms[i..][1..] == ms[i + 1..];
    FlattenAppend(parts, Parts(m, content, host));
    PartsAre(m, content, host);
    hide Flatten, Parts;
    assert ms[..i + 1][..i] == ms[..i] && ps[..i + 1][..i] == ps[..i];
    assert Front(ms[..i + 1], ps[..i + 1], host) ==
      Front(ms[..i], ps[..i], host) + (host.header(m.id, m.size) + ps[i] + Zeros(Padding(m.size)));
    hide Front, TotalSize;
    assert |Flatten(new')| == |Flatten(parts)| + BLOCK + |ps[i]| + Padding(m.size);
  }

  lemma DigestNext(ms: seq<Member>, ps: seq<Bytes>, i: nat, sums: map<string, string>, host: Host)
    requires i < |ms| && Named(ms, i + 1) && Digested(ms, ps, i, sums, host)
    ensures Digested(ms, ps, i + 1, sums[ms[i].id := host.sha(ps[i])], host)
  {
    hide MemberName, Names;
    NamesDiffer(ms, i + 1);
    assert forall k :: 0 <= k <= i ==> ms[..i + 1][k] == ms[k];
    assert forall k :: 0 <= k < i ==> ms[k].id != ms[i].id;
    hide Named, DistinctIds;
    assert ms[..i + 1] == ms[..i] + [ms[i]];
    NamesGrow(ms[..i], ms[i]);
  }

  lemma QueueWhole(ms: seq<Member>, ps: seq<Bytes>, parts: seq<Bytes>, size: nat, host: Host)
    requires Queued(ms, ps, |ms|, parts, size, host)
    ensures size == TotalSize(ms) && HeadersFit(ms, host)
    ensures |Flatten(parts + [Zeros(FOOTER)])| == size <==> Fit(ms, ps)
    ensures Fit(ms, ps) ==> Flatten(parts + [Zeros(FOOTER)]) == Encode(ms, ps, host)
  {
    FlattenAppend(parts, [Zeros(FOOTER)]);
    assert Flatten([Zeros(FOOTER)]) == Zeros(FOOTER);
    assert ms[..|ms|] == ms && ps[..|ms|] == ps && ms[|ms|..] == [] && ps[|ms|..] == [];
    if Fit(ms, ps) { FrontEncode(ms, ps, |ms|, host); }
  }

  lemma DigestWhole(ms: seq<Member>, ps: seq<Bytes>, sums: map<string, string>, host: Host)
    requires Named(ms, |ms|) && Digested(ms, ps, |ms|, sums, host)
    ensures Summed(ms, ps, sums, host) && |sums| == |ms|
  {
    assert ms[..|ms|] == ms && |sums| == |sums.Keys|;
    assert forall i :: 0 <= i < |ms| ==> ms[i] in ms && ms[i].id in Names(ms);
    NamesDiffer(ms, |ms|);
    NameCount(ms);
  }

  /** What the writer itself asks of the members. */
  predicate Writable(ms: seq<Member>) {
    Named(ms, |ms|) && forall k :: 0 <= k < |ms| ==> ms[k].size <= MAX_PAYLOAD
  }

  /** archiveReader and the sealed copy of it: on success the archive encodes exactly
      the declared bytes of every member, and the metadata describes it. */
  method WriteArchive(ms: seq<Member>, contents: seq<Bytes>, host: Host) returns (r: Option<Written>)
    requires |contents| == |ms|
    ensures r.Some? ==> HeadersFit(ms, host) && Fit(ms, Sections(ms, contents))
    ensures r.Some? ==> r.value.file == Encode(ms, Sections(ms, contents), host)
    ensures r.Some? ==>
      r.value.artifact.size == TotalSize(ms) <= MAX_SNAPSHOT && r.value.artifact.sha == host.sha(r.value.file)
    ensures r.Some? ==> Summed(ms, Sections(ms, contents), r.value.artifact.sums, host)
    ensures r.Some? ==> |r.value.artifact.sums| == |ms|
    ensures r.Some? <==>
      Writable(ms) && HeadersFit(ms, host) && TotalSize(ms) <= MAX_SNAPSHOT && Fit(ms, Sections(ms, contents))
  {
    hide MemberName, Encode, Zeros, Padding, Parts;
    var parts: seq<Bytes> := [];
    var sums: map<string, string> := map[];
    var size: nat := FOOTER;
    ghost var ps := Sections(ms, contents);
    assert ms[0..] == ms;
    for i := 0 to |ms|
      invariant Queued(ms, ps, i, parts, size, host) && Digested(ms, ps, i, sums, host)
      invariant Named(ms, i) && forall k :: 0 <= k < i ==> ms[k].size <= MAX_PAYLOAD
    {
      var m := ms[i];
      if m.id != MemberName(i) || m.size > MAX_PAYLOAD { return None; }
      if Span(m) > MAX_SNAPSHOT - size {
        Remaining(ms, i);
        return None;
      }
      var header := host.header(m.id, m.size);
      if |header| != BLOCK { return None; }
      QueueNext(ms, ps, i, parts, size, host, contents[i]);
      DigestNext(ms, ps, i, sums, host);
      hide Queued, Digested;
      size := size + Span(m);
      sums := sums[m.id := host.sha(Section(contents[i], m.size))];
      parts := parts + Parts(m, contents[i], host);
    }
    QueueWhole(ms, ps, parts, size, host);
    DigestWhole(ms, ps, sums, host);
    hide Queued, Digested;
    parts := parts + [Zeros(FOOTER)];
    var file := Flatten(parts);
    // CaptureSealed reads exactly the announced size.
    if |file| != size { return None; }
    return Some(Written(file, Artifact(size, host.sha(file), sums)));
  }

  function Names(ms: seq<Member>): set<string> { set m | m in ms :: m.id }

  lemma {:induction false} NameCount(ms: seq<Member>)
    requires DistinctIds(ms)
    ensures |Names(ms)| == |ms|
  {
    if ms != [] {
      var n := |ms| - 1;
      NameCount(ms[..n]);
      NamesGrow(ms[..n], ms[n]);
      assert ms[..n] + [ms[n]] == ms;
      assert forall m :: m in ms[..n] ==> m.id != ms[n].id;
    }
  }

  lemma NamesGrow(ms: seq<Member>, m: Member)
    ensures Names(ms + [m]) == Names(ms) + {m.id}
  {
    assert forall x :: x in ms + [m] <==> x in ms || x == m;
    assert forall x :: x in ms ==> x in ms + [m] && x.id in Names(ms + [m]);
    assert m in ms + [m] && m.id in Names(ms + [m]);
  }

  lemma {:induction false} Remaining(ms: seq<Member>, i: nat)
    requires i < |ms|
    ensures TotalSize(ms[i..]) >= Span(ms[i]) + FOOTER
    decreases |ms| - i
  {
    assert ms[i..][1..] == ms[i + 1..];
    if i + 1 < |ms| { Remaining(ms, i + 1); }
  }

  /** An archive determines its payloads. */
  lemma {:induction false} EncodeInjective(ms: seq<Member>, ps: seq<Bytes>, qs: seq<Bytes>, host: Host)
    requires HeadersFit(ms, host) && Fit(ms, ps) && Fit(ms, qs)
    requires Encode(ms, ps, host) == Encode(ms, qs, host)
    ensures ps == qs
  {
    if ms != [] {
      var file := Encode(ms, ps, host);
      HeadDecides(ms[0], file, ps[0], Encode(ms[1..], ps[1..], host), map[], host);
      HeadDecides(ms[0], file, qs[0], Encode(ms[1..], qs[1..], host), map[], host);
      EncodeInjective(ms[1..], ps[1..], qs[1..], host);
      assert ps == [ps[0]] + ps[1..] && qs == [qs[0]] + qs[1..];
    }
  }

  // Reading by position

  lemma Positions(ms: seq<Member>, ps: seq<Bytes>, file: Bytes, i: nat, offset: nat, host: Host)
    requires HeadersFit(ms, host) && Fit(ms, ps) && i < |ms| && offset <= |file|
      && file[offset..] == Encode(ms[i..], ps[i..], host)
    ensures offset + Span(ms[i]) <= |file|
    ensures file[offset + BLOCK..offset + BLOCK + ms[i].size] == ps[i]
    ensures file[offset + Span(ms[i])..] == Encode(ms[i + 1..], ps[i + 1..], host)
  {
    var m, f, rest := ms[i], file[offset..], Encode(ms[i + 1..], ps[i + 1..], host);
    assert ms[i..][1..] == ms[i + 1..] && ps[i..][1..] == ps[i + 1..];
    HeadDecides(m, f, ps[i], rest, map[], host);
    assert |f| >= Span(m);
    assert f[BLOCK..BLOCK + m.size] == file[offset + BLOCK..offset + BLOCK + m.size];
    assert f[Span(m)..] == file[offset + Span(m)..];
  }

  /** The offset walk of addAuxiliary: each member's content, by position alone. */
  method ReadMembers(ms: seq<Member>, file: Bytes, sums: map<string, string>, host: Host)
    returns (r: Option<seq<Bytes>>)
    requires HeadersFit(ms, host) && IsArchive(ms, file, sums, host)
    ensures r.Some? && Fit(ms, r.value) && Summed(ms, r.value, sums, host)
    ensures file == Encode(ms, r.value, host)
    ensures forall qs :: Fit(ms, qs) && file == Encode(ms, qs, host) ==> r.value == qs
  {
    var out: seq<Bytes> := [];
    var offset: nat := 0;
    ghost var ps :| Fit(ms, ps) && Summed(ms, ps, sums, host) && file == Encode(ms, ps, host);
    assert ms[0..] == ms && ps[0..] == ps && file[0..] == file;
    for i := 0 to |ms|
      invariant offset <= |file| && file[offset..] == Encode(ms[i..], ps[i..], host)
      invariant out == ps[..i]
    {
      var m := ms[i];
      Positions(ms, ps, file, i, offset, host);
      hide Encode;
      offset := offset + BLOCK;
      var content := ReadFull(file, offset, m.size);
      if content.None? || m.id !in sums || host.sha(content.value) != sums[m.id] { return None; }
      out := out + [content.value];
      offset := offset + m.size + Padding(m.size);
    }
    assert ps[..|ms|] == ps;
    forall qs | Fit(ms, qs) && file == Encode(ms, qs, host)
      ensures ps == qs
    {
      EncodeInjective(ms, ps, qs, host);
    }
    return Some(out);
  }

  /** Capture, delivery and use of an archive. Whatever the writer makes of a reviewed
      inventory, the validator accepts, and its positional reader gets back what was held. */
  method RoundTrip(ms: seq<Member>, contents: seq<Bytes>, host: Host)
    returns (w: Option<Written>, accepted: bool, read: Option<seq<Bytes>>)
    requires |contents| == |ms| && InventoryOk(ms)
    ensures w.Some? <==> HeadersFit(ms, host) && Fit(ms, Sections(ms, contents))
    ensures w.Some? ==> accepted && read == Some(Sections(ms, contents))
  {
    BoundsSuffice(ms);
    forall k | 0 <= k < |ms| ensures ms[k].size <= MAX_PAYLOAD {
      PayloadBounds(ms, k);
    }
    accepted, read := false, None;
    w := WriteArchive(ms, contents, host);
    if w.None? { return; }
    var file, artifact := w.value.file, w.value.artifact;
    assert IsArchive(ms, file, artifact.sums, host);
    accepted := ValidateArchive(ms, artifact, file, host);
    read := ReadMembers(ms, file, artifact.sums, host);
  }
}
