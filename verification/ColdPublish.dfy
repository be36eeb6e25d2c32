/** Publication and inspection of recovery sets in a private catalogue. */
module ColdPublish {
  import opened Text
  import opened ColdTree
  import opened ColdStore

  datatype Source = Source(member: Member, content: Bytes)

  /** One source for each member, whatever their order. */
  ghost predicate Offered(members: seq<Member>, sources: seq<Source>) {
    && |sources| == |members|
    && (forall i, j :: 0 <= i < j < |sources| ==> sources[i].member.id != sources[j].member.id)
    && (forall m :: m in members ==> exists s :: s in sources && s.member == m)
  }

  /** The sources hold what the manifest declares. */
  predicate Faithful(codec: Codec, sources: seq<Source>) {
    forall s :: s in sources ==> |s.content| == s.member.size && codec.sha(s.content) == s.member.sha
  }

  ghost predicate Indexed(byID: map<string, Source>, sources: seq<Source>) {
    && (forall id :: id in byID ==> byID[id] in sources && byID[id].member.id == id)
    && (forall s :: s in sources ==> s.member.id in byID && byID[s.member.id] == s)
  }

  /** Sources by identifier; a second source for one is refused. */
  method IndexByID(sources: seq<Source>) returns (ok: bool, byID: map<string, Source>)
    ensures ok <==> forall i, j :: 0 <= i < j < |sources| ==> sources[i].member.id != sources[j].member.id
    ensures ok ==> Indexed(byID, sources)
  {
    byID := map[];
    for k := 0 to |sources|
      invariant Indexed(byID, sources[..k])
      invariant forall i, j :: 0 <= i < j < k ==> sources[i].member.id != sources[j].member.id
    {
      var s := sources[k];
      assert sources[..k + 1] == sources[..k] + [s];
      if s.member.id in byID {
        var i :| 0 <= i < k && sources[i] == byID[s.member.id];
        return false, byID;
      }
      assert forall i :: 0 <= i < k ==> sources[i] in sources[..k];
      byID := byID[s.member.id := s];
    }
    assert sources[..|sources|] == sources;
    ok := true;
  }

  /** The matching loop of prepare: sources in member order. */
  method Order(members: seq<Member>, sources: seq<Source>) returns (ok: bool, ordered: seq<Source>)
    ensures ok <==> Offered(members, sources)
    ensures ok ==>
      |ordered| == |members|
        && forall i :: 0 <= i < |members| ==> ordered[i] in sources && ordered[i].member == members[i]
  {
    ordered := [];
    if |sources| != |members| { return false, []; }
    var byID: map<string, Source>;
    ok, byID := IndexByID(sources);
    if !ok { return; }
    for k := 0 to |members|
      invariant |ordered| == k && forall i :: 0 <= i < k ==> ordered[i] in sources && ordered[i].member == members[i]
    {
      var m := members[k];
      if m.id !in byID || byID[m.id].member != m {
        assert m in members && forall s :: s in sources ==> s.member != m;
        return false, [];
      }
      ordered := ordered + [byID[m.id]];
    }
    ok := true;
  }

  /** The two documents of a set, read and compared. */
  ghost predicate Documents(codec: Codec, f: Folder, id: string, m: Manifest) {
    && [MANIFEST] in f.files && [RECEIPT] in f.files
    && f.files[[MANIFEST]] == File(codec.encode(m), true)
      && f.files[[RECEIPT]] == File(codec.receipt(codec.ReceiptOf(m)), true)
    && DocumentOk(f.files[[MANIFEST]].content) && DocumentOk(f.files[[RECEIPT]].content)
    && codec.decode(f.files[[MANIFEST]].content) == Some(m) && PathsOk(m.members) && m.id == id
  }

  lemma CompleteByParts(codec: Codec, f: Folder, id: string, m: Manifest)
    ensures Complete(codec, f, id, codec.ReceiptOf(m)) <==>
      && Documents(codec, f, id, m) && !Unlawful(m.members) && IsTheTree(f, m.members) && f.sealed == f.dirs
      && forall x :: x in m.members ==> MemberStored(codec, f, x)
  {
    hide Unlawful, IsDirectory, MemberStored, DocumentOk, PathsOk;
    assert DeclaredFile(m.members, [MANIFEST]) && DeclaredFile(m.members, [RECEIPT]);
    hide DeclaredFile;
  }

  lemma CompleteHasDocuments(codec: Codec, f: Folder, id: string)
    ensures forall c ::
      Complete(codec, f, id, c) ==> c == codec.ReceiptOf(c.manifest) && Documents(codec, f, id, c.manifest)
  {
    hide Documents;
    forall c | Complete(codec, f, id, c)
      ensures c == codec.ReceiptOf(c.manifest) && Documents(codec, f, id, c.manifest) {
      CompleteByParts(codec, f, id, c.manifest);
    }
  }

  lemma OnlyReceipt(codec: Codec, f: Folder, id: string, m: Manifest)
    requires Documents(codec, f, id, m)
    ensures forall c :: Complete(codec, f, id, c) ==> c == codec.ReceiptOf(m)
  {
    hide Complete;
    CompleteHasDocuments(codec, f, id);
  }

  /** A sealed set that is the declared tree passes the directory check. */
  lemma TreeIsSealed(f: Folder, members: seq<Member>, tree: Tree)
    requires FolderOk(f) && TreeOf(members, tree)
    ensures IsTheTree(f, members) && f.sealed == f.dirs ==>
      forall d :: d in tree ==> d in f.sealed && Listing(f, d) == tree[d].Keys
  {
    hide FolderOk, TreeOf, IsTheTree, Listing;
    MatchingIsTheTree(f, members, tree);
  }

  /** And one that passes, with all declared files, is the declared tree and sealed. */
  lemma SealedIsTheTree(codec: Codec, f: Folder, id: string, m: Manifest, tree: Tree)
    requires FolderOk(f) && TreeOf(m.members, tree) && Documents(codec, f, id, m)
    requires forall d :: d in tree ==> d in f.sealed && Listing(f, d) == tree[d].Keys
    requires forall x :: x in m.members ==> MemberStored(codec, f, x)
    ensures IsTheTree(f, m.members) && f.sealed == f.dirs
  {
    hide Listing, PathsOk, DocumentOk, IsDirectory, Declares;
    assert forall d :: d in tree ==> d in f.dirs;
    assert Matches(f, m.members, tree);
    MatchingIsTheTree(f, m.members, tree);
  }

  /** A file may be made there. */
  predicate Vacant(f: Folder, p: Path)
    requires p != []
  {
    Parent(p) in f.dirs && p !in f.dirs && p !in f.files
  }

  /** The first i members are the files of a set, each stored as declared. */
  ghost predicate StoredTo(codec: Codec, f: Folder, members: seq<Member>, i: nat)
    requires i <= |members|
  {
    && (forall p :: p in f.files <==> exists k :: 0 <= k < i && members[k].path == p)
    && (forall k :: 0 <= k < i ==> MemberStored(codec, f, members[k]))
  }

  lemma StoreOne(codec: Codec, f: Folder, members: seq<Member>, i: nat, content: Bytes)
    requires i < |members| && StoredTo(codec, f, members, i) && PathsOk(members)
    requires |content| == members[i].size && codec.sha(content) == members[i].sha
    ensures members[i].path !in f.files
    ensures StoredTo(codec, f.(files := f.files[members[i].path := File(content, true)]), members, i + 1)
  {
  }

  lemma AllStored(codec: Codec, f: Folder, members: seq<Member>)
    requires StoredTo(codec, f, members, |members|)
    ensures forall p :: p in f.files <==> exists m :: m in members && m.path == p
    ensures forall m :: m in members ==> MemberStored(codec, f, m)
  {
    hide MemberStored;
  }

  function PartialName(id: string): string { "." + id + ".partial" }

  class Catalog {
    const codec: Codec
    var sets: map<string, Folder>

    ghost predicate Valid()
      reads this
    {
      (forall n :: n in sets ==> FolderOk(sets[n])) && codec.RoundTrips() && codec.Sized()
    }

    /** The first part of inspectSet: both documents, canonical and bound to each other. */
    method ReadDocuments(f: Folder, id: string) returns (m: Option<Manifest>)
      ensures m.Some? ==> Documents(codec, f, id, m.value) && forall x :: x in m.value.members ==> x.path != []
      ensures m.None? ==> forall x :: !Documents(codec, f, id, x)
    {
      hide DocumentOk;
      if [MANIFEST] !in f.files || [RECEIPT] !in f.files || !f.files[[MANIFEST]].sealed || !f.files[[RECEIPT]].sealed {
        return None;
      }
      var raw, receiptRaw := f.files[[MANIFEST]].content, f.files[[RECEIPT]].content;
      if !DocumentOk(raw) || !DocumentOk(receiptRaw) { return None; }
      var decoded := codec.decode(raw);
      if decoded.None? || !PathsOk(decoded.value.members) { return None; }
      var found := decoded.value;
      if codec.encode(found) != raw || found.id != id || codec.receipt(codec.ReceiptOf(found)) != receiptRaw {
        return None;
      }
      return decoded;
    }

    /** inspectSet: accepts exactly the complete sets, and changes nothing. */
    method Inspect(name: string, id: string, quiet: bool) returns (r: Option<Receipt>)
      requires Valid()
      ensures r.Some? ==> name in sets && Complete(codec, sets[name], id, r.value)
      ensures quiet && name in sets && (exists c :: Complete(codec, sets[name], id, c)) ==> r.Some?
    {
      hide Complete, Documents, TreeOf, MemberStored, Unlawful, IsTheTree, Matches, Listing;
      if name !in sets { return None; }
      var f := sets[name];
      CompleteHasDocuments(codec, f, id);
      var m := ReadDocuments(f, id);
      if m.None? { return None; }
      var members := m.value.members;
      CompleteByParts(codec, f, id, m.value);
      OnlyReceipt(codec, f, id, m.value);
      var tree := ExpectedTree(members);
      if tree.None? { return None; }
      var matches := CheckDirectories(f, tree.value);
      TreeIsSealed(f, members, tree.value);
      if !matches { return None; }
      var stored := CheckMembers(f, members, quiet);
      if !stored { return None; }
      SealedIsTheTree(codec, f, id, m.value, tree.value);
      var fails: bool := *;
      if fails && !quiet { return None; }
      return Some(codec.ReceiptOf(m.value));
    }

    /** Directories in sorted order: each is there, sealed, with exactly its declared names. */
    method CheckDirectories(f: Folder, tree: Tree) returns (ok: bool)
      ensures ok <==> forall d :: d in tree ==> d in f.sealed && Listing(f, d) == tree[d].Keys
    {
      hide Listing;
      var order := SortPaths(tree.Keys);
      for i := 0 to |order|
        invariant forall k :: 0 <= k < i ==> order[k] in f.sealed && Listing(f, order[k]) == tree[order[k]].Keys
      {
        assert order[i] in order;
        if order[i] !in f.sealed { return false; }
        ok := DirectoryMatches(f, order[i], tree[order[i]]);
        if !ok { return; }
      }
      ok := true;
    }

    /** Members: a sealed file of the declared size and digest each. */
    method CheckMembers(f: Folder, members: seq<Member>, quiet: bool) returns (ok: bool)
      ensures ok ==> forall m :: m in members ==> MemberStored(codec, f, m)
      ensures quiet && (forall m :: m in members ==> MemberStored(codec, f, m)) ==> ok
    {
      for i := 0 to |members|
        invariant forall k :: 0 <= k < i ==> MemberStored(codec, f, members[k])
      {
        var m := members[i];
        assert m in members;
        if m.path !in f.files || !f.files[m.path].sealed || |f.files[m.path].content| != m.size { return false; }
        var written;
        ok, written := CopyExact(codec, f.files[m.path].content, m.size, m.sha, quiet);
        if !ok { return; }
      }
      ok := true;
    }

    /** Only one set of the catalogue is being worked on. */
    twostate predicate OnlyIn(name: string)
      reads this
    {
      Valid() && name in sets && sets == old(sets)[name := sets[name]]
    }

    /** mkdir in sorted order: the parent is always there already. */
    method MakeDirectories(partial: string, members: seq<Member>, tree: Tree, quiet: bool) returns (ok: bool)
      requires Valid() && partial in sets && sets[partial] == Folder({[]}, {}, map[]) && TreeOf(members, tree)
      modifies this`sets
      ensures OnlyIn(partial)
      ensures ok ==> sets[partial] == Folder(tree.Keys, {}, map[])
      ensures quiet ==> ok
    {
      hide TreeOf;
      TreeIsClosed(members, tree);
      var order := SortPaths(tree.Keys - {[]});
      ghost var made: set<Path> := {[]};
      for i := 0 to |order|
        invariant OnlyIn(partial) && sets[partial] == Folder(made, {}, map[])
        invariant forall d :: d in made <==> d == [] || exists k :: 0 <= k < i && order[k] == d
      {
        var d, f := order[i], sets[partial];
        assert d in order;
        ParentsComeFirst(order, tree.Keys, i);
        assert Parent(d) in f.dirs && d !in f.dirs;
        var fails: bool := *;
        if fails && !quiet { return false; }
        made := made + {d};
        sets := sets[partial := f.(dirs := f.dirs + {d})];
      }
      forall k | 0 <= k < |order| ensures order[k] in tree.Keys { assert order[k] in order; }
      assert forall d :: d in tree.Keys ==> d == [] || d in order;
      assert made == tree.Keys;
      ok := true;
    }

    /** writeMember: a new file, filled exactly, then sealed. */
    method WriteMember(partial: string, path: Path, source: Bytes, size: nat, sha: nat, quiet: bool) returns (ok: bool)
      requires Valid() && partial in sets && path != []
      modifies this`sets
      ensures OnlyIn(partial)
      ensures ok ==> sets[partial] == old(sets)[partial].(files := old(sets)[partial].files[path := File(source, true)])
      ensures ok ==> |source| == size && codec.sha(source) == sha
      ensures quiet && |source| == size && codec.sha(source) == sha && Vacant(old(sets)[partial], path) ==> ok
    {
      var f := sets[partial];
      var fails: bool := *;
      if (fails && !quiet) || !Vacant(f, path) { return false; }
      sets := sets[partial := f.(files := f.files[path := File([], false)])];
      var written;
      ok, written := CopyExact(codec, source, size, sha, quiet);
      sets := sets[partial := f.(files := f.files[path := File(written, false)])];
      fails := *;
      if !ok || (fails && !quiet) { return false; }
      sets := sets[partial := f.(files := f.files[path := File(written, true)])];
      fails := *;
      if fails && !quiet { return false; }
    }

    /** The members, in manifest order. */
    method WriteMembers(partial: string, members: seq<Member>, ordered: seq<Source>, quiet: bool) returns (ok: bool)
      requires Valid() && partial in sets && sets[partial].files == map[]
      requires PathsOk(members) && !Unlawful(members)
        && forall d :: d in sets[partial].dirs <==> IsDirectory(members, d)
      requires |ordered| == |members| && forall i :: 0 <= i < |members| ==> ordered[i].member == members[i]
      modifies this`sets
      ensures OnlyIn(partial)
      ensures ok ==> sets[partial] == old(sets)[partial].(files := sets[partial].files)
      ensures ok ==> forall p :: p in sets[partial].files <==> exists m :: m in members && m.path == p
      ensures ok ==> forall m :: m in members ==> MemberStored(codec, sets[partial], m)
      ensures quiet && Faithful(codec, ordered) ==> ok
    {
      hide Unlawful, IsDirectory, PathsOk, MemberStored, StoredTo;
      PathsDiffer(members);
      NothingStored(codec, sets[partial], members);
      for i := 0 to |members|
        invariant OnlyIn(partial) && sets[partial] == old(sets)[partial].(files := sets[partial].files)
        invariant StoredTo(codec, sets[partial], members, i)
      {
        var m, source := members[i], ordered[i].content;
        assert ordered[i] in ordered && ordered[i].member == m && m in members;
        MemberHasPlace(members, m);
        if |source| == m.size && codec.sha(source) == m.sha { StoreOne(codec, sets[partial], members, i, source); }
        ok := WriteMember(partial, m.path, source, m.size, m.sha, quiet);
        if !ok { return; }
      }
      AllStored(codec, sets[partial], members);
      ok := true;
    }

    /** chmod and sync of the directories, last made first. */
    method SealDirectories(partial: string, dirs: seq<Path>, quiet: bool) returns (ok: bool)
      requires Valid() && partial in sets && sets[partial].sealed == {}
        && forall d :: d in dirs <==> d in sets[partial].dirs
      modifies this`sets
      ensures OnlyIn(partial)
      ensures ok ==> sets[partial] == old(sets)[partial].(sealed := old(sets)[partial].dirs)
      ensures quiet ==> ok
    {
      var i := |dirs|;
      while i > 0
        invariant 0 <= i <= |dirs| && OnlyIn(partial)
          && sets[partial] == old(sets)[partial].(sealed := sets[partial].sealed)
        invariant forall d :: d in sets[partial].sealed <==> d in dirs[i..]
      {
        i := i - 1;
        var fails: bool := *;
        if fails && !quiet { return false; }
        var f := sets[partial];
        assert dirs[i..] == [dirs[i]] + dirs[i + 1..] && dirs[i] in dirs;
        sets := sets[partial := f.(sealed := f.sealed + {dirs[i]})];
      }
      assert dirs[0..] == dirs;
      assert sets[partial].sealed == old(sets)[partial].dirs;
      ok := true;
    }

    /** The two documents, after the members. */
    method WriteDocuments(partial: string, m: Manifest, quiet: bool) returns (ok: bool)
      requires Valid() && partial in sets && !Unlawful(m.members) && forall x :: x in m.members ==> x.path != []
      requires forall d :: d in sets[partial].dirs <==> IsDirectory(m.members, d)
      requires forall p :: p in sets[partial].files <==> exists x :: x in m.members && x.path == p
      modifies this`sets
      ensures OnlyIn(partial) && (quiet ==> ok)
      ensures ok ==> sets[partial] == old(sets)[partial].(files := WithDocuments(codec, old(sets)[partial].files, m))
    {
      hide Unlawful, IsDirectory;
      MetadataHasPlace(m.members);
      var raw, receiptRaw := codec.encode(m), codec.receipt(codec.ReceiptOf(m));
      ok := WriteMember(partial, [MANIFEST], raw, |raw|, codec.sha(raw), quiet);
      if !ok { return; }
      ok := WriteMember(partial, [RECEIPT], receiptRaw, |receiptRaw|, codec.sha(receiptRaw), quiet);
    }

    /** The set under its partial name: directories, members, both documents, all sealed. */
    method BuildSet(partial: string, m: Manifest, ordered: seq<Source>, tree: Tree, quiet: bool) returns (ok: bool)
      requires Valid() && partial in sets && sets[partial] == Folder({[]}, {}, map[])
      requires PathsOk(m.members) && !Unlawful(m.members) && TreeOf(m.members, tree)
      requires |ordered| == |m.members| && forall i :: 0 <= i < |m.members| ==> ordered[i].member == m.members[i]
      requires DocumentOk(codec.encode(m)) && DocumentOk(codec.receipt(codec.ReceiptOf(m)))
      modifies this`sets
      ensures OnlyIn(partial)
      ensures ok ==> Complete(codec, sets[partial], m.id, codec.ReceiptOf(m))
      ensures quiet && Faithful(codec, ordered) ==> ok
    {
      hide Complete, Unlawful, IsDirectory, PathsOk, DocumentOk, Faithful, FolderOk, TreeOf;
      TreeDirectories(m.members, tree);
      ok := MakeDirectories(partial, m.members, tree, quiet);
      if !ok { return; }
      ok := FillSet(partial, m, ordered, quiet);
    }

    /** Files, then seals. */
    method FillSet(partial: string, m: Manifest, ordered: seq<Source>, quiet: bool) returns (ok: bool)
      requires Valid() && partial in sets && sets[partial].sealed == {} && sets[partial].files == map[]
      requires PathsOk(m.members) && !Unlawful(m.members)
        && forall d :: d in sets[partial].dirs <==> IsDirectory(m.members, d)
      requires |ordered| == |m.members| && forall i :: 0 <= i < |m.members| ==> ordered[i].member == m.members[i]
      requires DocumentOk(codec.encode(m)) && DocumentOk(codec.receipt(codec.ReceiptOf(m)))
      modifies this`sets
      ensures OnlyIn(partial)
      ensures ok ==> Complete(codec, sets[partial], m.id, codec.ReceiptOf(m))
      ensures quiet && Faithful(codec, ordered) ==> ok
    {
      hide Complete, Unlawful, IsDirectory, PathsOk, MemberStored, DocumentOk, Faithful, WithDocuments, FolderOk;
      ok := WriteMembers(partial, m.members, ordered, quiet);
      if !ok { return; }
      ghost var stored := sets[partial];
      PathsDiffer(m.members);
      ok := WriteDocuments(partial, m, quiet);
      if !ok { return; }
      var order := SortPaths(sets[partial].dirs);
      ok := SealDirectories(partial, order, quiet);
      if !ok { return; }
      BuiltIsComplete(codec, stored, m);
    }

    /** Publish: it never replaces a set, a crash leaves the final name absent or complete, and a quiet publication of
        faithful sources succeeds. */
    method Publish(m: Manifest, sources: seq<Source>, quiet: bool) returns (r: Option<Receipt>)
      requires Valid()
      modifies this`sets
      ensures Valid()
      ensures forall n :: n in old(sets) ==> n in sets && sets[n] == old(sets)[n]
      ensures forall n :: n in sets && n !in old(sets) ==> n == PartialName(m.id) || n == m.id
      ensures m.id in sets && m.id !in old(sets) ==> Complete(codec, sets[m.id], m.id, codec.ReceiptOf(m))
      ensures r.Some? ==> m.id in sets && m.id !in old(sets) && r.value == codec.ReceiptOf(m)
      ensures quiet && Publishable(codec, m, sources) && m.id !in old(sets) && PartialName(m.id) !in old(sets) ==>
        r.Some?
    {
      hide Complete, Unlawful, IsDirectory, MemberStored, DocumentOk, TreeOf, Offered, FolderOk, PathsOk;
      if !PathsOk(m.members) { return None; }
      PathsDiffer(m.members);
      var tree := ExpectedTree(m.members);
      if tree.None? { return None; }
      var ok, ordered := Order(m.members, sources);
      if !ok { return None; }
      var receipt := codec.ReceiptOf(m);
      if !DocumentOk(codec.encode(m)) || !DocumentOk(codec.receipt(receipt)) { return None; }
      var partial := PartialName(m.id);
      PartialDiffers(m.id);
      if m.id in sets || partial in sets { return None; }
      EmptyFolder();
      sets := sets[partial := Folder({[]}, {}, map[])];
      ok := BuildSet(partial, m, ordered, tree.value, quiet);
      if !ok { return None; }
      OnlyOne(codec, sets[partial], m.id, receipt);
      var verified := Inspect(partial, m.id, quiet);
      if verified.None? || verified.value.manifestSha != receipt.manifestSha
        || verified.value.operation != receipt.operation {
        return None;
      }
      var fails: bool := *;
      if fails && !quiet { return None; }
      if m.id in sets { return None; }
      sets := (sets - {partial})[m.id := sets[partial]];
      fails := *;
      if fails && !quiet { return None; }
      verified := Inspect(m.id, m.id, quiet);
      if verified.None? || verified.value.manifestSha != receipt.manifestSha
        || verified.value.operation != receipt.operation {
        return None;
      }
      return verified;
    }

    /** After any publication, cut short anywhere, a quiet inspection of the final name finds the same receipt. */
    method Resume(m: Manifest, sources: seq<Source>) returns (r: Option<Receipt>)
      requires Valid() && m.id !in sets
      modifies this`sets
      ensures m.id in sets ==> r == Some(codec.ReceiptOf(m))
      ensures m.id !in sets ==> r == None
    {
      hide Complete;
      var _ := Publish(m, sources, false);
      if m.id in sets { OnlyOne(codec, sets[m.id], m.id, codec.ReceiptOf(m)); }
      r := Inspect(m.id, m.id, true);
    }
  }

  lemma TreeIsClosed(members: seq<Member>, tree: Tree)
    requires TreeOf(members, tree)
    ensures ParentClosed(tree.Keys)
  {
    hide Declares;
    assert IsDirectory(members, []);
    forall d | d in tree && d != [] ensures Parent(d) in tree {
      var m :| m in members && d <= m.path && |m.path| > |d|;
      assert Parent(d) <= m.path && |m.path| > |Parent(d)|;
      assert Reaches(members, Parent(d), true);
    }
  }

  lemma NothingStored(codec: Codec, f: Folder, members: seq<Member>)
    requires f.files == map[]
    ensures StoredTo(codec, f, members, 0)
  {
  }

  lemma PathsDiffer(members: seq<Member>)
    requires PathsOk(members)
    ensures forall i, j :: 0 <= i < j < |members| ==> members[i].path != members[j].path
    ensures forall m :: m in members ==> m.path != []
  {
  }

  lemma {:induction false} LowerFixed(s: string)
    requires forall i :: 0 <= i < |s| ==> LowerChar(s[i]) == s[i]
    ensures Lower(s) == s
  {
    if s != "" {
      LowerFixed(s[1..]);
      assert s == [s[0]] + s[1..];
    }
  }

  lemma LowerMetadata()
    ensures Lower(MANIFEST) == MANIFEST && Lower(RECEIPT) == RECEIPT
  {
    hide Lower;
    LowerFixed(MANIFEST);
    LowerFixed(RECEIPT);
  }

  /** In a lawful manifest a member's directory is declared, and its own path is no directory and no metadata. */
  lemma MemberHasPlace(members: seq<Member>, m: Member)
    requires !Unlawful(members) && m in members && m.path != []
    ensures IsDirectory(members, Parent(m.path)) && !IsDirectory(members, m.path)
    ensures m.path != [MANIFEST] && m.path != [RECEIPT]
  {
    hide Lower;
    var d, name := Parent(m.path), m.path[|m.path| - 1];
    assert m.path == d + [name];
    assert d <= m.path;
    assert Reaches(members, m.path, false) by { assert m.path <= m.path; }
    assert !Conflicts(members, d, name);
    assert d != [] ==> Reaches(members, d, true);
    assert !Collides(m);
    LowerMetadata();
  }

  ghost predicate Publishable(codec: Codec, m: Manifest, sources: seq<Source>) {
    && PathsOk(m.members) && !Unlawful(m.members) && Offered(m.members, sources) && Faithful(codec, sources)
    && DocumentOk(codec.encode(m)) && DocumentOk(codec.receipt(codec.ReceiptOf(m)))
  }

  function WithDocuments(codec: Codec, files: map<Path, File>, m: Manifest): map<Path, File> {
    files[[MANIFEST] := File(codec.encode(m), true)][[RECEIPT] := File(codec.receipt(codec.ReceiptOf(m)), true)]
  }

  lemma EmptyFolder()
    ensures FolderOk(Folder({[]}, {}, map[]))
  {
  }

  lemma PartialDiffers(id: string)
    ensures PartialName(id) != id
  {
    assert |PartialName(id)| > |id|;
  }

  lemma OnlyOne(codec: Codec, f: Folder, id: string, r: Receipt)
    requires Complete(codec, f, id, r)
    ensures forall c :: Complete(codec, f, id, c) ==> c == r
  {
    forall c | Complete(codec, f, id, c) ensures c == r { CompleteForOne(codec, f, id, c, r); }
  }

  lemma TreeDirectories(members: seq<Member>, tree: Tree)
    requires TreeOf(members, tree)
    ensures forall d :: d in tree.Keys <==> IsDirectory(members, d)
  {
  }

  /** No directory and no member has the place of a document. */
  lemma MetadataHasPlace(members: seq<Member>)
    requires !Unlawful(members) && forall m :: m in members ==> m.path != []
    ensures !IsDirectory(members, [MANIFEST]) && !IsDirectory(members, [RECEIPT])
    ensures forall m :: m in members ==> m.path != [MANIFEST] && m.path != [RECEIPT]
    ensures Parent([MANIFEST]) == [] == Parent([RECEIPT]) && [MANIFEST] != [RECEIPT] && IsDirectory(members, [])
  {
    hide Lower;
    LowerMetadata();
    forall m | m in members ensures m.path[0] != MANIFEST && m.path[0] != RECEIPT {
      assert !Collides(m);
    }
  }

  /** Members stored, documents added, directories sealed: the set is complete. */
  lemma BuiltIsComplete(codec: Codec, stored: Folder, m: Manifest)
    requires codec.RoundTrips() && PathsOk(m.members) && !Unlawful(m.members)
    requires DocumentOk(codec.encode(m)) && DocumentOk(codec.receipt(codec.ReceiptOf(m)))
    requires forall d :: d in stored.dirs <==> IsDirectory(m.members, d)
    requires forall p :: p in stored.files <==> exists x :: x in m.members && x.path == p
    requires forall x :: x in m.members ==> MemberStored(codec, stored, x)
    ensures Complete(codec, Folder(stored.dirs, stored.dirs, WithDocuments(codec, stored.files, m)), m.id,
      codec.ReceiptOf(m))
  {
    hide Unlawful, IsDirectory, DocumentOk;
    PathsDiffer(m.members);
    MetadataHasPlace(m.members);
    var f := Folder(stored.dirs, stored.dirs, WithDocuments(codec, stored.files, m));
    hide PathsOk;
    forall x | x in m.members ensures MemberStored(codec, f, x) {
      assert MemberStored(codec, stored, x);
    }
    CompleteByParts(codec, f, m.id, m);
  }
}
