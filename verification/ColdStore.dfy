/** Publishing an immutable recovery set: build under a partial name, verify, rename. Every step may fail or be the last
    before a crash, unless a call is `quiet`. */
module ColdStore {
  import opened Sets
  import opened Text
  import opened ColdTree

  type Bytes = seq<bv8>

  // Order

  /** sort.Strings order. */
  predicate Less(a: string, b: string) {
    if b == "" then false else if a == "" then true else a[0] < b[0] || (a[0] == b[0] && Less(a[1..], b[1..]))
  }

  lemma {:induction false} LessTotal(a: string, b: string)
    ensures Less(a, b) || Less(b, a) || a == b
    ensures !(Less(a, b) && Less(b, a))
  {
    if a != "" && b != "" {
      LessTotal(a[1..], b[1..]);
      assert a == [a[0]] + a[1..] && b == [b[0]] + b[1..];
    }
  }

  lemma {:induction false} LessTrans(a: string, b: string, c: string)
    requires !Less(b, a) && !Less(c, b)
    ensures !Less(c, a)
  {
    if a != "" && b != "" && c != "" && a[0] == b[0] == c[0] {
      LessTrans(a[1..], b[1..], c[1..]);
    }
  }

  lemma {:induction false} PrefixLess(a: string, b: string)
    requires a != []
    ensures Less(b, b + a)
  {
    if b != "" {
      PrefixLess(a, b[1..]);
      assert (b + a)[1..] == b[1..] + a;
    }
  }

  function Name(p: Path): string { if p == [] then "" else JoinWith(p, '/') }

  lemma {:induction false} JoinSnoc(p: Path, part: string)
    requires p != []
    ensures JoinWith(p + [part], '/') == JoinWith(p, '/') + "/" + part
  {
    if |p| > 1 {
      JoinSnoc(p[1..], part);
      assert (p + [part])[1..] == p[1..] + [part];
      var rest := JoinWith(p[1..], '/');
      assert p[0] + ['/'] + (rest + "/" + part) == p[0] + ['/'] + rest + "/" + part;
    } else {
      assert (p + [part])[1..] == [part];
    }
  }

  function Parent(p: Path): Path
    requires p != []
  {
    p[..|p| - 1]
  }

  predicate SortedByName(order: seq<Path>) {
    forall i, j :: 0 <= i < j < |order| ==> !Less(Name(order[j]), Name(order[i]))
  }

  predicate ParentClosed(dirs: set<Path>) { [] in dirs && forall d :: d in dirs && d != [] ==> Parent(d) in dirs }

  /** In sorted order a directory's parent comes before it. */
  lemma ParentsComeFirst(order: seq<Path>, dirs: set<Path>, i: nat)
    requires SortedByName(order) && ParentClosed(dirs) && i < |order|
    requires forall d :: d in dirs <==> d == [] || d in order
    requires order[i] != []
    ensures Parent(order[i]) == [] || exists k :: 0 <= k < i && order[k] == Parent(order[i])
  {
    var d, parent := order[i], Parent(order[i]);
    assert d in order && d in dirs;
    if parent != [] {
      var k :| 0 <= k < |order| && order[k] == parent;
      JoinSnoc(parent, d[|d| - 1]);
      assert d == parent + [d[|d| - 1]];
      PrefixLess("/" + d[|d| - 1], Name(parent));
      assert Name(d) == Name(parent) + ("/" + d[|d| - 1]);
      assert k <= i;
    }
  }

  lemma {:induction false} LeastExists(dirs: set<Path>)
    requires dirs != {}
    ensures exists d :: d in dirs && forall x :: x in dirs ==> !Less(Name(x), Name(d))
  {
    hide Less, Name;
    var d :| d in dirs;
    var others := dirs - {d};
    LessTotal(Name(d), Name(d));
    if others != {} {
      LeastExists(others);
      var e :| e in others && forall x :: x in others ==> !Less(Name(x), Name(e));
      LessTotal(Name(d), Name(e));
      if Less(Name(d), Name(e)) {
        forall x | x in dirs ensures !Less(Name(x), Name(d)) {
          if x != d { LessTrans(Name(d), Name(e), Name(x)); }
        }
      } else {
        assert forall x :: x in dirs ==> x == d || x in others;
      }
    } else {
      assert dirs == {d};
    }
  }

  /** sort.Strings of the directory names. */
  method SortPaths(dirs: set<Path>) returns (order: seq<Path>)
    ensures SortedByName(order) && (forall d :: d in order <==> d in dirs)
    ensures forall i, j :: 0 <= i < j < |order| ==> order[i] != order[j]
  {
    hide Less, Name;
    order := [];
    var rest := dirs;
    while rest != {}
      invariant rest <= dirs && SortedByName(order) && forall d :: d in dirs <==> d in order || d in rest
      invariant forall i, x :: 0 <= i < |order| && x in rest ==> !Less(Name(x), Name(order[i])) && x != order[i]
      invariant forall i, j :: 0 <= i < j < |order| ==> order[i] != order[j]
      decreases |rest|
    {
      LeastExists(rest);
      var d :| d in rest && forall x :: x in rest ==> !Less(Name(x), Name(d));
      order := order + [d];
      rest := rest - {d};
    }
  }

  // Records

  datatype Manifest = Manifest(id: string, operation: string, members: seq<Member>)

  datatype Receipt = Receipt(id: string, operation: string, manifestSha: nat, manifest: Manifest)

  /** JSON and SHA-256, of which only this is used: what an encoded manifest decodes to. */
  datatype Codec = Codec(encode: Manifest -> Bytes, decode: Bytes -> Option<Manifest>, receipt: Receipt -> Bytes,
    sha: Bytes -> nat) {
    ghost predicate RoundTrips() { forall m :: decode(encode(m)) == Some(m) }

    ghost predicate Sized() { forall m :: encode(m) != [] && |encode(m)| <= |receipt(ReceiptOf(m))| }

    function ReceiptOf(m: Manifest): Receipt { Receipt(m.id, m.operation, sha(encode(m)), m) }
  }

  /** What manifest validation establishes about member paths. */
  predicate PathsOk(members: seq<Member>) {
    && (forall m :: m in members ==> m.path != [])
    && (forall i, j :: 0 <= i < j < |members| ==> members[i].path != members[j].path && members[i].id != members[j].id)
  }

  const DOCUMENT_LIMIT := 8388608

  predicate DocumentOk(raw: Bytes) { 0 < |raw| <= DOCUMENT_LIMIT }

  // File system

  datatype File = File(content: Bytes, sealed: bool)

  /** One set on disk: its directories, which of them are read-only, and its files. */
  datatype Folder = Folder(dirs: set<Path>, sealed: set<Path>, files: map<Path, File>)

  ghost predicate FolderOk(f: Folder) {
    && ParentClosed(f.dirs) && f.sealed <= f.dirs
    && (forall p :: p in f.files ==> p != [] && Parent(p) in f.dirs && p !in f.dirs)
  }

  /** The names a directory holds. */
  function Listing(f: Folder, d: Path): set<string> {
    (set p | p in f.dirs && p != [] && Parent(p) == d :: p[|p| - 1])
      + (set p | p in f.files && p != [] && Parent(p) == d :: p[|p| - 1])
  }

  lemma ListingHas(f: Folder, d: Path, name: string)
    ensures name in Listing(f, d) <==> d + [name] in f.dirs || d + [name] in f.files
  {
    var p := d + [name];
    assert Parent(p) == d && p[|p| - 1] == name;
    forall q | (q in f.dirs || q in f.files) && q != [] && Parent(q) == d && q[|q| - 1] == name ensures q == p {
      assert q == Parent(q) + [q[|q| - 1]];
    }
  }

  /** The files a manifest declares, its own metadata among them. */
  predicate DeclaredFile(members: seq<Member>, p: Path) {
    p == [MANIFEST] || p == [RECEIPT] || exists m :: m in members && m.path == p
  }

  predicate MemberStored(codec: Codec, f: Folder, m: Member) {
    m.path in f.files && f.files[m.path].sealed && |f.files[m.path].content| == m.size
      && codec.sha(f.files[m.path].content) == m.sha
  }

  /** A complete set: exactly the declared tree, sealed, with the declared contents. */
  ghost predicate Complete(codec: Codec, f: Folder, id: string, r: Receipt) {
    && r == codec.ReceiptOf(r.manifest) && r.id == id && PathsOk(r.manifest.members) && !Unlawful(r.manifest.members)
    && (forall d :: d in f.dirs <==> IsDirectory(r.manifest.members, d)) && f.sealed == f.dirs
    && (forall p :: p in f.files <==> DeclaredFile(r.manifest.members, p))
    && (forall m :: m in r.manifest.members ==> MemberStored(codec, f, m))
    && f.files[[MANIFEST]] == File(codec.encode(r.manifest), true)
      && codec.decode(f.files[[MANIFEST]].content) == Some(r.manifest)
    && f.files[[RECEIPT]] == File(codec.receipt(r), true)
    && DocumentOk(f.files[[MANIFEST]].content) && DocumentOk(f.files[[RECEIPT]].content)
  }

  /** A set is complete for one receipt only. */
  lemma CompleteForOne(codec: Codec, f: Folder, id: string, a: Receipt, b: Receipt)
    requires Complete(codec, f, id, a) && Complete(codec, f, id, b)
    ensures a == b
  {
    hide Unlawful, IsDirectory, PathsOk, MemberStored;
  }

  // Copying

  const CHUNK := 262144

  /** copyExact: in chunks, then one probe for the end. It succeeds only for a source of exactly the declared bytes. */
  method CopyExact(codec: Codec, source: Bytes, size: nat, sha: nat, quiet: bool) returns (ok: bool, written: Bytes)
    ensures ok ==> written == source && |source| == size && codec.sha(source) == sha
    ensures quiet && |source| == size && codec.sha(source) == sha ==> ok
    ensures written <= source
  {
    written := [];
    var offset := 0;
    while offset < size
      invariant offset == |written| <= size && written <= source
    {
      var fails: bool := *;
      if fails && !quiet { return false, written; }
      var want := if CHUNK < size - offset then CHUNK else size - offset;
      var got := if offset + want <= |source| then want else |source| - offset;
      if got != want { return false, written; }
      assert written + source[offset..offset + got] == source[..offset + got];
      written := written + source[offset..offset + got];
      offset := offset + got;
    }
    var fails: bool := *;
    if fails && !quiet { return false, written; }
    if size < |source| { return false, written; }
    assert written == source;
    ok := codec.sha(written) == sha;
  }

  // Inspecting

  /** ReadDir with a bound: all names if they are not more, else as many as the bound. */
  method ReadDir(f: Folder, d: Path, bound: nat) returns (entries: set<string>)
    ensures entries <= Listing(f, d) && |entries| <= bound
    ensures |Listing(f, d)| <= bound ==> entries == Listing(f, d)
    ensures |Listing(f, d)| > bound ==> |entries| == bound
  {
    hide Listing;
    entries := {};
    var rest := Listing(f, d);
    while rest != {} && |entries| < bound
      invariant entries + rest == Listing(f, d) && entries !! rest && |entries| <= bound
      decreases |rest|
    {
      var name :| name in rest;
      entries, rest := entries + {name}, rest - {name};
    }
    assert |entries| + |rest| == |entries + rest|;
  }

  /** One entry more than declared is read: the count and membership test accepts exactly the declared names. */
  method DirectoryMatches(f: Folder, d: Path, names: map<string, bool>) returns (ok: bool)
    ensures ok <==> Listing(f, d) == names.Keys
  {
    var entries := ReadDir(f, d, |names| + 1);
    assert |names| == |names.Keys|;
    if |entries| != |names| { return false; }
    ok := forall name :: name in entries ==> name in names;
    if ok { SubsetOfSameSize(entries, names.Keys); }
  }

  /** Every declared directory is there with exactly the declared names, and every declared file is there. */
  ghost predicate Matches(f: Folder, members: seq<Member>, tree: Tree) {
    && (forall d :: d in tree ==> d in f.dirs && Listing(f, d) == tree[d].Keys)
    && (forall p :: DeclaredFile(members, p) ==> p in f.files)
  }

  /** The set is the declared tree. */
  ghost predicate IsTheTree(f: Folder, members: seq<Member>) {
    && (forall d :: d in f.dirs <==> IsDirectory(members, d))
    && (forall p :: p in f.files <==> DeclaredFile(members, p))
  }

  lemma DeclaredAsFile(members: seq<Member>, d: Path, name: string)
    ensures Declares(members, d, name, false) <==> DeclaredFile(members, d + [name])
  {
    var p := d + [name];
    assert d == [] && IsMetadata(name) <==> p == [MANIFEST] || p == [RECEIPT] by {
      assert p == [MANIFEST] || p == [RECEIPT] ==> |p| == 1 && p[0] == name;
    }
    if Reaches(members, p, false) {
      var m :| m in members && p <= m.path && |m.path| <= |p|;
      assert m.path == p;
    }
    forall m | m in members && m.path == p ensures Reaches(members, p, false) {
      assert p <= m.path;
    }
  }

  lemma DeclaredAsDirectory(members: seq<Member>, d: Path, name: string)
    ensures Declares(members, d, name, true) <==> IsDirectory(members, d + [name])
  {
  }

  lemma {:induction false} NothingElse(f: Folder, members: seq<Member>, tree: Tree, p: Path)
    requires FolderOk(f) && TreeOf(members, tree) && Matches(f, members, tree)
    ensures p in f.dirs ==> IsDirectory(members, p)
    ensures p in f.files ==> DeclaredFile(members, p)
    decreases |p|
  {
    hide DeclaredFile, Reaches, Declares, IsDirectory, Listing;
    if p == [] {
      assert IsDirectory(members, p) by { RootIsDirectory(members); }
    } else if p in f.dirs || p in f.files {
      var d, name := Parent(p), p[|p| - 1];
      assert p == d + [name];
      NothingElse(f, members, tree, d);
      assert d in tree;
      ListingHas(f, d, name);
      DeclaredAsFile(members, d, name);
      DeclaredAsDirectory(members, d, name);
      assert name in tree[d] && Declares(members, d, name, tree[d][name]);
    }
  }

  lemma RootIsDirectory(members: seq<Member>)
    ensures IsDirectory(members, [])
  {
  }

  /** Directory listings and declared files decide exactly whether the set is the declared tree. */
  lemma MatchingIsTheTree(f: Folder, members: seq<Member>, tree: Tree)
    requires FolderOk(f) && TreeOf(members, tree)
    ensures Matches(f, members, tree) <==> IsTheTree(f, members)
  {
    hide DeclaredFile, Reaches, Declares, IsDirectory, Listing, FolderOk;
    if Matches(f, members, tree) {
      forall p ensures (p in f.dirs ==> IsDirectory(members, p)) && (p in f.files ==> DeclaredFile(members, p)) {
        NothingElse(f, members, tree, p);
      }
    }
    if IsTheTree(f, members) {
      forall d | d in tree ensures Listing(f, d) == tree[d].Keys {
        forall name ensures name in Listing(f, d) <==> name in tree[d] {
          ListingHas(f, d, name);
          DeclaredAsFile(members, d, name);
          DeclaredAsDirectory(members, d, name);
          assert name in tree[d] ==> Declares(members, d, name, tree[d][name]);
        }
      }
    }
  }
}
