/** The directory tree of a cold recovery set, derived from its manifest, and the order in which it is built. */
module ColdTree {
  import opened Text

  type Path = seq<string>

  datatype Member = Member(id: string, path: Path, size: nat, sha: nat)

  /** For each directory the names in it, and whether each is a directory. */
  type Tree = map<Path, map<string, bool>>

  const MANIFEST := "manifest.json"
  const RECEIPT := "receipt.json"

  /** unicode.ToLower, as far as its result can be an ASCII letter of the metadata names. */
  function LowerChar(c: char): char {
    if 'A' <= c <= 'Z' then (c as int - 'A' as int + 'a' as int) as char else if c == '\U{0130}' then 'i' else c
  }

  function Lower(s: string): string { if s == "" then "" else [LowerChar(s[0])] + Lower(s[1..]) }

  predicate IsMetadata(name: string) { name == MANIFEST || name == RECEIPT }

  predicate Collides(m: Member)
    requires m.path != []
  {
    IsMetadata(Lower(m.path[0]))
  }

  /** Some member lies at or below a path, and whether one lies below it. */
  predicate Reaches(members: seq<Member>, p: Path, below: bool) {
    exists m :: m in members && p <= m.path && (below <==> |m.path| > |p|)
  }

  /** The manifest puts a name into a directory, as a directory or as a file. */
  predicate Declares(members: seq<Member>, d: Path, name: string, directory: bool) {
    (d == [] && IsMetadata(name) && !directory) || Reaches(members, d + [name], directory)
  }

  predicate IsDirectory(members: seq<Member>, d: Path) { d == [] || Reaches(members, d, true) }

  predicate Conflicts(members: seq<Member>, d: Path, name: string) {
    Declares(members, d, name, true) && Declares(members, d, name, false)
  }

  /** The tree of a manifest: its directories, and in each exactly the declared names. */
  ghost predicate TreeOf(members: seq<Member>, tree: Tree) {
    && (forall d :: d in tree <==> IsDirectory(members, d))
    && (forall d, name :: d in tree && name in tree[d] ==> Declares(members, d, name, tree[d][name]))
    && (forall d, name, directory ::
      Declares(members, d, name, directory) ==> d in tree && name in tree[d] && tree[d][name] == directory)
  }

  ghost predicate Unlawful(members: seq<Member>) {
    || (exists m :: m in members && m.path != [] && Collides(m))
    || (exists d: Path, name: string :: Conflicts(members, d, name))
  }

  /** What is in the tree once some members and the first parts of one more have been entered. */
  ghost predicate Entered(members: seq<Member>, p: Path, i: nat, tree: Tree)
    requires i <= |p|
  {
    && (forall d :: d in tree <==> IsDirectory(members, d) || (d <= p[..i] && |d| < |p|))
    && (forall d, name :: d in tree && name in tree[d] ==> DeclaresWith(members, p, i, d, name, tree[d][name]))
    && (forall d, name, directory ::
      DeclaresWith(members, p, i, d, name, directory) ==> d in tree && name in tree[d] && tree[d][name] == directory)
  }

  predicate DeclaresWith(members: seq<Member>, p: Path, i: nat, d: Path, name: string, directory: bool)
    requires i <= |p|
  {
    Declares(members, d, name, directory) || (d + [name] <= p[..i] && (directory <==> |p| > |d| + 1))
  }

  lemma {:induction false} ReachesMore(members: seq<Member>, m: Member, p: Path, below: bool)
    ensures Reaches(members + [m], p, below) <==>
      Reaches(members, p, below) || (p <= m.path && (below <==> |m.path| > |p|))
  {
    assert m in members + [m];
    assert forall x :: x in members ==> x in members + [m];
  }

  /** All parts of a member's path entered: the member is. */
  lemma MemberEntered(members: seq<Member>, m: Member, tree: Tree)
    requires m.path != [] && Entered(members, m.path, |m.path|, tree)
    ensures TreeOf(members + [m], tree)
  {
    hide Reaches;
    var more := members + [m];
    assert m.path[..|m.path|] == m.path;
    forall d: Path, below
      ensures Reaches(more, d, below) <==> Reaches(members, d, below) || (d <= m.path && (below <==> |m.path| > |d|)) {
      ReachesMore(members, m, d, below);
    }
    forall d: Path, name, directory
      ensures Declares(more, d, name, directory) <==> DeclaresWith(members, m.path, |m.path|, d, name, directory)
    {
    }
  }

  lemma MemberBegins(members: seq<Member>, m: Member, tree: Tree)
    requires m.path != [] && TreeOf(members, tree)
    ensures Entered(members, m.path, 0, tree)
  {
    hide Declares;
    assert m.path[..0] == [];
    assert IsDirectory(members, []);
  }

  /** One part entered below its parent. */
  function Enter(tree: Tree, parent: Path, part: string, directory: bool): Tree
    requires parent in tree
  {
    var named := tree[parent := tree[parent][part := directory]];
    if directory && parent + [part] !in named then named[parent + [part] := map[]] else named
  }

  lemma PartStep(members: seq<Member>, m: Member, i: nat, tree: Tree)
    requires i < |m.path| && Entered(members, m.path, i, tree)
    ensures m.path[..i] in tree
    ensures var parent, part, directory := m.path[..i], m.path[i], i < |m.path| - 1;
      if part in tree[parent] && tree[parent][part] != directory then Conflicts(members + [m], parent, part)
      else Entered(members, m.path, i + 1, Enter(tree, parent, part, directory))
  {
    hide IsDirectory;
    var p, parent, part, directory := m.path, m.path[..i], m.path[i], i < |m.path| - 1;
    assert parent <= p[..i] && |parent| < |p|;
    assert parent + [part] == p[..i + 1];
    if part in tree[parent] && tree[parent][part] != directory {
      assert DeclaresWith(members, p, i, parent, part, !directory);
      ReachesMore(members, m, parent + [part], true);
      ReachesMore(members, m, parent + [part], false);
    } else {
      PartEntered(members, p, i, tree);
    }
  }

  lemma PartEntered(members: seq<Member>, p: Path, i: nat, tree: Tree)
    requires i < |p| && Entered(members, p, i, tree) && p[..i] in tree
    requires p[i] in tree[p[..i]] ==> tree[p[..i]][p[i]] == (i < |p| - 1)
    ensures Entered(members, p, i + 1, Enter(tree, p[..i], p[i], i < |p| - 1))
  {
    hide IsDirectory, Declares;
    var parent, part, directory, j := p[..i], p[i], i < |p| - 1, i + 1;
    var next := Enter(tree, parent, part, directory);
    assert parent + [part] == p[..j];
    forall d ensures d in next <==> IsDirectory(members, d) || (d <= p[..j] && |d| < |p|) {
      assert d <= p[..j] <==> d <= p[..i] || d == p[..j];
    }
    forall d: Path, name, isDir: bool
      ensures DeclaresWith(members, p, j, d, name, isDir) <==>
        DeclaresWith(members, p, i, d, name, isDir) || (d == parent && name == part && isDir == directory)
    {
      OneMore(p, i, d, name);
    }
    hide DeclaresWith;
    forall d, name | d in next && name in next[d] ensures DeclaresWith(members, p, j, d, name, next[d][name]) {
      if !(d == parent && name == part) {
        assert d in tree && name in tree[d] && next[d][name] == tree[d][name];
      }
    }
    forall d: Path, name, isDir | DeclaresWith(members, p, j, d, name, isDir)
      ensures d in next && name in next[d] && next[d][name] == isDir
    {
      if d == parent && name == part {
        assert DeclaresWith(members, p, i, d, name, isDir) ==> isDir == tree[parent][part];
      } else {
        assert DeclaresWith(members, p, i, d, name, isDir);
      }
    }
  }

  lemma OneMore(p: Path, i: nat, d: Path, name: string)
    requires i < |p|
    ensures d + [name] <= p[..i + 1] <==> d + [name] <= p[..i] || (d == p[..i] && name == p[i])
  {
    assert p[..i + 1] == p[..i] + [p[i]];
    if d + [name] <= p[..i + 1] && |d| >= i {
      assert (d + [name])[..i] == d && (d + [name])[i] == name;
    }
  }

  /** The inner loop: the parts of one path, each below the one before it. */
  method EnterMember(members: seq<Member>, m: Member, tree: Tree) returns (next: Option<Tree>)
    requires m.path != [] && TreeOf(members, tree)
    ensures next.Some? ==> TreeOf(members + [m], next.value)
    ensures next.None? ==> exists d: Path, name: string :: Conflicts(members + [m], d, name)
  {
    hide TreeOf, Entered, Enter, Conflicts;
    var t := tree;
    MemberBegins(members, m, t);
    for i := 0 to |m.path|
      invariant Entered(members, m.path, i, t)
    {
      var directory := i < |m.path| - 1;
      PartStep(members, m, i, t);
      var parent, part := m.path[..i], m.path[i];
      if part in t[parent] && t[parent][part] != directory { return None; }
      t := Enter(t, parent, part, directory);
    }
    MemberEntered(members, m, t);
    return Some(t);
  }

  /** expectedTree: the tree of the manifest, unless a member collides with the metadata or two paths conflict. */
  method ExpectedTree(members: seq<Member>) returns (tree: Option<Tree>)
    requires forall m :: m in members ==> m.path != []
    ensures tree.None? <==> Unlawful(members)
    ensures tree.Some? ==> TreeOf(members, tree.value)
  {
    hide TreeOf, Unlawful, Collides, Conflicts;
    var t: Tree := map[[] := map[MANIFEST := false, RECEIPT := false]];
    assert members[..0] == [];
    MetadataTree(t);
    for k := 0 to |members|
      invariant TreeOf(members[..k], t)
      invariant forall m :: m in members[..k] ==> !Collides(m)
    {
      var m := members[k];
      assert members[..k + 1] == members[..k] + [m];
      if Collides(m) {
        CollisionIsUnlawful(members, m);
        return None;
      }
      var next := EnterMember(members[..k], m, t);
      if next.None? {
        ConflictIsUnlawful(members, k + 1);
        return None;
      }
      t := next.value;
    }
    assert members[..|members|] == members;
    TreeIsLawful(members, t);
    return Some(t);
  }

  lemma MetadataTree(t: Tree)
    requires t == map[[] := map[MANIFEST := false, RECEIPT := false]]
    ensures TreeOf([], t)
  {
  }

  lemma CollisionIsUnlawful(members: seq<Member>, m: Member)
    requires m in members && m.path != [] && Collides(m)
    ensures Unlawful(members)
  {
  }

  lemma ConflictIsUnlawful(members: seq<Member>, k: nat)
    requires k <= |members| && exists d: Path, name: string :: Conflicts(members[..k], d, name)
    ensures Unlawful(members)
  {
    var d: Path, name: string :| Conflicts(members[..k], d, name);
    forall p: Path, below | Reaches(members[..k], p, below) ensures Reaches(members, p, below) {
      var m :| m in members[..k] && p <= m.path && (below <==> |m.path| > |p|);
      assert m in members;
    }
    assert Conflicts(members, d, name);
  }

  lemma TreeIsLawful(members: seq<Member>, tree: Tree)
    requires TreeOf(members, tree) && forall m :: m in members ==> m.path == [] || !Collides(m)
    ensures !Unlawful(members)
  {
    hide Declares;
    forall d: Path, name: string ensures !Conflicts(members, d, name) {
      assert Declares(members, d, name, true) ==> d in tree && name in tree[d] && tree[d][name];
      assert Declares(members, d, name, false) ==> d in tree && name in tree[d] && !tree[d][name];
    }
  }
}
