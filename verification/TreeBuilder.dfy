/** The builder: it indexes the request, rebuilds the touched directories top
    down, numbers the nodes and hashes the result bottom up. */
module TreeBuilder {
  import opened Prefix
  import opened TreeHash
  import opened Trees
  import opened PushPaths
  import opened PushTree
  import Manifest
  import Order

  function ListAt(changed: map<string, seq<PushFile>>, dir: string): seq<PushFile> {
    if dir in changed then changed[dir] else []
  }

  function NamesAt(removed: map<string, set<string>>, dir: string): set<string> {
    if dir in removed then removed[dir] else {}
  }

  // ---- hashing ----

  function KeptChildren(keep: seq<Kept>): (cs: seq<Child>)
    ensures |cs| == |keep| && forall i :: 0 <= i < |keep| ==> cs[i] == Child(TREE_KIND, keep[i].name, keep[i].hash)
  {
    if keep == [] then [] else [Child(TREE_KIND, keep[0].name, keep[0].hash)] + KeptChildren(keep[1..])
  }

  function NodeChildren(children: seq<Node>): (cs: seq<Child>)
    ensures |cs| == |children| && forall i :: 0 <= i < |children| ==>
      cs[i] == Child(TREE_KIND, children[i].name, children[i].hash)
  {
    if children == [] then [] else [Child(TREE_KIND, children[0].name, children[0].hash)] + NodeChildren(children[1..])
  }

  /** r is n with every hash written. */
  ghost predicate Hashes(d: Digest, n: Node, r: Node) {
    && r.id == n.id && r.name == n.name && r.mode == n.mode && r.files == n.files && r.keep == n.keep
    && |r.children| == |n.children|
    && (forall i :: 0 <= i < |n.children| ==> Hashes(d, n.children[i], r.children[i]))
    && r.hash == d(TreeStream(FileChildren(r.files), KeptChildren(r.keep) + NodeChildren(r.children)))
  }

  method Finalize(d: Digest, n: Node) returns (r: Node)
    ensures Hashes(d, n, r)
    decreases n
  {
    hide TreeStream;
    var children: seq<Node> := [];
    var i := 0;
    while i < |n.children|
      invariant 0 <= i <= |n.children| && |children| == i
      invariant forall k :: 0 <= k < i ==> Hashes(d, n.children[k], children[k])
    {
      var c := Finalize(d, n.children[i]);
      children := children + [c];
      i := i + 1;
    }
    var h := HashTree(d, FileChildren(n.files), KeptChildren(n.keep) + NodeChildren(children));
    r := Node(n.id, n.name, n.mode, h, n.files, children, n.keep);
  }

  /** Hashing changes no file and no id. */
  lemma {:induction false} HashesKeepIds(d: Digest, n: Node, r: Node)
    requires Hashes(d, n, r)
    ensures AllIds(r) == AllIds(n)
    decreases n, 1
  {
    hide TreeStream;
    ChildrenKeepIds(d, n, r, |n.children|);
    assert n.children[..|n.children|] == n.children && r.children[..|n.children|] == r.children;
  }

  lemma {:induction false} ChildrenKeepIds(d: Digest, n: Node, r: Node, k: nat)
    requires k <= |n.children| == |r.children| && forall i :: 0 <= i < |n.children| ==>
      Hashes(d, n.children[i], r.children[i])
    ensures ChildIds(r.children[..k]) == ChildIds(n.children[..k])
    decreases n, 0, k
  {
    hide Hashes, AllIds;
    if k > 0 {
      ChildrenKeepIds(d, n, r, k - 1);
      HashesKeepIds(d, n.children[k - 1], r.children[k - 1]);
      assert n.children[..k] == n.children[..k - 1] + [n.children[k - 1]];
      assert r.children[..k] == r.children[..k - 1] + [r.children[k - 1]];
      ChildIdsAppend(n.children[..k - 1], n.children[k - 1]);
      ChildIdsAppend(r.children[..k - 1], r.children[k - 1]);
    }
  }

  /** The same tree but for the directory hashes. */
  ghost predicate SameShape(t: Tree, u: Tree) {
    && t.files == u.files && |t.dirs| == |u.dirs|
    && (forall i :: 0 <= i < |t.dirs| ==> t.dirs[i].name == u.dirs[i].name && SameShape(t.dirs[i].tree, u.dirs[i].tree))
  }

  lemma {:induction false} ShapeRefl(t: Tree)
    ensures SameShape(t, t)
  {
    forall i | 0 <= i < |t.dirs| ensures SameShape(t.dirs[i].tree, t.dirs[i].tree) {
      ShapeRefl(t.dirs[i].tree);
    }
  }

  lemma {:induction false} ShapeFlip(t: Tree, u: Tree)
    requires SameShape(t, u)
    ensures SameShape(u, t)
  {
    forall i | 0 <= i < |t.dirs| ensures SameShape(u.dirs[i].tree, t.dirs[i].tree) {
      ShapeFlip(t.dirs[i].tree, u.dirs[i].tree);
    }
  }

  lemma {:induction false} ShapeHolds(t: Tree, u: Tree, q: string, f: File)
    requires SameShape(t, u) && Holds(t, q, f)
    ensures Holds(u, q, f)
    decreases t
  {
    if !(f in t.files && f.name == q) {
      var s :| s in t.dirs && Inside(s.name, q) && Holds(s.tree, Below(s.name, q), f);
      var i :| 0 <= i < |t.dirs| && t.dirs[i] == s;
      ShapeHolds(s.tree, u.dirs[i].tree, Below(s.name, q), f);
      assert u.dirs[i] in u.dirs;
    }
  }

  lemma {:induction false} ShapeFormed(t: Tree, u: Tree)
    requires SameShape(t, u) && WellFormed(t)
    ensures WellFormed(u)
  {
    hide GoodName;
    forall s | s in u.dirs ensures GoodName(s.name) && WellFormed(s.tree) {
      var i :| 0 <= i < |u.dirs| && u.dirs[i] == s;
      assert t.dirs[i] in t.dirs;
      ShapeFormed(t.dirs[i].tree, s.tree);
    }
  }

  lemma {:induction false} HashesShape(d: Digest, n: Node, r: Node, base: MaybeTree)
    requires Hashes(d, n, r)
    ensures SameShape(Expand(n, base), Expand(r, base))
    decreases n
  {
    hide TreeStream;
    var t, u := Expand(n, base), Expand(r, base);
    forall i | 0 <= i < |t.dirs| ensures t.dirs[i].name == u.dirs[i].name && SameShape(t.dirs[i].tree, u.dirs[i].tree) {
      if i < |n.keep| {
        assert t.dirs[i] == u.dirs[i];
        ShapeRefl(t.dirs[i].tree);
      } else {
        var j := i - |n.keep|;
        HashesName(d, n.children[j], r.children[j]);
        HashesShape(d, n.children[j], r.children[j], SubDir(base, n.children[j].name));
        assert t.dirs[i] == ChildSubs(n.children, base)[j] && u.dirs[i] == ChildSubs(r.children, base)[j];
      }
    }
  }

  lemma HashesName(d: Digest, n: Node, r: Node)
    requires Hashes(d, n, r)
    ensures r.name == n.name
  {
  }

  lemma DirChildrenConcat(a: seq<Sub>, b: seq<Sub>)
    ensures DirChildren(a + b) == DirChildren(a) + DirChildren(b)
  {
  }

  /** The hash written is the digest of the expanded directory. */
  lemma ExpandedHash(d: Digest, n: Node, r: Node, base: MaybeTree)
    requires Hashes(d, n, r) && KeptFrom(r, base)
    ensures r.hash == d(Serialised(Expand(r, base)))
  {
    hide TreeStream, Expand;
    ExpandDirs(r, base);
    DirChildrenConcat(KeptSubs(r.keep, base), ChildSubs(r.children, base));
    forall i | 0 <= i < |r.keep| ensures DirChildren(KeptSubs(r.keep, base))[i] == KeptChildren(r.keep)[i] {
      assert r.keep[i] in r.keep;
    }
    assert DirChildren(KeptSubs(r.keep, base)) == KeptChildren(r.keep);
    ChildHashes(r.children, base);
  }

  lemma ChildHashes(children: seq<Node>, base: MaybeTree)
    ensures DirChildren(ChildSubs(children, base)) == NodeChildren(children)
  {
    hide Expand;
    forall i | 0 <= i < |children| ensures DirChildren(ChildSubs(children, base))[i] == NodeChildren(children)[i] {
      ExpandDirs(children[i], SubDir(base, children[i].name));
    }
  }

  lemma {:induction false} KeptFromHashes(d: Digest, n: Node, r: Node, base: MaybeTree)
    requires Hashes(d, n, r) && KeptFrom(n, base)
    ensures KeptFrom(r, base)
    decreases n
  {
    hide Hashes;
    HashesParts(d, n, r);
    forall c | c in r.children ensures KeptFrom(c, SubDir(base, c.name)) {
      var i :| 0 <= i < |r.children| && r.children[i] == c;
      HashesAt(d, n, r, i);
      KeptFromAt(n, base, i);
      HashesName(d, n.children[i], c);
      KeptFromHashes(d, n.children[i], c, SubDir(base, c.name));
    }
  }

  /** A finalized node over a well-hashed base is well hashed. */
  lemma {:induction false} Finalized(d: Digest, n: Node, r: Node, base: MaybeTree)
    requires Hashes(d, n, r) && KeptFrom(r, base) && (base.Present? ==> WellHashed(d, base.tree))
    requires Manifest.FilesHashed(d, Expand(r, base))
    ensures WellHashed(d, Expand(r, base))
    decreases n
  {
    hide Hashes, Serialised, Manifest.FilesHashed, Expand, KeptFrom;
    ExpandedHash(d, n, r, base);
    ExpandDirs(r, base);
    var t := Expand(r, base);
    FilesOfDir(d, t);
    forall s | s in t.dirs ensures WellHashed(d, s.tree) {
      Manifest.FilesHashedBelow(d, t, s);
      var i :| 0 <= i < |t.dirs| && t.dirs[i] == s;
      if i < |r.keep| {
        KeptHashed(d, r, base, i);
      } else {
        var j := i - |r.keep|;
        HashesAt(d, n, r, j);
        KeptFromAt(r, base, j);
        assert s == ChildSubs(r.children, base)[j];
        SubHashed(d, base, r.children[j].name);
        Finalized(d, n.children[j], r.children[j], SubDir(base, r.children[j].name));
      }
    }
  }

  lemma KeptHashed(d: Digest, r: Node, base: MaybeTree, i: nat)
    requires KeptFrom(r, base) && i < |r.keep| && (base.Present? ==> WellHashed(d, base.tree))
    ensures WellHashed(d, KeptSubs(r.keep, base)[i].tree)
  {
    hide Serialised;
    assert r.keep[i] in r.keep;
    SubHashed(d, base, r.keep[i].name);
  }

  lemma SubHashed(d: Digest, base: MaybeTree, name: string)
    requires base.Present? ==> WellHashed(d, base.tree)
    ensures SubDir(base, name).Present? ==> WellHashed(d, SubDir(base, name).tree)
  {
    hide Serialised;
  }

  lemma KeptFromAt(r: Node, base: MaybeTree, j: nat)
    requires KeptFrom(r, base) && j < |r.children|
    ensures KeptFrom(r.children[j], SubDir(base, r.children[j].name))
  {
    assert r.children[j] in r.children;
  }

  lemma HashesParts(d: Digest, n: Node, r: Node)
    requires Hashes(d, n, r)
    ensures r.keep == n.keep && r.files == n.files && |r.children| == |n.children|
  {
  }

  lemma HashesAt(d: Digest, n: Node, r: Node, j: nat)
    requires Hashes(d, n, r) && j < |r.children|
    ensures j < |n.children| && Hashes(d, n.children[j], r.children[j])
  {
  }

  lemma FilesOfDir(d: Digest, t: Tree)
    requires Manifest.FilesHashed(d, t)
    ensures forall f :: f in t.files ==> f.hash == FileHash(d, f.chunks)
  {
    forall f | f in t.files ensures f.hash == FileHash(d, f.chunks) {
      assert Holds(t, f.name, f);
    }
  }

  // ---- building ----

  class Builder {
    ghost const rq: Request
    const changed: map<string, seq<PushFile>>
    const removed: map<string, set<string>>
    const rebuildDirs: set<string>
    var nextID: int

    /** The indexes describe the request. */
    ghost predicate Valid() {
      && (forall dir :: ListAt(changed, dir) == InDir(rq.files, dir))
      && (forall dir, n :: n in NamesAt(removed, dir) <==> RemovedAt(rq.removed, dir, n))
      && Recorded(rq, rebuildDirs)
      && (forall pf :: pf in rq.files ==> GoodName(BaseOf(pf.path)))
      && (forall x :: x in rebuildDirs ==> |x| < 0x1_0000_0000)
    }

    constructor (ghost rq: Request, changed: map<string, seq<PushFile>>, removed: map<string, set<string>>,
                 rebuildDirs: set<string>)
      ensures this.rq == rq && this.changed == changed && this.removed == removed && this.rebuildDirs == rebuildDirs
      ensures nextID == 0
    {
      this.rq, this.changed, this.removed, this.rebuildDirs, this.nextID := rq, changed, removed, rebuildDirs, 0;
    }

    method Alloc() returns (id: NodeId)
      modifies this`nextID
      ensures nextID == old(nextID) + 1 && id == NodeId(nextID)
    {
      nextID := nextID + 1;
      id := NodeId(nextID);
    }

    /** The files of a rebuilt directory, by name. */
    method BuildFiles(dir: string, base: MaybeTree) returns (files: seq<File>)
      requires Valid() && WellFormedSide(base)
      ensures FilesOverlaid(rq, base, dir, files) && Order.StrictBy(files, NameOf)
    {
      hide Order.Less, LastAt, RemovedAt, DirOf, BaseOf, LastSlash, FileOf, Recorded, Merged, GoodName;
      var baseFiles := if base.Present? then base.tree.files else [];
      var list := ListAt(changed, dir);
      InDirOnly(rq.files, dir);
      var byName := FilePushed(list, dir);
      byName := FileOld(list, dir, NamesAt(removed, dir), baseFiles, byName);
      MergedNames(list, dir, NamesAt(removed, dir), baseFiles, byName);
      files := InNameOrder(byName);
      MergedOverlaid(rq, base, dir, NamesAt(removed, dir), baseFiles, byName, files);
    }

    /** The directories of the base that are not rebuilt. */
    method KeepDirs(dir: string, base: MaybeTree) returns (keep: seq<Kept>)
      requires WellFormedSide(base)
      modifies this`nextID
      ensures KeptCorrect(rebuildDirs, base, dir, keep) && forall k :: k in keep ==> k.mode == DIR_MODE
      ensures Numbered(KeptIds(keep), old(nextID), nextID)
    {
      hide Numbered, WellFormed, Join, KeptSoFar, KeptCorrect, KeptIds;
      keep := [];
      NumberedNone(nextID);
      NothingKept(rebuildDirs, base, dir);
      if base.Missing? {
        return;
      }
      var ds := base.tree.dirs;
      var i := 0;
      while i < |ds|
        invariant 0 <= i <= |ds|
        invariant Numbered(KeptIds(keep), old(nextID), nextID)
        invariant KeptSoFar(rebuildDirs, base, dir, ds[..i], keep) && forall k :: k in keep ==> k.mode == DIR_MODE
      {
        var c := ds[i];
        KeepStep(rebuildDirs, base, dir, i, keep, NodeId(nextID + 1));
        if Join(dir, c.name) !in rebuildDirs {
          ghost var lo := nextID;
          var id := Alloc();
          NumberedOne(lo);
          NumberedConcat(KeptIds(keep), [id], old(nextID), lo, nextID);
          KeptIdsAppend(keep, Kept(id, c.name, DIR_MODE, c.tree.hash));
          keep := keep + [Kept(id, c.name, DIR_MODE, c.tree.hash)];
        }
        i := i + 1;
      }
      assert ds[..i] == ds;
      AllKept(rebuildDirs, base, dir, keep);
    }

    /** Rebuilds the recorded directories right below `dir`. */
    method BuildChildren(dir: string, base: MaybeTree, names: seq<string>, ghost limit: nat)
      returns (children: seq<Node>)
      requires Valid() && WellFormedSide(base) && |dir| <= limit
      requires forall x :: x in names ==> Immediate(rebuildDirs, dir, x)
      requires forall x :: x in rebuildDirs ==> |x| <= limit
      modifies this`nextID
      ensures ChildrenBuilt(rq, rebuildDirs, base, dir, names, children)
      ensures Numbered(ChildIds(children), old(nextID), nextID)
      decreases limit - |dir|, 0
    {
      hide Valid, Numbered, Correct, Built, WellFormed, LastSlash, Recorded, KeptFrom, Join, AllIds, Order.StrictBy;
      children := [];
      NumberedNone(nextID);
      var i := 0;
      while i < |names|
        invariant 0 <= i <= |names|
        invariant ChildrenBuilt(rq, rebuildDirs, base, dir, names[..i], children)
        invariant Numbered(ChildIds(children), old(nextID), nextID)
      {
        var name := names[i];
        assert name in names;
        NextDir(dir, name);
        ChildWellFormed(base, name);
        var childBase := Lookup(base, name);
        ghost var mid := nextID;
        var child := Build(Join(dir, name), childBase, limit);
        ChildIdsAppend(children, child);
        NumberedConcat(ChildIds(children), AllIds(child), old(nextID), mid, nextID);
        ChildrenMore(rq, rebuildDirs, base, dir, names, i, children, child);
        children := children + [child];
        i := i + 1;
      }
      assert names[..i] == names;
    }

    /** Rebuilds one directory on top of the base's directory of that path. The
        children come in the order of their names. */
    method Build(dir: string, base: MaybeTree, ghost limit: nat) returns (n: Node)
      requires Valid() && WellFormedSide(base) && dir in rebuildDirs
      requires forall x :: x in rebuildDirs ==> |x| <= limit
      modifies this`nextID
      ensures n.name == NodeName(dir)
      ensures Built(rq, rebuildDirs, n, base, dir)
      ensures Correct(rq, n, base, dir) && KeptFrom(n, base)
      ensures Numbered(AllIds(n), old(nextID), nextID)
      ensures Order.StrictBy(n.files, NameOf)
      decreases limit - |dir|, 1
    {
      hide Order.Sorted, Numbered, Correct, Built, FilesOverlaid, KeptCorrect, WellFormed, LastSlash, Recorded,
           GoodName, Order.StrictBy, KeptFrom, Join, ChildrenBuilt, Immediate;
      ghost var lo := nextID;
      var id := Alloc();
      NumberedOne(lo);
      ghost var first := nextID;
      var files := BuildFiles(dir, base);
      var names := ImmediateSubdirs(rebuildDirs, dir);
      var children := BuildChildren(dir, base, names, limit);
      ghost var mid := nextID;
      var keep := KeepDirs(dir, base);
      n := Node(id, NodeName(dir), DIR_MODE, ZERO, files, children, keep);
      NumberedConcat([id], ChildIds(children), lo, first, mid);
      NumberedConcat([id] + ChildIds(children), KeptIds(keep), lo, mid, nextID);
      NodeBuilt(rq, rebuildDirs, n, base, dir, names);
      BuiltCorrect(rq, rebuildDirs, n, base, dir);
    }
  }

  lemma MergedNames(list: seq<PushFile>, dir: string, gone: set<string>, base: seq<File>, m: map<string, File>)
    requires Merged(list, dir, gone, base, m)
    ensures forall n :: n in m ==> m[n].name == n
  {
  }

  lemma NumberedNone(lo: int)
    ensures Numbered([], lo, lo)
  {
  }

  ghost predicate DirNamed(ds: seq<Sub>, x: string) {
    exists s :: s in ds && s.name == x
  }

  ghost predicate KeptSoFar(rebuild: set<string>, base: MaybeTree, dir: string, ds: seq<Sub>, keep: seq<Kept>) {
    && (forall i, j :: 0 <= i < j < |keep| ==> keep[i].name != keep[j].name)
    && (forall k :: k in keep ==> KeptRight(rebuild, base, dir, k) && DirNamed(ds, k.name))
    && (forall s :: s in ds && Join(dir, s.name) !in rebuild ==> KeptNamed(keep, s.name))
  }

  lemma NothingKept(rebuild: set<string>, base: MaybeTree, dir: string)
    ensures KeptIds([]) == []
    ensures base.Missing? ==> KeptCorrect(rebuild, base, dir, [])
    ensures base.Present? ==> KeptSoFar(rebuild, base, dir, base.tree.dirs[..0], [])
  {
  }

  lemma AllKept(rebuild: set<string>, base: MaybeTree, dir: string, keep: seq<Kept>)
    requires base.Present? && KeptSoFar(rebuild, base, dir, base.tree.dirs, keep)
    ensures KeptCorrect(rebuild, base, dir, keep)
  {
  }

  lemma DirNamedMore(ds: seq<Sub>, i: nat, x: string)
    requires i < |ds|
    ensures DirNamed(ds[..i + 1], x) <==> DirNamed(ds[..i], x) || ds[i].name == x
  {
    assert ds[..i + 1] == ds[..i] + [ds[i]];
    assert ds[i] in ds[..i + 1];
    if DirNamed(ds[..i], x) {
      var s :| s in ds[..i] && s.name == x;
      assert s in ds[..i + 1];
    }
  }

  lemma KeptNamedMore(keep: seq<Kept>, k: Kept, x: string)
    ensures KeptNamed(keep + [k], x) <==> KeptNamed(keep, x) || k.name == x
  {
    assert k in keep + [k];
    if KeptNamed(keep, x) {
      var o :| o in keep && o.name == x;
      assert o in keep + [k];
    }
  }

  /** Names come once, so the next directory's name is new. */
  lemma NewName(ds: seq<Sub>, i: nat)
    requires UniqueDirs(ds) && i < |ds|
    ensures !DirNamed(ds[..i], ds[i].name)
  {
    forall s | s in ds[..i] ensures s.name != ds[i].name {
      var j :| 0 <= j < i && ds[..i][j] == s;
      assert ds[j] == s;
    }
  }

  lemma SkipOne(rebuild: set<string>, base: MaybeTree, dir: string, ds: seq<Sub>, i: nat, keep: seq<Kept>)
    requires i < |ds| && KeptSoFar(rebuild, base, dir, ds[..i], keep) && Join(dir, ds[i].name) in rebuild
    ensures KeptSoFar(rebuild, base, dir, ds[..i + 1], keep)
  {
    hide Join, KeptRight, DirNamed, KeptNamed;
    forall k | k in keep ensures DirNamed(ds[..i + 1], k.name) {
      DirNamedMore(ds, i, k.name);
    }
    assert ds[..i + 1] == ds[..i] + [ds[i]];
  }

  lemma KeepOne(rebuild: set<string>, base: MaybeTree, dir: string, ds: seq<Sub>, i: nat, keep: seq<Kept>, k: Kept)
    requires i < |ds| && UniqueDirs(ds) && KeptSoFar(rebuild, base, dir, ds[..i], keep)
    requires k.name == ds[i].name && KeptRight(rebuild, base, dir, k)
    ensures KeptSoFar(rebuild, base, dir, ds[..i + 1], keep + [k])
  {
    hide Join, KeptRight, DirNamed, KeptNamed, UniqueDirs;
    NewName(ds, i);
    var grown := keep + [k];
    forall o | o in grown ensures KeptRight(rebuild, base, dir, o) && DirNamed(ds[..i + 1], o.name) {
      DirNamedMore(ds, i, o.name);
    }
    assert ds[..i + 1] == ds[..i] + [ds[i]];
    forall s | s in ds[..i + 1] && Join(dir, s.name) !in rebuild ensures KeptNamed(grown, s.name) {
      KeptNamedMore(keep, k, s.name);
    }
    forall x, y | 0 <= x < y < |grown| ensures grown[x].name != grown[y].name {
      assert grown[x] == keep[x] && keep[x] in keep;
    }
  }

  lemma KeepStep(rebuild: set<string>, base: MaybeTree, dir: string, i: nat, keep: seq<Kept>, id: NodeId)
    requires WellFormedSide(base) && base.Present? && i < |base.tree.dirs|
    requires KeptSoFar(rebuild, base, dir, base.tree.dirs[..i], keep)
    ensures var c := base.tree.dirs[i];
      KeptSoFar(rebuild, base, dir, base.tree.dirs[..i + 1],
        if Join(dir, c.name) !in rebuild then keep + [Kept(id, c.name, DIR_MODE, c.tree.hash)] else keep)
  {
    hide Join, KeptSoFar;
    var ds := base.tree.dirs;
    var c := ds[i];
    if Join(dir, c.name) in rebuild {
      SkipOne(rebuild, base, dir, ds, i, keep);
    } else {
      ChildIs(base, c);
      KeepOne(rebuild, base, dir, ds, i, keep, Kept(id, c.name, DIR_MODE, c.tree.hash));
    }
  }

  lemma NextDir(dir: string, name: string)
    requires name != "" && '/' !in name
    ensures |dir| < |Join(dir, name)| && NodeName(Join(dir, name)) == name
  {
    FiledHere(dir, name);
  }

  /** One built child for each name. */
  ghost predicate ChildrenBuilt(rq: Request, rebuild: set<string>, base: MaybeTree, dir: string,
                                names: seq<string>, children: seq<Node>) {
    && |children| == |names|
    && (forall i :: 0 <= i < |names| ==>
          children[i].name == names[i] && Built(rq, rebuild, children[i], SubDir(base, names[i]), Join(dir, names[i])))
  }

  lemma ChildrenMore(rq: Request, rebuild: set<string>, base: MaybeTree, dir: string,
                     names: seq<string>, i: nat, children: seq<Node>, child: Node)
    requires i < |names| && ChildrenBuilt(rq, rebuild, base, dir, names[..i], children)
    requires child.name == names[i] && Built(rq, rebuild, child, SubDir(base, names[i]), Join(dir, names[i]))
    ensures ChildrenBuilt(rq, rebuild, base, dir, names[..i + 1], children + [child])
  {
    hide Built;
    assert forall k :: 0 <= k < i ==> names[..i][k] == names[..i + 1][k];
  }

  lemma NodeBuilt(rq: Request, rebuild: set<string>, n: Node, base: MaybeTree, dir: string, names: seq<string>)
    requires n.name == NodeName(dir) && n.mode == DIR_MODE && forall k :: k in n.keep ==> k.mode == DIR_MODE
    requires FilesOverlaid(rq, base, dir, n.files) && KeptCorrect(rebuild, base, dir, n.keep)
    requires Order.Sorted(names) && forall x :: x in names <==> Immediate(rebuild, dir, x)
    requires ChildrenBuilt(rq, rebuild, base, dir, names, n.children)
    ensures Built(rq, rebuild, n, base, dir)
  {
    hide FilesOverlaid, KeptCorrect, Order.Sorted, Immediate;
    assert ChildNames(n.children) == names;
    forall c | c in n.children ensures Built(rq, rebuild, c, SubDir(base, c.name), Join(dir, c.name)) {
      var i :| 0 <= i < |n.children| && n.children[i] == c;
    }
  }
}
