/** Stored directory trees as content-addressed values, and what they mean: a
    map from relative paths to files. */
module Trees {
  import opened TreeHash
  import opened Prefix

  datatype File = File(name: string, mode: int, size: int, isBinary: bool, encoding: string, hash: Hash,
                       chunks: seq<Hash>)

  datatype Tree = Tree(hash: Hash, files: seq<File>, dirs: seq<Sub>)

  datatype Sub = Sub(name: string, tree: Tree)

  // ---- names and paths ----

  predicate GoodName(n: string) {
    n != "" && '/' !in n && |n| < 0x1_0000_0000
  }

  function Join(path: string, q: string): string {
    if path == "" then q else path + "/" + q
  }

  /** How the walks extend a path. */
  function JoinTreePath(parent: string, name: string): string {
    var n := Trim(name);
    if parent == "" then n else if n == "" then parent else parent + "/" + n
  }

  lemma JoinTreePathIsJoin(parent: string, name: string)
    requires GoodName(name)
    ensures JoinTreePath(parent, name) == Join(parent, name)
  {
    TrimClean(name);
  }

  /** The directories on the way: a path is empty or has no slash at its ends. */
  predicate GoodPath(p: string) {
    p == "" || Clean(p)
  }

  lemma JoinClean(path: string, q: string)
    requires GoodPath(path) && Clean(q)
    ensures Clean(Join(path, q)) && (path != "" ==> Inside(path, Join(path, q)))
  {
    if path != "" {
      assert Join(path, q) == (path + "/") + q;
    }
  }

  lemma JoinJoin(path: string, name: string, q: string)
    requires name != ""
    ensures Join(Join(path, name), q) == Join(path, name + "/" + q)
  {
    if path != "" {
      assert Join(path, name) + "/" + q == path + "/" + (name + "/" + q);
    }
  }

  lemma JoinInjective(path: string, q: string, r: string)
    requires Join(path, q) == Join(path, r)
    ensures q == r
  {
    if path != "" {
      assert Join(path, q)[|path| + 1..] == q && Join(path, r)[|path| + 1..] == r;
    }
  }

  // ---- well-formed trees ----

  ghost predicate UniqueFiles(fs: seq<File>) {
    forall i, j :: 0 <= i < j < |fs| ==> fs[i].name != fs[j].name
  }

  ghost predicate UniqueDirs(ds: seq<Sub>) {
    forall i, j :: 0 <= i < j < |ds| ==> ds[i].name != ds[j].name
  }

  ghost predicate WellFormed(t: Tree) {
    && UniqueFiles(t.files) && UniqueDirs(t.dirs)
    && (forall f :: f in t.files ==> GoodName(f.name))
    && (forall s :: s in t.dirs ==> GoodName(s.name) && WellFormed(s.tree))
  }

  // ---- the meaning of a tree ----

  /** The path below the directory `name`. */
  function Below(name: string, q: string): string
    requires Inside(name, q)
  {
    q[|name| + 1..]
  }

  lemma BelowJoins(name: string, q: string)
    requires Inside(name, q)
    ensures q == name + "/" + Below(name, q)
  {
    assert q[..|name| + 1] == name + "/";
  }

  /** The tree has file f at the relative path q. */
  ghost predicate Holds(t: Tree, q: string, f: File) {
    || (f in t.files && f.name == q)
    || (exists s :: s in t.dirs && Inside(s.name, q) && Holds(s.tree, Below(s.name, q), f))
  }

  lemma SlashAfter(name: string, q: string)
    requires Inside(name, q)
    ensures |name| < |q| && q[|name|] == '/' && '/' in q && q[..|name|] == name
  {
    assert q[..|name| + 1] == name + "/";
    assert q[|name|] == (name + "/")[|name|];
    assert q[..|name|] == (name + "/")[..|name|];
  }

  lemma NoShorter(a: string, b: string, q: string)
    requires '/' !in b && Inside(a, q) && Inside(b, q)
    ensures |b| <= |a|
  {
    SlashAfter(a, q);
    SlashAfter(b, q);
    assert forall i :: 0 <= i < |b| ==> b[i] in b && b[i] == q[i];
  }

  /** Directories are told apart by the first segment. */
  lemma SameFirstSegment(a: string, b: string, q: string)
    requires '/' !in a && '/' !in b && Inside(a, q) && Inside(b, q)
    ensures a == b
  {
    NoShorter(a, b, q);
    NoShorter(b, a, q);
    SlashAfter(a, q);
    SlashAfter(b, q);
  }

  /** The first segment of a path with a slash. */
  function Head(q: string): (n: string)
    requires '/' in q
    ensures Inside(n, q) && '/' !in n
  {
    if q[0] == '/' then "" else
      HeadGrows(q, Head(q[1..]));
      [q[0]] + Head(q[1..])
  }

  lemma HeadGrows(q: string, n: string)
    requires q != "" && Inside(n, q[1..])
    ensures Inside([q[0]] + n, q)
  {
    assert q == [q[0]] + q[1..];
    assert [q[0]] + n + "/" == [q[0]] + (n + "/");
  }

  lemma HeadIs(n: string, q: string)
    requires '/' !in n && Inside(n, q)
    ensures '/' in q && Head(q) == n
  {
    SlashAfter(n, q);
    SameFirstSegment(n, Head(q), q);
  }

  lemma SubByName(ds: seq<Sub>, s: Sub, r: Sub)
    requires UniqueDirs(ds) && s in ds && r in ds && s.name == r.name
    ensures s == r
  {
  }

  lemma FileByName(fs: seq<File>, f: File, g: File)
    requires UniqueFiles(fs) && f in fs && g in fs && f.name == g.name
    ensures f == g
  {
  }

  /** A path leads to at most one file. */
  lemma {:induction false} HoldsUnique(t: Tree, q: string, f: File, g: File)
    requires WellFormed(t) && Holds(t, q, f) && Holds(t, q, g)
    ensures f == g
    decreases t
  {
    if '/' !in q {
      forall s | s in t.dirs ensures !Inside(s.name, q) {
        if Inside(s.name, q) { SlashAfter(s.name, q); }
      }
      FileByName(t.files, f, g);
    } else {
      assert !(f in t.files && f.name == q) && !(g in t.files && g.name == q);
      var s :| s in t.dirs && Inside(s.name, q) && Holds(s.tree, Below(s.name, q), f);
      var r :| r in t.dirs && Inside(r.name, q) && Holds(r.tree, Below(r.name, q), g);
      SameFirstSegment(s.name, r.name, q);
      SubByName(t.dirs, s, r);
      HoldsUnique(s.tree, Below(s.name, q), f, g);
    }
  }

  lemma {:induction false} HoldsClean(t: Tree, q: string, f: File)
    requires WellFormed(t) && Holds(t, q, f)
    ensures Clean(q)
    decreases t
  {
    if f in t.files && f.name == q {
    } else {
      var s :| s in t.dirs && Inside(s.name, q) && Holds(s.tree, Below(s.name, q), f);
      HoldsClean(s.tree, Below(s.name, q), f);
      BelowJoins(s.name, q);
    }
  }

  lemma HoldsThrough(t: Tree, s: Sub, q: string, f: File)
    requires s in t.dirs && Holds(s.tree, q, f)
    ensures Holds(t, s.name + "/" + q, f)
  {
    var p := s.name + "/" + q;
    assert Inside(s.name, p) && Below(s.name, p) == q;
  }

  lemma NamesGood(t: Tree, s: Sub)
    requires WellFormed(t) && s in t.dirs
    ensures GoodName(s.name) && s.name != "" && Clean(s.name) && WellFormed(s.tree)
  {
  }

  // ---- directories by name ----

  /** A directory that may be missing on one side. */
  datatype MaybeTree = Missing | Present(tree: Tree)

  ghost predicate WellFormedSide(o: MaybeTree) {
    o.Present? ==> WellFormed(o.tree)
  }

  ghost predicate HoldsIn(o: MaybeTree, q: string, f: File) {
    o.Present? && Holds(o.tree, q, f)
  }

  /** The sub-directory of that name. */
  ghost function SubDir(o: MaybeTree, n: string): (c: MaybeTree)
    ensures c.Present? ==> o.Present? && Sub(n, c.tree) in o.tree.dirs
    ensures c.Missing? && o.Present? ==> forall s :: s in o.tree.dirs ==> s.name != n
  {
    if o.Present? && exists s :: s in o.tree.dirs && s.name == n
    then var s :| s in o.tree.dirs && s.name == n; Present(s.tree)
    else Missing
  }

  lemma ChildIs(o: MaybeTree, s: Sub)
    requires WellFormedSide(o) && o.Present? && s in o.tree.dirs
    ensures SubDir(o, s.name) == Present(s.tree) && WellFormedSide(SubDir(o, s.name))
  {
    hide GoodName;
    SubByName(o.tree.dirs, s, Sub(s.name, SubDir(o, s.name).tree));
  }

  lemma ChildWellFormed(o: MaybeTree, n: string)
    requires WellFormedSide(o)
    ensures WellFormedSide(SubDir(o, n))
  {
  }

  lemma HoldsInChild(o: MaybeTree, q: string, f: File)
    requires WellFormedSide(o) && '/' in q
    ensures HoldsIn(o, q, f) <==> HoldsIn(SubDir(o, Head(q)), Below(Head(q), q), f)
  {
    hide WellFormed;
    if HoldsIn(o, q, f) {
      NoFileWithSlash(o.tree, q);
      var s :| s in o.tree.dirs && Inside(s.name, q) && Holds(s.tree, Below(s.name, q), f);
      NamesGood(o.tree, s);
      HeadIs(s.name, q);
      ChildIs(o, s);
    }
    if HoldsIn(SubDir(o, Head(q)), Below(Head(q), q), f) {
      HoldsThrough(o.tree, Sub(Head(q), SubDir(o, Head(q)).tree), Below(Head(q), q), f);
      BelowJoins(Head(q), q);
    }
  }

  lemma NoFileWithSlash(t: Tree, q: string)
    requires WellFormed(t) && '/' in q
    ensures forall f :: f in t.files ==> f.name != q
  {
  }

  lemma HoldsFile(o: MaybeTree, q: string, f: File)
    requires '/' !in q
    ensures HoldsIn(o, q, f) <==> o.Present? && f in o.tree.files && f.name == q
  {
    if o.Present? {
      forall s | s in o.tree.dirs && Inside(s.name, q) ensures false {
        SlashAfter(s.name, q);
      }
    }
  }

  /** Finds the sub-directory of that name. */
  method Lookup(base: MaybeTree, name: string) returns (c: MaybeTree)
    requires WellFormedSide(base)
    ensures c == SubDir(base, name)
  {
    if base.Missing? {
      return Missing;
    }
    var i := 0;
    while i < |base.tree.dirs|
      invariant 0 <= i <= |base.tree.dirs|
      invariant forall k :: 0 <= k < i ==> base.tree.dirs[k].name != name
    {
      if base.tree.dirs[i].name == name {
        ChildIs(base, base.tree.dirs[i]);
        return Present(base.tree.dirs[i].tree);
      }
      i := i + 1;
    }
    return Missing;
  }

  /** A path below the root without empty segments. */
  predicate GoodRel(q: string)
    decreases |q|
  {
    if '/' !in q then q != "" else Head(q) != "" && GoodRel(Below(Head(q), q))
  }

  // ---- stored hashes ----

  function FileChildren(fs: seq<File>): (cs: seq<Child>)
    ensures |cs| == |fs| && forall i :: 0 <= i < |fs| ==> cs[i] == Child(FILE_KIND, fs[i].name, fs[i].hash)
  {
    if fs == [] then [] else [Child(FILE_KIND, fs[0].name, fs[0].hash)] + FileChildren(fs[1..])
  }

  function DirChildren(ds: seq<Sub>): (cs: seq<Child>)
    ensures |cs| == |ds| && forall i :: 0 <= i < |ds| ==> cs[i] == Child(TREE_KIND, ds[i].name, ds[i].tree.hash)
  {
    if ds == [] then [] else [Child(TREE_KIND, ds[0].name, ds[0].tree.hash)] + DirChildren(ds[1..])
  }

  function Serialised(t: Tree): Bytes {
    TreeStream(FileChildren(t.files), DirChildren(t.dirs))
  }

  /** Every stored hash is the digest of what is stored under it. */
  ghost predicate WellHashed(d: Digest, t: Tree) {
    && t.hash == d(Serialised(t))
    && (forall f :: f in t.files ==> f.hash == FileHash(d, f.chunks))
    && (forall s :: s in t.dirs ==> WellHashed(d, s.tree))
  }

  /** The byte streams hashed for a tree. */
  ghost predicate Hashed(t: Tree, b: Bytes) {
    || b == Serialised(t)
    || (exists f :: f in t.files && b == Concat(f.chunks))
    || (exists s :: s in t.dirs && Hashed(s.tree, b))
  }

  /** The digest tells the streams of two trees apart. */
  ghost predicate NoCollision(d: Digest, t: Tree, u: Tree) {
    forall x, y :: (Hashed(t, x) || Hashed(u, x)) && (Hashed(t, y) || Hashed(u, y)) && d(x) == d(y) ==> x == y
  }

  /** Same name, hash and chunks; mode, size and flags may differ. */
  predicate SameContent(f: File, g: File) {
    f.name == g.name && f.hash == g.hash && f.chunks == g.chunks
  }

  lemma FileMatch(d: Digest, t: Tree, u: Tree, f: File) returns (g: File)
    requires WellFormed(t) && WellFormed(u) && WellHashed(d, t) && WellHashed(d, u) && NoCollision(d, t, u)
    requires t.hash == u.hash && f in t.files
    ensures g in u.files && SameContent(f, g)
  {
    hide Serialised, WellFormed, Concat;
    SameChildren(d, t, u);
    var i :| 0 <= i < |t.files| && t.files[i] == f;
    var cs, ds := FileChildren(t.files), FileChildren(u.files);
    assert cs[i] in cs;
    assert cs[i] in ds;
    var j :| 0 <= j < |ds| && ds[j] == cs[i];
    g := u.files[j];
    assert Hashed(t, Concat(f.chunks)) && Hashed(u, Concat(g.chunks));
    ConcatInjective(f.chunks, g.chunks);
  }

  lemma DirMatch(d: Digest, t: Tree, u: Tree, s: Sub) returns (r: Sub)
    requires WellFormed(t) && WellFormed(u) && WellHashed(d, t) && WellHashed(d, u) && NoCollision(d, t, u)
    requires t.hash == u.hash && s in t.dirs
    ensures r in u.dirs && r.name == s.name && r.tree.hash == s.tree.hash
    ensures NoCollision(d, s.tree, r.tree)
  {
    SameChildren(d, t, u);
    var i :| 0 <= i < |t.dirs| && t.dirs[i] == s;
    var cs, ds := DirChildren(t.dirs), DirChildren(u.dirs);
    assert cs[i] in cs;
    assert cs[i] in ds;
    var j :| 0 <= j < |ds| && ds[j] == cs[i];
    r := u.dirs[j];
    SubCollision(d, t, u, s, r);
  }

  lemma SubCollision(d: Digest, t: Tree, u: Tree, s: Sub, r: Sub)
    requires NoCollision(d, t, u) && s in t.dirs && r in u.dirs
    ensures NoCollision(d, s.tree, r.tree)
  {
    hide Serialised;
    forall b ensures (Hashed(s.tree, b) ==> Hashed(t, b)) && (Hashed(r.tree, b) ==> Hashed(u, b)) {}
  }

  lemma FlipCollision(d: Digest, t: Tree, u: Tree)
    requires NoCollision(d, t, u)
    ensures NoCollision(d, u, t)
  {
  }

  /** Equal hashes mean equal children. */
  lemma SameChildren(d: Digest, t: Tree, u: Tree)
    requires WellFormed(t) && WellFormed(u) && WellHashed(d, t) && WellHashed(d, u) && NoCollision(d, t, u)
    requires t.hash == u.hash
    ensures forall c :: c in FileChildren(t.files) <==> c in FileChildren(u.files)
    ensures forall c :: c in DirChildren(t.dirs) <==> c in DirChildren(u.dirs)
  {
    assert Hashed(t, Serialised(t)) && Hashed(u, Serialised(u));
    ChildrenFit(t);
    ChildrenFit(u);
    hide TreeStream, WellHashed, WellFormed, NoCollision, Hashed;
    TreeStreamInjective(FileChildren(t.files), DirChildren(t.dirs), FileChildren(u.files), DirChildren(u.dirs));
  }

  lemma ChildrenFit(t: Tree)
    requires WellFormed(t)
    ensures OfKind(FileChildren(t.files), FILE_KIND) && Fits(FileChildren(t.files))
    ensures OfKind(DirChildren(t.dirs), TREE_KIND) && Fits(DirChildren(t.dirs))
  {
    forall c | c in FileChildren(t.files)
      ensures c.kind == FILE_KIND && |c.name| < 0x1_0000_0000
    {
      var i :| 0 <= i < |t.files| && FileChildren(t.files)[i] == c;
      assert t.files[i] in t.files;
    }
    forall c | c in DirChildren(t.dirs)
      ensures c.kind == TREE_KIND && |c.name| < 0x1_0000_0000
    {
      var i :| 0 <= i < |t.dirs| && DirChildren(t.dirs)[i] == c;
      assert t.dirs[i] in t.dirs;
    }
  }

  /** Equal stored hashes mean the same files with the same content at the same
      paths, all the way down. */
  lemma {:induction false} HashDecides(d: Digest, t: Tree, u: Tree, q: string, f: File) returns (g: File)
    requires WellFormed(t) && WellFormed(u) && WellHashed(d, t) && WellHashed(d, u) && NoCollision(d, t, u)
    requires t.hash == u.hash && Holds(t, q, f)
    ensures Holds(u, q, g) && SameContent(f, g)
    decreases t
  {
    if f in t.files && f.name == q {
      g := FileMatch(d, t, u, f);
    } else {
      var s :| s in t.dirs && Inside(s.name, q) && Holds(s.tree, Below(s.name, q), f);
      var r := DirMatch(d, t, u, s);
      g := HashDecides(d, s.tree, r.tree, Below(s.name, q), f);
    }
  }
}
