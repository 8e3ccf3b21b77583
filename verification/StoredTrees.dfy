/** Stored trees as listings: the order in which a directory's rows come back
    from storage changes neither what the tree holds nor its hash. */
module StoredTrees {
  import opened Prefix
  import opened TreeHash
  import opened Trees

  // ---- children as hashed ----

  lemma FileChildrenDistinct(fs: seq<File>)
    requires UniqueFiles(fs)
    ensures DistinctNames(FileChildren(fs))
  {
  }

  lemma DirChildrenDistinct(ds: seq<Sub>)
    requires UniqueDirs(ds)
    ensures DistinctNames(DirChildren(ds))
  {
  }

  lemma InFileChildren(fs: seq<File>, c: Child)
    ensures c in FileChildren(fs) <==> exists f :: f in fs && c == Child(FILE_KIND, f.name, f.hash)
  {
    if f :| f in fs && c == Child(FILE_KIND, f.name, f.hash) {
      var i :| 0 <= i < |fs| && fs[i] == f;
      assert FileChildren(fs)[i] == c;
    }
    if c in FileChildren(fs) {
      var i :| 0 <= i < |fs| && FileChildren(fs)[i] == c;
      assert fs[i] in fs;
    }
  }

  lemma InDirChildren(ds: seq<Sub>, c: Child)
    ensures c in DirChildren(ds) <==> exists s :: s in ds && c == Child(TREE_KIND, s.name, s.tree.hash)
  {
    if s :| s in ds && c == Child(TREE_KIND, s.name, s.tree.hash) {
      var i :| 0 <= i < |ds| && ds[i] == s;
      assert DirChildren(ds)[i] == c;
    }
    if c in DirChildren(ds) {
      var i :| 0 <= i < |ds| && DirChildren(ds)[i] == c;
      assert ds[i] in ds;
    }
  }

  // ---- equal contents have equal hashes ----

  /** A file of the same name with the same chunks. */
  ghost predicate HasContent(fs: seq<File>, f: File) {
    exists g :: g in fs && g.name == f.name && g.chunks == f.chunks
  }

  /** The same names with the same contents in every directory, in any order. */
  ghost predicate SameContents(t: Tree, u: Tree)
    decreases t
  {
    && (forall f :: f in t.files ==> HasContent(u.files, f))
    && (forall g :: g in u.files ==> HasContent(t.files, g))
    && (forall s :: s in t.dirs ==> HasAlike(s, u.dirs))
    && (forall r :: r in u.dirs ==> IsAlike(t.dirs, r))
  }

  ghost predicate HasAlike(s: Sub, ds: seq<Sub>)
    decreases s
  {
    exists r :: r in ds && r.name == s.name && SameContents(s.tree, r.tree)
  }

  ghost predicate IsAlike(ds: seq<Sub>, r: Sub)
    decreases ds
  {
    exists s :: s in ds && r.name == s.name && SameContents(s.tree, r.tree)
  }

  lemma SameFileChildren(d: Digest, t: Tree, u: Tree, c: Child)
    requires WellHashed(d, t) && WellHashed(d, u) && (forall f :: f in t.files ==> HasContent(u.files, f))
    requires c in FileChildren(t.files)
    ensures c in FileChildren(u.files)
  {
    hide Serialised, FileHash;
    InFileChildren(t.files, c);
    var f :| f in t.files && c == Child(FILE_KIND, f.name, f.hash);
    var g :| g in u.files && g.name == f.name && g.chunks == f.chunks;
    InFileChildren(u.files, c);
  }

  /** A directory of the same name and stored hash. */
  ghost predicate HasStored(ds: seq<Sub>, s: Sub) {
    exists r :: r in ds && r.name == s.name && r.tree.hash == s.tree.hash
  }

  lemma SameDirChildren(ds: seq<Sub>, es: seq<Sub>, c: Child)
    requires forall s :: s in ds ==> HasStored(es, s)
    requires c in DirChildren(ds)
    ensures c in DirChildren(es)
  {
    InDirChildren(ds, c);
    var s :| s in ds && c == Child(TREE_KIND, s.name, s.tree.hash);
    var r :| r in es && r.name == s.name && r.tree.hash == s.tree.hash;
    InDirChildren(es, c);
  }

  lemma AlikeDir(t: Tree, u: Tree, s: Sub) returns (r: Sub)
    requires SameContents(t, u) && s in t.dirs
    ensures r in u.dirs && r.name == s.name && SameContents(s.tree, r.tree)
  {
    hide IsAlike;
    assert HasAlike(s, u.dirs);
    r :| r in u.dirs && r.name == s.name && SameContents(s.tree, r.tree);
  }

  lemma AlikeDirBack(t: Tree, u: Tree, r: Sub) returns (s: Sub)
    requires SameContents(t, u) && r in u.dirs
    ensures s in t.dirs && r.name == s.name && SameContents(s.tree, r.tree)
  {
    hide HasAlike;
    assert IsAlike(t.dirs, r);
    s :| s in t.dirs && r.name == s.name && SameContents(s.tree, r.tree);
  }

  lemma AlikeFiles(t: Tree, u: Tree)
    requires SameContents(t, u)
    ensures forall f :: f in t.files ==> HasContent(u.files, f)
    ensures forall g :: g in u.files ==> HasContent(t.files, g)
  {
    hide HasContent, HasAlike, IsAlike;
  }

  /** Whatever the order, equal contents are stored under equal hashes. */
  lemma {:induction false} ContentsDecide(d: Digest, t: Tree, u: Tree)
    requires WellFormed(t) && WellFormed(u) && WellHashed(d, t) && WellHashed(d, u) && SameContents(t, u)
    ensures t.hash == u.hash
    decreases t
  {
    hide Serialised, GoodName, FileHash, HasContent, SameContents, HasStored;
    AlikeFiles(t, u);
    forall s | s in t.dirs ensures HasStored(u.dirs, s) {
      var r := AlikeDir(t, u, s);
      ContentsDecide(d, s.tree, r.tree);
      Stored(u.dirs, r, s);
    }
    forall r | r in u.dirs ensures HasStored(t.dirs, r) {
      var s := AlikeDirBack(t, u, r);
      ContentsDecide(d, s.tree, r.tree);
      Stored(t.dirs, s, r);
    }
    forall c ensures c in FileChildren(t.files) <==> c in FileChildren(u.files) {
      if c in FileChildren(t.files) { SameFileChildren(d, t, u, c); }
      if c in FileChildren(u.files) { SameFileChildren(d, u, t, c); }
    }
    forall c ensures c in DirChildren(t.dirs) <==> c in DirChildren(u.dirs) {
      if c in DirChildren(t.dirs) { SameDirChildren(t.dirs, u.dirs, c); }
      if c in DirChildren(u.dirs) { SameDirChildren(u.dirs, t.dirs, c); }
    }
    ListingsHashAlike(t, u);
  }

  lemma Stored(ds: seq<Sub>, r: Sub, s: Sub)
    requires r in ds && r.name == s.name && r.tree.hash == s.tree.hash
    ensures HasStored(ds, s)
  {
  }

  lemma ListingsHashAlike(t: Tree, u: Tree)
    requires UniqueFiles(t.files) && UniqueFiles(u.files) && UniqueDirs(t.dirs) && UniqueDirs(u.dirs)
    requires forall c :: c in FileChildren(t.files) <==> c in FileChildren(u.files)
    requires forall c :: c in DirChildren(t.dirs) <==> c in DirChildren(u.dirs)
    ensures Serialised(t) == Serialised(u)
  {
    hide TreeStream, DistinctNames;
    FileChildrenDistinct(t.files);
    FileChildrenDistinct(u.files);
    DirChildrenDistinct(t.dirs);
    DirChildrenDistinct(u.dirs);
    TreeStreamOrder(FileChildren(t.files), DirChildren(t.dirs), FileChildren(u.files), DirChildren(u.dirs));
  }

  lemma FileAlike(d: Digest, t: Tree, u: Tree, f: File)
    requires WellFormed(t) && WellFormed(u) && WellHashed(d, t) && WellHashed(d, u) && NoCollision(d, t, u)
    requires t.hash == u.hash && f in t.files
    ensures HasContent(u.files, f)
  {
    hide WellFormed, WellHashed, NoCollision;
    var g := FileMatch(d, t, u, f);
  }

  /** Equal hashes mean equal contents, directory by directory. */
  lemma {:induction false} HashMeansContents(d: Digest, t: Tree, u: Tree)
    requires WellFormed(t) && WellFormed(u) && WellHashed(d, t) && WellHashed(d, u) && NoCollision(d, t, u)
    requires t.hash == u.hash
    ensures SameContents(t, u)
    decreases t
  {
    hide NoCollision, Serialised, GoodName, FileHash, HasContent;
    FlipCollision(d, t, u);
    forall f | f in t.files ensures HasContent(u.files, f) {
      FileAlike(d, t, u, f);
    }
    forall g | g in u.files ensures HasContent(t.files, g) {
      FileAlike(d, u, t, g);
    }
    forall s | s in t.dirs ensures HasAlike(s, u.dirs) {
      var r := DirMatch(d, t, u, s);
      HashMeansContents(d, s.tree, r.tree);
    }
    forall r | r in u.dirs ensures IsAlike(t.dirs, r) {
      var s := DirMatch(d, u, t, r);
      FlipCollision(d, r.tree, s.tree);
      HashMeansContents(d, s.tree, r.tree);
    }
  }

  /** The stored hash decides the contents of a tree, and the contents decide it. */
  lemma HashIffContents(d: Digest, t: Tree, u: Tree)
    requires WellFormed(t) && WellFormed(u) && WellHashed(d, t) && WellHashed(d, u) && NoCollision(d, t, u)
    ensures t.hash == u.hash <==> SameContents(t, u)
  {
    hide WellFormed, WellHashed, NoCollision, SameContents;
    if t.hash == u.hash {
      HashMeansContents(d, t, u);
    }
    if SameContents(t, u) {
      ContentsDecide(d, t, u);
    }
  }

  // ---- reading a tree back ----

  /** p names each of the first n numbers once. */
  ghost predicate Permutes(p: seq<nat>, n: nat) {
    && |p| == n
    && (forall i :: 0 <= i < n ==> p[i] < n)
    && (forall i, j :: 0 <= i < j < n ==> p[i] != p[j])
    && (forall k :: 0 <= k < n ==> k in p)
  }

  /** The same rows, listed in another order in some directories. */
  ghost predicate Relisted(t: Tree, u: Tree) {
    && t.hash == u.hash && multiset(t.files) == multiset(u.files) && |t.dirs| == |u.dirs|
    && (exists p: seq<nat> :: Permutes(p, |t.dirs|) && forall i :: 0 <= i < |t.dirs| ==>
          u.dirs[i].name == t.dirs[p[i]].name && Relisted(t.dirs[p[i]].tree, u.dirs[i].tree))
  }

  /** Storage may hand a tree back in the very order it was written. */
  lemma {:induction false} RelistedSelf(t: Tree)
    ensures Relisted(t, t)
  {
    var p := Identity(|t.dirs|);
    forall i | 0 <= i < |t.dirs| ensures Relisted(t.dirs[p[i]].tree, t.dirs[i].tree) {
      RelistedSelf(t.dirs[i].tree);
    }
  }

  lemma {:induction false} Identity(n: nat) returns (p: seq<nat>)
    ensures Permutes(p, n) && forall i :: 0 <= i < n ==> p[i] == i
  {
    if n == 0 {
      p := [];
    } else {
      var q := Identity(n - 1);
      p := q + [n - 1];
      forall k | 0 <= k < n ensures k in p {
        assert p[k] == k;
      }
    }
  }

  lemma SameMembers(a: seq<File>, b: seq<File>)
    requires multiset(a) == multiset(b)
    ensures forall f :: f in a <==> f in b
  {
    forall f ensures f in a <==> f in b {
      assert f in a <==> f in multiset(a);
      assert f in b <==> f in multiset(b);
    }
  }

  /** Listing files again does not repeat a name. */
  lemma UniqueAgain(a: seq<File>, b: seq<File>)
    requires multiset(a) == multiset(b) && UniqueFiles(a)
    ensures UniqueFiles(b)
  {
    SameMembers(a, b);
    forall i, j | 0 <= i < j < |b| ensures b[i].name != b[j].name {
      if b[i] == b[j] {
        TwiceListed(b, i, j);
        OnceListed(a, b[i]);
      }
      assert b[i] in a && b[j] in a;
      OneByName(a, b[i], b[j]);
    }
  }

  lemma OneByName(fs: seq<File>, f: File, g: File)
    requires UniqueFiles(fs) && f in fs && g in fs && f != g
    ensures f.name != g.name
  {
  }

  lemma TwiceListed(s: seq<File>, i: nat, j: nat)
    requires i < j < |s| && s[i] == s[j]
    ensures multiset(s)[s[i]] >= 2
  {
    assert s == s[..j] + s[j..];
    assert s[..j][i] in multiset(s[..j]) && s[j..][0] in multiset(s[j..]);
  }

  lemma {:induction false} OnceListed(s: seq<File>, f: File)
    requires UniqueFiles(s)
    ensures multiset(s)[f] <= 1
  {
    if s != [] {
      var init, last := s[..|s| - 1], s[|s| - 1];
      assert s == init + [last];
      OnceListed(init, f);
      if f == last {
        assert forall i :: 0 <= i < |init| ==> init[i] == s[i] && init[i] != last;
        assert last !in init;
      }
    }
  }

  /** Where a directory of the written tree is listed. */
  lemma ListedAs(t: Tree, u: Tree, s: Sub) returns (r: Sub)
    requires Relisted(t, u) && s in t.dirs
    ensures r in u.dirs && r.name == s.name && Relisted(s.tree, r.tree)
  {
    var p: seq<nat> :| Permutes(p, |t.dirs|) && forall i :: 0 <= i < |t.dirs| ==>
      u.dirs[i].name == t.dirs[p[i]].name && Relisted(t.dirs[p[i]].tree, u.dirs[i].tree);
    var k :| 0 <= k < |t.dirs| && t.dirs[k] == s;
    assert k in p;
    var i :| 0 <= i < |p| && p[i] == k;
    r := u.dirs[i];
  }

  /** Where a listed directory comes from. */
  lemma ListedFrom(t: Tree, u: Tree, r: Sub) returns (s: Sub)
    requires Relisted(t, u) && r in u.dirs
    ensures s in t.dirs && r.name == s.name && Relisted(s.tree, r.tree)
  {
    var p: seq<nat> :| Permutes(p, |t.dirs|) && forall i :: 0 <= i < |t.dirs| ==>
      u.dirs[i].name == t.dirs[p[i]].name && Relisted(t.dirs[p[i]].tree, u.dirs[i].tree);
    var i :| 0 <= i < |u.dirs| && u.dirs[i] == r;
    s := t.dirs[p[i]];
  }

  lemma UniqueDirsAgain(t: Tree, u: Tree)
    requires Relisted(t, u) && UniqueDirs(t.dirs)
    ensures UniqueDirs(u.dirs)
  {
    var p: seq<nat> :| Permutes(p, |t.dirs|) && forall i :: 0 <= i < |t.dirs| ==>
      u.dirs[i].name == t.dirs[p[i]].name && Relisted(t.dirs[p[i]].tree, u.dirs[i].tree);
    forall i, j | 0 <= i < j < |u.dirs| ensures u.dirs[i].name != u.dirs[j].name {
      assert p[i] != p[j];
      if p[i] < p[j] {
        assert t.dirs[p[i]].name != t.dirs[p[j]].name;
      } else {
        assert t.dirs[p[j]].name != t.dirs[p[i]].name;
      }
    }
  }

  lemma {:induction false} RelistedFormed(t: Tree, u: Tree)
    requires Relisted(t, u) && WellFormed(t)
    ensures WellFormed(u)
    decreases t
  {
    hide GoodName, Relisted;
    RelistedFiles(t, u);
    UniqueAgain(t.files, u.files);
    SameMembers(t.files, u.files);
    UniqueDirsAgain(t, u);
    forall r | r in u.dirs ensures GoodName(r.name) && WellFormed(r.tree) {
      var s := ListedFrom(t, u, r);
      RelistedFormed(s.tree, r.tree);
    }
  }

  lemma RelistedFiles(t: Tree, u: Tree)
    requires Relisted(t, u)
    ensures t.hash == u.hash && multiset(t.files) == multiset(u.files)
  {
  }

  /** The same files at the same paths. */
  lemma {:induction false} RelistedHolds(t: Tree, u: Tree, q: string, f: File)
    requires Relisted(t, u)
    ensures Holds(t, q, f) <==> Holds(u, q, f)
    decreases t
  {
    hide Relisted, Inside;
    RelistedFiles(t, u);
    SameMembers(t.files, u.files);
    if s :| s in t.dirs && Inside(s.name, q) && Holds(s.tree, Below(s.name, q), f) {
      var r := ListedAs(t, u, s);
      RelistedHolds(s.tree, r.tree, Below(s.name, q), f);
    }
    if r :| r in u.dirs && Inside(r.name, q) && Holds(r.tree, Below(r.name, q), f) {
      var s := ListedFrom(t, u, r);
      RelistedHolds(s.tree, r.tree, Below(s.name, q), f);
    }
  }

  lemma RelistedChildren(t: Tree, u: Tree, c: Child)
    requires Relisted(t, u)
    ensures c in FileChildren(t.files) <==> c in FileChildren(u.files)
    ensures c in DirChildren(t.dirs) <==> c in DirChildren(u.dirs)
  {
    hide Relisted;
    RelistedFiles(t, u);
    SameMembers(t.files, u.files);
    InFileChildren(t.files, c);
    InFileChildren(u.files, c);
    InDirChildren(t.dirs, c);
    InDirChildren(u.dirs, c);
    if s :| s in t.dirs && c == Child(TREE_KIND, s.name, s.tree.hash) {
      var r := ListedAs(t, u, s);
      RelistedFiles(s.tree, r.tree);
    }
    if r :| r in u.dirs && c == Child(TREE_KIND, r.name, r.tree.hash) {
      var s := ListedFrom(t, u, r);
      RelistedFiles(s.tree, r.tree);
    }
  }

  /** A well-hashed tree is well hashed however it is listed. */
  lemma {:induction false} RelistedHashed(d: Digest, t: Tree, u: Tree)
    requires Relisted(t, u) && WellFormed(t) && WellHashed(d, t)
    ensures WellHashed(d, u)
    decreases t
  {
    hide Relisted, Serialised, GoodName, FileHash;
    RelistedFiles(t, u);
    SameMembers(t.files, u.files);
    UniqueAgain(t.files, u.files);
    UniqueDirsAgain(t, u);
    forall c
      ensures (c in FileChildren(t.files) <==> c in FileChildren(u.files)) && (c in DirChildren(t.dirs) <==>
        c in DirChildren(u.dirs))
    {
      RelistedChildren(t, u, c);
    }
    ListingsHashAlike(t, u);
    forall r | r in u.dirs ensures WellHashed(d, r.tree) {
      var s := ListedFrom(t, u, r);
      RelistedHashed(d, s.tree, r.tree);
    }
  }
}
