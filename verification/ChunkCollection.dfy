/** The chunks a client may download: every chunk of every visible file over a
    list of commits, collected with one memo shared by all of them. */
module ChunkCollection {
  import opened Prefix
  import opened PathFilter
  import opened TreeHash
  import opened Trees
  import opened Manifest
  import Order

  /** A directory by where it sits and what it holds. */
  datatype Visit = Visit(path: string, hash: Hash)

  // ---- what is to be collected ----

  /** The permissions and sparse prefixes of one request. */
  datatype View = View(filter: Filter, sparse: PrefixSet)

  ghost predicate VisibleChunk(v: View, path: string, t: Tree, c: Hash) {
    exists q, f :: Holds(t, q, f) && Visible(v.filter, v.sparse, Join(path, q)) && c in f.chunks
  }

  ghost predicate FileChunk(v: View, path: string, files: seq<File>, c: Hash) {
    exists f :: f in files && Visible(v.filter, v.sparse, Join(path, f.name)) && c in f.chunks
  }

  ghost predicate DirChunk(v: View, path: string, ds: seq<Sub>, c: Hash) {
    exists s :: s in ds && VisibleChunk(v, Join(path, s.name), s.tree, c)
  }

  lemma ChunkSplit(v: View, path: string, t: Tree, c: Hash)
    requires WellFormed(t)
    ensures VisibleChunk(v, path, t, c) <==> FileChunk(v, path, t.files, c) || DirChunk(v, path, t.dirs, c)
  {
    hide Visible, WellFormed, Inside;
    if VisibleChunk(v, path, t, c) {
      var q, f :| Holds(t, q, f) && Visible(v.filter, v.sparse, Join(path, q)) && c in f.chunks;
      if !(f in t.files && f.name == q) {
        var s :| s in t.dirs && Inside(s.name, q) && Holds(s.tree, Below(s.name, q), f);
        NamesGood(t, s);
        BelowJoins(s.name, q);
        JoinJoin(path, s.name, Below(s.name, q));
        assert VisibleChunk(v, Join(path, s.name), s.tree, c);
      }
    }
    if FileChunk(v, path, t.files, c) {
      var f :| f in t.files && Visible(v.filter, v.sparse, Join(path, f.name)) && c in f.chunks;
      assert Holds(t, f.name, f);
    }
    if DirChunk(v, path, t.dirs, c) {
      var s :| s in t.dirs && VisibleChunk(v, Join(path, s.name), s.tree, c);
      var q, f :| Holds(s.tree, q, f) && Visible(v.filter, v.sparse, Join(Join(path, s.name), q)) && c in f.chunks;
      NamesGood(t, s);
      JoinJoin(path, s.name, q);
      HoldsThrough(t, s, q, f);
    }
  }

  // ---- the trees at hand ----

  ghost predicate HashedByAny(roots: seq<Tree>, b: Bytes) {
    exists r :: r in roots && Hashed(r, b)
  }

  /** The digest does not collide on anything stored below the roots. */
  ghost predicate NoCollisionAmong(d: Digest, roots: seq<Tree>) {
    forall x, y :: HashedByAny(roots, x) && HashedByAny(roots, y) && d(x) == d(y) ==> x == y
  }

  /** A root or a directory below one. */
  ghost predicate Known(d: Digest, roots: seq<Tree>, t: Tree) {
    WellFormed(t) && WellHashed(d, t) && forall b :: Hashed(t, b) ==> HashedByAny(roots, b)
  }

  lemma KnownChild(d: Digest, roots: seq<Tree>, t: Tree, s: Sub)
    requires Known(d, roots, t) && s in t.dirs
    ensures Known(d, roots, s.tree)
  {
    hide Serialised, HashedByAny, GoodName;
    forall b | Hashed(s.tree, b) ensures HashedByAny(roots, b) {
      assert Hashed(t, b);
    }
  }

  lemma SameHashSameChunks(d: Digest, roots: seq<Tree>, v: View, path: string, t: Tree, u: Tree, c: Hash)
    requires NoCollisionAmong(d, roots) && Known(d, roots, t) && Known(d, roots, u) && t.hash == u.hash
    requires VisibleChunk(v, path, t, c)
    ensures VisibleChunk(v, path, u, c)
  {
    hide Visible, Serialised, WellFormed, WellHashed;
    var q, f :| Holds(t, q, f) && Visible(v.filter, v.sparse, Join(path, q)) && c in f.chunks;
    assert NoCollision(d, t, u);
    var g := HashDecides(d, t, u, q, f);
  }

  // ---- the memo ----

  /** Everything visible in a directory of this hash at this path is collected. */
  ghost predicate Complete(d: Digest, roots: seq<Tree>, v: View, k: Visit, seen: set<Hash>) {
    forall u, c :: Known(d, roots, u) && u.hash == k.hash && VisibleChunk(v, k.path, u, c) ==> c in seen
  }

  /** Every recorded visit is complete, or is one of the directories still open
      on the way down. */
  ghost predicate Memo(d: Digest, roots: seq<Tree>, v: View, visited: set<Visit>, seen: set<Hash>,
                       pending: set<Visit>) {
    forall k :: k in visited ==> k in pending || Complete(d, roots, v, k, seen)
  }

  lemma MemoGrows(d: Digest, roots: seq<Tree>, v: View, visited: set<Visit>, seen: set<Hash>, more: set<Hash>,
                  pending: set<Visit>)
    requires Memo(d, roots, v, visited, seen, pending) && seen <= more
    ensures Memo(d, roots, v, visited, more, pending)
  {
    hide Known, VisibleChunk;
  }

  lemma MemoOpens(d: Digest, roots: seq<Tree>, v: View, visited: set<Visit>, seen: set<Hash>, pending: set<Visit>,
                  k: Visit)
    requires Memo(d, roots, v, visited, seen, pending)
    ensures Memo(d, roots, v, visited + {k}, seen, pending + {k})
  {
    hide Complete;
  }

  lemma MemoCloses(d: Digest, roots: seq<Tree>, v: View, visited: set<Visit>, seen: set<Hash>, pending: set<Visit>,
                   k: Visit, t: Tree)
    requires Memo(d, roots, v, visited, seen, pending + {k})
    requires NoCollisionAmong(d, roots) && Known(d, roots, t) && t.hash == k.hash
    requires forall c :: VisibleChunk(v, k.path, t, c) ==> c in seen
    ensures Memo(d, roots, v, visited, seen, pending)
  {
    hide Known, VisibleChunk, NoCollisionAmong;
    forall u, c | Known(d, roots, u) && u.hash == k.hash && VisibleChunk(v, k.path, u, c) ensures c in seen {
      SameHashSameChunks(d, roots, v, k.path, u, t, c);
    }
    assert Complete(d, roots, v, k, seen);
  }

  // ---- collecting ----

  /** Adds the chunks of the visible files of one directory. */
  method CollectFiles(files: seq<File>, path: string, v: View, seen: set<Hash>) returns (r: set<Hash>)
    requires forall f :: f in files ==> GoodName(f.name)
    ensures forall c :: c in r <==> c in seen || FileChunk(v, path, files, c)
  {
    hide Visible, GoodName;
    r := seen;
    var i := 0;
    while i < |files|
      invariant 0 <= i <= |files|
      invariant forall c :: c in r <==> c in seen || FileChunk(v, path, files[..i], c)
    {
      var f := files[i];
      var ok := IsVisible(v.filter, v.sparse, path, f.name);
      FileChunkMore(v, path, files, i);
      if ok {
        r := r + (set c | c in f.chunks);
      }
      i := i + 1;
    }
    assert files[..i] == files;
  }

  lemma FileChunkMore(v: View, path: string, files: seq<File>, i: nat)
    requires i < |files|
    ensures forall c :: FileChunk(v, path, files[..i + 1], c) <==>
      FileChunk(v, path, files[..i], c) ||
      (Visible(v.filter, v.sparse, Join(path, files[i].name)) && c in files[i].chunks)
  {
    hide Visible;
    assert files[..i + 1] == files[..i] + [files[i]];
    forall c | FileChunk(v, path, files[..i], c) ensures FileChunk(v, path, files[..i + 1], c) {
      var f :| f in files[..i] && Visible(v.filter, v.sparse, Join(path, f.name)) && c in f.chunks;
      assert f in files[..i + 1];
    }
    assert files[i] in files[..i + 1];
  }

  lemma DirChunkMore(v: View, path: string, ds: seq<Sub>, i: nat)
    requires i < |ds|
    ensures forall c :: DirChunk(v, path, ds[..i + 1], c) <==>
      DirChunk(v, path, ds[..i], c) || VisibleChunk(v, Join(path, ds[i].name), ds[i].tree, c)
  {
    hide VisibleChunk;
    assert ds[..i + 1] == ds[..i] + [ds[i]];
    forall c | DirChunk(v, path, ds[..i], c) ensures DirChunk(v, path, ds[..i + 1], c) {
      var s :| s in ds[..i] && VisibleChunk(v, Join(path, s.name), s.tree, c);
      assert s in ds[..i + 1];
    }
    assert ds[i] in ds[..i + 1];
  }

  lemma PrunedHasNoChunk(v: View, dir: string, t: Tree)
    requires Sound(v.filter) && WellFormed(t) && Clean(dir)
    requires !Enters(v.filter, dir) || !SetCanDescend(v.sparse, dir)
    ensures forall c :: !VisibleChunk(v, dir, t, c)
  {
    hide Visible, Enters, SetCanDescend, Clean, WellFormed, Sound;
    PrunedShowsNothing(v.filter, v.sparse, dir, t);
  }

  lemma ChildPath(path: string, t: Tree, s: Sub)
    requires WellFormed(t) && s in t.dirs && GoodPath(path)
    ensures JoinTreePath(path, s.name) == Join(path, s.name) && Clean(Join(path, s.name))
    ensures GoodPath(Join(path, s.name))
    ensures |path| < |Join(path, s.name)| && WellFormed(s.tree)
  {
    NamesGood(t, s);
    JoinTreePathIsJoin(path, s.name);
    JoinClean(path, s.name);
  }

  /** Collects below one directory: exactly the visible chunks are added, memo
      or not. */
  method CollectVisibleChunks(t: Tree, path: string, v: View, visited: set<Visit>, seen: set<Hash>,
                              ghost d: Digest, ghost roots: seq<Tree>, ghost pending: set<Visit>)
    returns (visits: set<Visit>, r: set<Hash>)
    requires Known(d, roots, t) && NoCollisionAmong(d, roots) && GoodPath(path) && Sound(v.filter)
    requires forall k :: k in pending ==> |k.path| < |path|
    requires Memo(d, roots, v, visited, seen, pending)
    ensures Memo(d, roots, v, visits, r, pending)
    ensures forall c :: c in r <==> c in seen || VisibleChunk(v, path, t, c)
    decreases t, 0
  {
    hide Memo, NoCollisionAmong, VisibleChunk, FileChunk, DirChunk, GoodPath, GoodName, Sound, Clean, Enters,
         SetCanDescend, WellHashed, WellFormed, Complete;
    visits, r := visited, seen;
    var key := Visit(path, t.hash);
    if t.hash != ZERO && key in visited {
      MemoHit(d, roots, v, visited, seen, pending, key, t);
      return;
    }
    ghost var inner := pending;
    if t.hash != ZERO {
      visits := visits + {key};
      inner := pending + {key};
      MemoOpens(d, roots, v, visited, seen, pending, key);
    }
    FileNames(t);
    r := CollectFiles(t.files, path, v, r);
    MemoGrows(d, roots, v, visits, seen, r, inner);
    NoDirChunk(v, path, t.dirs);
    var i := 0;
    while i < |t.dirs|
      invariant 0 <= i <= |t.dirs|
      invariant Memo(d, roots, v, visits, r, inner)
      invariant forall c :: c in r <==> c in seen || FileChunk(v, path, t.files, c) || DirChunk(v, path, t.dirs[..i], c)
    {
      var child := t.dirs[i];
      KnownChild(d, roots, t, child);
      ChildPath(path, t, child);
      DirChunkMore(v, path, t.dirs, i);
      visits, r := CollectChild(child, path, v, visits, r, d, roots, inner);
      i := i + 1;
    }
    assert t.dirs[..i] == t.dirs;
    forall c ensures c in r <==> c in seen || VisibleChunk(v, path, t, c) {
      ChunkSplit(v, path, t, c);
    }
    if t.hash != ZERO {
      MemoCloses(d, roots, v, visits, r, pending, key, t);
    }
  }

  /** The same for one child directory, which is skipped when nothing below it
      can be visible. */
  method CollectChild(child: Sub, path: string, v: View, visited: set<Visit>, seen: set<Hash>,
                      ghost d: Digest, ghost roots: seq<Tree>, ghost pending: set<Visit>)
    returns (visits: set<Visit>, r: set<Hash>)
    requires Known(d, roots, child.tree) && NoCollisionAmong(d, roots) && Sound(v.filter)
    requires var p := Join(path, child.name); JoinTreePath(path, child.name) == p && GoodPath(p) && Clean(p)
    requires forall k :: k in pending ==> |k.path| < |Join(path, child.name)|
    requires Memo(d, roots, v, visited, seen, pending)
    ensures Memo(d, roots, v, visits, r, pending)
    ensures forall c :: c in r <==> c in seen || VisibleChunk(v, Join(path, child.name), child.tree, c)
    decreases child.tree, 1
  {
    hide Memo, NoCollisionAmong, VisibleChunk, GoodPath, Sound, Clean, Enters, SetCanDescend, WellHashed, WellFormed;
    visits, r := visited, seen;
    var childPath := JoinTreePath(path, child.name);
    var entered := Enter(v.filter, childPath);
    if entered {
      entered := CanDescend(v.sparse, childPath);
    }
    if entered {
      visits, r := CollectVisibleChunks(child.tree, childPath, v, visits, r, d, roots, pending);
    } else {
      PrunedHasNoChunk(v, childPath, child.tree);
    }
  }

  lemma FileNames(t: Tree)
    requires WellFormed(t)
    ensures forall f :: f in t.files ==> GoodName(f.name)
  {
  }

  lemma NoDirChunk(v: View, path: string, ds: seq<Sub>)
    ensures forall c :: !DirChunk(v, path, ds[..0], c)
  {
  }

  /** A recorded visit at this very path is complete. */
  lemma MemoHit(d: Digest, roots: seq<Tree>, v: View, visited: set<Visit>, seen: set<Hash>, pending: set<Visit>,
                key: Visit, t: Tree)
    requires Memo(d, roots, v, visited, seen, pending) && key in visited
    requires forall k :: k in pending ==> |k.path| < |key.path|
    requires Known(d, roots, t) && t.hash == key.hash
    ensures forall c :: VisibleChunk(v, key.path, t, c) ==> c in seen
  {
    hide Known, VisibleChunk;
  }

  /** Some commit shows the chunk. */
  ghost predicate ShownByAny(v: View, roots: seq<Tree>, c: Hash) {
    exists t :: t in roots && VisibleChunk(v, "", t, c)
  }

  lemma ShownMore(v: View, roots: seq<Tree>, i: nat)
    requires i < |roots|
    ensures forall c :: ShownByAny(v, roots[..i + 1], c) <==>
      ShownByAny(v, roots[..i], c) || VisibleChunk(v, "", roots[i], c)
  {
    hide VisibleChunk;
    assert roots[..i + 1] == roots[..i] + [roots[i]];
    forall c | ShownByAny(v, roots[..i], c) ensures ShownByAny(v, roots[..i + 1], c) {
      var t :| t in roots[..i] && VisibleChunk(v, "", t, c);
      assert t in roots[..i + 1];
    }
    assert roots[i] in roots[..i + 1];
  }

  lemma RootKnown(d: Digest, roots: seq<Tree>, t: Tree)
    requires t in roots && WellFormed(t) && WellHashed(d, t)
    ensures Known(d, roots, t)
  {
    hide Hashed;
  }

  /** The chunks of all commits: exactly those visible in some commit, in order
      and without repeats. */
  method VisibleChunks(roots: seq<Tree>, v: View, ghost d: Digest) returns (out: seq<Hash>)
    requires Sound(v.filter) && NoCollisionAmong(d, roots)
    requires forall t :: t in roots ==> WellFormed(t) && WellHashed(d, t)
    ensures Order.Sorted(out)
    ensures forall c: Hash :: c in out <==> ShownByAny(v, roots, c)
  {
    hide Memo, NoCollisionAmong, VisibleChunk, Sound, WellFormed, WellHashed, Order.Less, Known, Complete;
    var seen: set<Hash>, visited: set<Visit> := {}, {};
    MemoEmpty(d, roots, v);
    var i := 0;
    while i < |roots|
      invariant 0 <= i <= |roots|
      invariant Memo(d, roots, v, visited, seen, {})
      invariant forall c :: c in seen <==> ShownByAny(v, roots[..i], c)
    {
      RootKnown(d, roots, roots[i]);
      ShownMore(v, roots, i);
      visited, seen := CollectVisibleChunks(roots[i], "", v, visited, seen, d, roots, {});
      i := i + 1;
    }
    assert roots[..i] == roots;
    var keys := Order.SortKeys(seen);
    forall k | 0 <= k < |keys| ensures |keys[k]| == HASH_SIZE {
      assert keys[k] in seen;
    }
    out := keys;
  }

  lemma MemoEmpty(d: Digest, roots: seq<Tree>, v: View)
    ensures Memo(d, roots, v, {}, {}, {})
  {
  }
}
