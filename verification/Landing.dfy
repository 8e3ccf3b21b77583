/** Landing a merge: the merged file set goes back into the target's tree as a
    delta and reads back as the merged set. */
module Landing {
  import opened Prefix
  import opened PathFilter
  import opened TreeHash
  import opened Trees
  import opened EntryMaps
  import opened ThreeWay
  import opened PushPaths
  import PT = PushTree
  import Push
  import TreeWalk
  import TreeDiff
  import Order

  // ---- the delta ----

  function PushOf(p: string, e: Entry): PT.PushFile {
    PT.PushFile(p, e.mode, e.size, e.isBinary, e.encoding, e.hash, e.chunks)
  }

  /** A file that is listed and pushed again at its path is the same file. */
  lemma PushRoundTrip(d: Digest, p: string, f: File)
    requires f.name == BaseOf(p) && f.hash == FileHash(d, f.chunks)
    ensures PT.FileOf(PushOf(p, EntryOf(d, p, f))) == f && PushOf(p, EntryOf(d, p, f)).path == p
    ensures EntryOf(d, p, f).path == p && EntryOf(d, p, f).hash == f.hash && EntryOf(d, p, f).mode == f.mode
  {
    hide BaseOf;
  }

  predicate Changed(target: Entries, merged: Entries, p: string) {
    p in merged && !Alike(At(target, p), Has(merged[p]))
  }

  /** The request that turns the target into the merged set. */
  ghost predicate IsDelta(target: Entries, merged: Entries, rq: PT.Request) {
    && Push.DistinctPaths(rq)
    && (forall pf :: pf in rq.files <==> Changed(target, merged, pf.path) && pf == PushOf(pf.path, merged[pf.path]))
    && (forall p :: p in rq.removed <==> p in target && p !in merged)
    && Order.Sorted(rq.removed)
  }

  method MergeDelta(target: Entries, merged: Entries) returns (rq: PT.Request)
    ensures IsDelta(target, merged, rq)
  {
    hide Order.Less, Alike;
    var files: seq<PT.PushFile> := [];
    var rest := merged.Keys;
    while rest != {}
      invariant rest <= merged.Keys
      invariant forall pf :: pf in files <==>
        pf.path !in rest && Changed(target, merged, pf.path) && pf == PushOf(pf.path, merged[pf.path])
      invariant forall i, j :: 0 <= i < j < |files| ==> files[i].path != files[j].path
      decreases |rest|
    {
      var p :| p in rest;
      var e := merged[p];
      forall i | 0 <= i < |files| ensures files[i].path != p {
        assert files[i] in files;
      }
      if Changed(target, merged, p) {
        files := files + [PushOf(p, e)];
      }
      rest := rest - {p};
    }
    var gone: set<string> := set p | p in target && p !in merged;
    var removed := Order.SortKeys(gone);
    rq := PT.Request(files, removed);
  }

  // ---- reading back ----

  /** A file set whose paths and hashes can be stored. */
  ghost predicate Storable(d: Digest, m: Entries) {
    forall p :: p in m ==> GoodRel(p) && |p| < 0x1_0000_0000 && m[p].hash == FileHash(d, m[p].chunks)
  }

  /** A tree whose paths have a length that can be stored. */
  ghost predicate ShortPaths(t: Tree) {
    forall q, f :: Holds(t, q, f) ==> |q| < 0x1_0000_0000
  }

  lemma ListedStorable(d: Digest, t: Tree, m: Entries)
    requires WellFormed(t) && TreeDiff.Lists(d, t, m) && ShortPaths(t)
    ensures Storable(d, m)
  {
    hide WellFormed, FileHash, GoodRel;
    forall p | p in m ensures GoodRel(p) && |p| < 0x1_0000_0000 && m[p].hash == FileHash(d, m[p].chunks) {
      var f :| Holds(t, p, f);
      assert TreeWalk.HasEntry(d, m, p, f);
      PT.HeldIsGood(Present(t), p, f);
    }
  }

  lemma DeltaAcceptable(d: Digest, target: Entries, merged: Entries, rq: PT.Request)
    requires IsDelta(target, merged, rq) && Storable(d, merged) && Storable(d, target)
    ensures Push.Acceptable(d, rq) && Push.Plain(rq)
  {
    hide GoodRel, FileHash, Alike;
    forall pf | pf in rq.files ensures !Leading(pf.path) && GoodRel(PT.Unslashed(pf.path)) {
      GoodRelStart(pf.path);
    }
    forall r | r in rq.removed ensures !Leading(r) {
      GoodRelStart(r);
    }
  }

  /** The tree built from the delta reads back as the merged set, up to hash and
      mode. */
  lemma DeltaReadsBack(d: Digest, t: Tree, u: Tree, target: Entries, merged: Entries, rq: PT.Request, flat: Entries)
    requires WellFormed(t) && TreeDiff.Lists(d, t, target) && IsDelta(target, merged, rq)
    requires Storable(d, merged) && Storable(d, target)
    requires Push.Pushes(d, Present(t), rq, u) && TreeDiff.Lists(d, u, flat)
    ensures AlikeMaps(flat, merged)
  {
    hide WellFormed, WellHashed, PT.Overlaid, IsDelta, Storable, TreeDiff.Lists;
    DeltaAcceptable(d, target, merged, rq);
    forall p ensures Alike(At(flat, p), At(merged, p)) {
      ReadsBackAt(d, t, u, target, merged, rq, flat, p);
    }
  }

  lemma ReadsBackAt(d: Digest, t: Tree, u: Tree, target: Entries, merged: Entries, rq: PT.Request, flat: Entries,
                    p: string)
    requires WellFormed(t) && TreeDiff.Lists(d, t, target) && IsDelta(target, merged, rq)
    requires Storable(d, merged) && Storable(d, target) && Push.Acceptable(d, rq) && Push.Plain(rq)
    requires Push.Pushes(d, Present(t), rq, u) && TreeDiff.Lists(d, u, flat)
    ensures Alike(At(flat, p), At(merged, p))
  {
    hide WellFormed, WellHashed, PT.Overlaid, Order.Sorted, Push.Acceptable, Push.Plain, FileHash, GoodRel,
         Push.DistinctPaths;
    forall f ensures Holds(u, p, f) <==>
      Push.PushedAt(rq, p, f) || ((forall pf :: pf in rq.files ==> pf.path != p) && p !in rq.removed && Holds(t, p, f))
    {
      Push.PlainOverlay(d, rq, Present(t), p, f);
    }
    if p in merged {
      if Changed(target, merged, p) {
        var pf := PushOf(p, merged[p]);
        assert pf in rq.files;
        assert Push.PushedAt(rq, p, PT.FileOf(pf));
        assert TreeWalk.HasEntry(d, flat, p, PT.FileOf(pf));
      } else {
        var f :| Holds(t, p, f);
        assert Holds(u, p, f);
        assert TreeWalk.HasEntry(d, target, p, f) && TreeWalk.HasEntry(d, flat, p, f);
      }
    } else {
      NothingThere(d, t, u, target, merged, rq, flat, p);
    }
  }

  lemma NothingThere(d: Digest, t: Tree, u: Tree, target: Entries, merged: Entries, rq: PT.Request, flat: Entries,
                     p: string)
    requires TreeDiff.Lists(d, t, target) && IsDelta(target, merged, rq) && TreeDiff.Lists(d, u, flat) && p !in merged
    requires forall f :: Holds(u, p, f) ==> Push.PushedAt(rq, p, f) || (p !in rq.removed && Holds(t, p, f))
    ensures p !in flat
  {
    hide Order.Sorted, FileHash, Push.DistinctPaths;
    forall f ensures !Holds(u, p, f) {
      assert Holds(t, p, f) ==> TreeWalk.HasEntry(d, target, p, f);
    }
  }

  // ---- a merge commit ----

  /** A commit's tree as a file set; a missing commit has no files. */
  method MergeTree(d: Digest, o: MaybeTree) returns (m: Entries)
    requires WellFormedSide(o)
    ensures o.Present? ==> TreeDiff.Lists(d, o.tree, m)
    ensures o.Missing? ==> m == map[]
  {
    hide WellFormed;
    m := TreeDiff.FullEntries(d, o, AllowAll);
    NothingMissing(d, o, m);
  }

  lemma NothingMissing(d: Digest, o: MaybeTree, m: Entries)
    requires TreeDiff.ListsAllowed(d, o, AllowAll, m)
    ensures o.Present? ==> TreeDiff.Lists(d, o.tree, m)
    ensures o.Missing? ==> m == map[]
  {
    if o.Present? {
      forall q, f | Holds(o.tree, q, f) ensures TreeWalk.HasEntry(d, m, q, f) {
        assert HoldsIn(o, q, f);
      }
      forall p | p in m ensures exists f :: Holds(o.tree, p, f) {
        var f :| HoldsIn(o, p, f);
      }
    }
  }

  /** What is saved for merged texts carries the digest of its chunks. */
  ghost predicate SavesStorable(d: Digest, st: Store) {
    forall p, mode, text :: SavedHashed(d, st.save(p, mode, text))
  }

  predicate SavedHashed(d: Digest, e: Entry) {
    e.hash == FileHash(d, e.chunks)
  }

  lemma MergeStorable(d: Digest, st: Store, ours: Entries, theirs: Entries, m: Entries)
    requires Storable(d, ours) && Storable(d, theirs) && SavesStorable(d, st) && MadeFrom(st, ours, theirs, m)
    ensures Storable(d, m)
  {
    hide FileHash, GoodRel;
    forall p | p in m ensures GoodRel(p) && |p| < 0x1_0000_0000 && m[p].hash == FileHash(d, m[p].chunks) {
      assert FromSides(st, At(ours, p), At(theirs, p), m[p], p);
      if Has(m[p]) != At(ours, p) && Has(m[p]) != At(theirs, p) {
        var mode, text :| m[p] == st.save(p, mode, text);
        assert SavedHashed(d, st.save(p, mode, text));
      }
    }
  }

  datatype Landed = Landed(root: PT.Node) | Refused(paths: seq<string>)

  ghost predicate ListsSide(d: Digest, o: MaybeTree, m: Entries) {
    if o.Present? then TreeDiff.Lists(d, o.tree, m) else m == map[]
  }

  /** A tree has one listing. */
  lemma ListsUnique(d: Digest, o: MaybeTree, m: Entries, n: Entries)
    requires ListsSide(d, o, m) && ListsSide(d, o, n)
    ensures m == n
  {
    if o.Present? {
      forall p ensures p in m <==> p in n {
        if p in m {
          var f :| Holds(o.tree, p, f);
          assert TreeWalk.HasEntry(d, n, p, f);
        }
        if p in n {
          var f :| Holds(o.tree, p, f);
          assert TreeWalk.HasEntry(d, m, p, f);
        }
      }
      forall p | p in m ensures m[p] == n[p] {
        var f :| Holds(o.tree, p, f);
        assert TreeWalk.HasEntry(d, m, p, f) && TreeWalk.HasEntry(d, n, p, f);
      }
    }
  }

  /** u is a well-hashed tree that reads back as the file set. */
  ghost predicate ReadsAs(d: Digest, u: Tree, m: Entries) {
    && WellFormed(u) && WellHashed(d, u)
    && (forall flat :: TreeDiff.Lists(d, u, flat) ==> AlikeMaps(flat, m))
  }

  /** The outcome of merging the listed file sets onto the target's tree. */
  ghost predicate LandsAs(d: Digest, st: Store, target: Tree, b: Entries, o: Entries, t: Entries, r: Landed) {
    && (r.Landed? <==> Mergeable(st, b, o, t))
    && (r.Landed? ==> exists m :: IsMerge(st, b, o, t, m) && FollowsRule(st, b, o, t, m) &&
                                  ReadsAs(d, PT.Expand(r.root, Present(target)), m))
    && (r.Refused? ==> r.paths != [] && forall p :: p in r.paths ==> !MergeableAt(st, At(b, p), At(o, p), At(t, p)))
    && RefusalRule(st, b, o, t, if r.Refused? then Conflicted(r.paths) else Merged(map[]))
  }

  /** The rule of the merge holds at every path. */
  ghost predicate FollowsRule(st: Store, b: Entries, o: Entries, t: Entries, m: Entries) {
    forall p :: PathRule(st, b, o, t, m, p)
  }

  /** Merges the source into the target over their base and builds the tree of
      the merge commit on top of the target's. */
  method LandMerge(d: Digest, st: Store, base: MaybeTree, target: Tree, source: Tree) returns (r: Landed)
    requires WellFormedSide(base) && WellFormed(source) && WellFormed(target) && WellHashed(d, target)
    requires ShortPaths(target) && ShortPaths(source) && SavesStorable(d, st)
    ensures forall b, o, t :: ListsSide(d, base, b) && ListsSide(d, Present(target), o) &&
                              ListsSide(d, Present(source), t) ==>
      LandsAs(d, st, target, b, o, t, r)
  {
    hide WellFormed, WellHashed, ShortPaths, SavesStorable, TreeDiff.Lists, LandsAs, Storable;
    var b := MergeTree(d, base);
    var o := MergeTree(d, Present(target));
    var t := MergeTree(d, Present(source));
    r := LandListed(d, st, target, b, o, t, source);
    forall x, y, z | ListsSide(d, base, x) && ListsSide(d, Present(target), y) && ListsSide(d, Present(source), z)
      ensures LandsAs(d, st, target, x, y, z, r)
    {
      ListsUnique(d, base, x, b);
      ListsUnique(d, Present(target), y, o);
      ListsUnique(d, Present(source), z, t);
    }
  }

  method LandListed(d: Digest, st: Store, target: Tree, b: Entries, o: Entries, t: Entries, ghost source: Tree)
    returns (r: Landed)
    requires WellFormed(source) && WellFormed(target) && WellHashed(d, target)
    requires ShortPaths(target) && ShortPaths(source) && SavesStorable(d, st)
    requires TreeDiff.Lists(d, target, o) && TreeDiff.Lists(d, source, t)
    ensures LandsAs(d, st, target, b, o, t, r)
  {
    hide WellFormed, WellHashed, ShortPaths, SavesStorable, TreeDiff.Lists, Mergeable, IsMerge, IsDelta, Storable,
         MadeFrom, Push.Acceptable, PT.AllIds, PT.Numbered, MergeableAt, ReadsAs, PathRule, FileClash, TextClash;
    var m := MergeOnto(st, b, o, t);
    if m.Conflicted? {
      return Refused(m.paths);
    }
    ListedStorable(d, target, o);
    ListedStorable(d, source, t);
    MergeStorable(d, st, o, t, m.files);
    var root := BuildMerged(d, target, o, m.files);
    assert FollowsRule(st, b, o, t, m.files);
    r := Landed(root);
  }

  /** The tree that turns the target into the file set. */
  method BuildMerged(d: Digest, target: Tree, listed: Entries, files: Entries) returns (root: PT.Node)
    requires WellFormed(target) && WellHashed(d, target) && TreeDiff.Lists(d, target, listed)
    requires Storable(d, listed) && Storable(d, files)
    ensures ReadsAs(d, PT.Expand(root, Present(target)), files)
  {
    hide WellFormed, WellHashed, TreeDiff.Lists, IsDelta, Storable, Push.Acceptable, PT.AllIds, PT.Numbered, AlikeMaps;
    var rq := MergeDelta(listed, files);
    DeltaAcceptable(d, listed, files, rq);
    ghost var count;
    root, count := Push.BuildNewTree(d, Present(target), rq);
    ghost var u := PT.Expand(root, Present(target));
    forall flat | TreeDiff.Lists(d, u, flat) ensures AlikeMaps(flat, files) {
      DeltaReadsBack(d, target, u, listed, files, rq, flat);
    }
  }
}
