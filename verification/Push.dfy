/** Pushes: the new tree is the overlay of the request on the branch's tree, one
    push after another. */
module Push {
  import opened Prefix
  import opened TreeHash
  import opened Trees
  import opened PushPaths
  import opened PushTree
  import opened PushPlaces
  import opened TreeBuilder
  import opened StoredTrees
  import Manifest

  // ---- indexing the request ----

  /** The recorded directories so far, not counting the root. */
  ghost predicate RecordedBelowRoot(rq: Request, rebuild: set<string>) {
    forall x :: x in rebuild || x == "" <==> x == "" || exists p :: TouchedBy(rq, p) && Inside(x, p)
  }

  lemma RecordPath(rq: Request, next: Request, p: string, rebuild: set<string>, grown: set<string>)
    requires RecordedBelowRoot(rq, rebuild)
    requires forall x :: x in grown <==> x in rebuild || x == DirOf(p) || Inside(x, DirOf(p))
    requires forall r :: TouchedBy(next, r) <==> TouchedBy(rq, r) || r == p
    ensures RecordedBelowRoot(next, grown)
  {
    hide DirOf, Inside, TouchedBy;
    forall x ensures x in grown || x == "" <==> x == "" || exists r :: TouchedBy(next, r) && Inside(x, r) {
      DirectoriesOf(p, x);
      if r :| TouchedBy(rq, r) && Inside(x, r) {
        assert TouchedBy(next, r);
      }
      if Inside(x, p) {
        assert TouchedBy(next, p);
      }
    }
  }

  method IndexFiles(files: seq<PushFile>) returns (changed: map<string, seq<PushFile>>, rebuild: set<string>)
    ensures forall dir :: ListAt(changed, dir) == InDir(files, dir)
    ensures RecordedBelowRoot(Request(files, []), rebuild)
  {
    hide DirOf, Inside, RecordedBelowRoot;
    changed, rebuild := map[], {};
    NothingRecorded();
    var i := 0;
    while i < |files|
      invariant 0 <= i <= |files|
      invariant forall dir :: ListAt(changed, dir) == InDir(files[..i], dir)
      invariant RecordedBelowRoot(Request(files[..i], []), rebuild)
    {
      var f := files[i];
      var d := DirOf(f.path);
      ghost var was := rebuild;
      var list := ListAt(changed, d) + [f];
      assert files[..i + 1][..i] == files[..i] && files[..i + 1][i] == f;
      changed := changed[d := list];
      rebuild := AddAncestors(rebuild, d);
      TouchFile(files, i);
      RecordPath(Request(files[..i], []), Request(files[..i + 1], []), f.path, was, rebuild);
      i := i + 1;
    }
    assert files[..i] == files;
  }

  lemma NothingRecorded()
    ensures RecordedBelowRoot(Request([], []), {})
  {
  }

  lemma TouchFile(files: seq<PushFile>, i: nat)
    requires i < |files|
    ensures forall r :: TouchedBy(Request(files[..i + 1], []), r) <==>
      TouchedBy(Request(files[..i], []), r) || r == files[i].path
  {
    var a, b := files[..i], files[..i + 1];
    assert b == a + [files[i]];
    forall r ensures TouchedBy(Request(b, []), r) <==> TouchedBy(Request(a, []), r) || r == files[i].path {
      if pf :| pf in a && pf.path == r {
        assert pf in b;
      }
      assert files[i] in b;
    }
  }

  method IndexRemoved(files: seq<PushFile>, paths: seq<string>, rebuild0: set<string>)
    returns (removed: map<string, set<string>>, rebuild: set<string>)
    requires RecordedBelowRoot(Request(files, []), rebuild0)
    ensures forall dir, n :: n in NamesAt(removed, dir) <==> RemovedAt(paths, dir, n)
    ensures RecordedBelowRoot(Request(files, paths), rebuild)
  {
    hide DirOf, BaseOf, Inside, RecordedBelowRoot, RemovedAt, NamesAt;
    removed, rebuild := map[], rebuild0;
    NoNames(paths);
    var i := 0;
    while i < |paths|
      invariant 0 <= i <= |paths|
      invariant forall dir, n :: n in NamesAt(removed, dir) <==> RemovedAt(paths[..i], dir, n)
      invariant RecordedBelowRoot(Request(files, paths[..i]), rebuild)
    {
      var r := paths[i];
      var d := DirOf(r);
      ghost var was := rebuild;
      RemoveOne(paths, i);
      AddName(removed, d, BaseOf(r));
      var names := NamesAt(removed, d) + {BaseOf(r)};
      ghost var before := removed;
      removed := removed[d := names];
      forall dir, n ensures n in NamesAt(removed, dir) <==> RemovedAt(paths[..i + 1], dir, n) {
        assert n in NamesAt(before, dir) <==> RemovedAt(paths[..i], dir, n);
        assert n in NamesAt(removed, dir) <==> n in NamesAt(before, dir) || (dir == d && n == BaseOf(r));
      }
      rebuild := AddAncestors(rebuild, d);
      TouchRemoved(files, paths, i);
      RecordPath(Request(files, paths[..i]), Request(files, paths[..i + 1]), r, was, rebuild);
      i := i + 1;
    }
    assert paths[..i] == paths;
  }

  lemma NoNames(paths: seq<string>)
    ensures forall dir, n :: n !in NamesAt(map[], dir) && !RemovedAt(paths[..0], dir, n)
  {
  }

  lemma AddName(removed: map<string, set<string>>, d: string, b: string)
    ensures forall dir, n :: n in NamesAt(removed[d := NamesAt(removed, d) + {b}], dir) <==>
      n in NamesAt(removed, dir) || (dir == d && n == b)
  {
  }

  lemma RemoveOne(paths: seq<string>, i: nat)
    requires i < |paths|
    ensures forall dir, n :: RemovedAt(paths[..i + 1], dir, n) <==>
      RemovedAt(paths[..i], dir, n) || (DirOf(paths[i]) == dir && BaseOf(paths[i]) == n)
  {
    hide DirOf, BaseOf;
    assert paths[..i + 1] == paths[..i] + [paths[i]];
    assert paths[i] in paths[..i + 1];
    forall dir, n | RemovedAt(paths[..i], dir, n) ensures RemovedAt(paths[..i + 1], dir, n) {
      var r :| r in paths[..i] && DirOf(r) == dir && BaseOf(r) == n;
      assert r in paths[..i + 1];
    }
  }

  lemma TouchRemoved(files: seq<PushFile>, paths: seq<string>, i: nat)
    requires i < |paths|
    ensures forall r :: TouchedBy(Request(files, paths[..i + 1]), r) <==>
      TouchedBy(Request(files, paths[..i]), r) || r == paths[i]
  {
    var a, b := Request(files, paths[..i]), Request(files, paths[..i + 1]);
    assert b.removed == a.removed + [paths[i]];
    forall r ensures TouchedBy(b, r) <==> TouchedBy(a, r) || r == paths[i] {
      assert r in b.removed <==> r in a.removed || r == paths[i];
    }
  }

  // ---- one push ----

  /** What the callers see to: paths without empty segments, at most one slash in
      front, and the digest of the chunks as the hash of each file. */
  ghost predicate Acceptable(d: Digest, rq: Request) {
    && (forall pf :: pf in rq.files ==>
          GoodRel(Unslashed(pf.path)) && |pf.path| < 0x1_0000_0000 && pf.fileHash == FileHash(d, pf.chunks))
    && (forall r :: r in rq.removed ==> |r| < 0x1_0000_0000)
  }

  ghost predicate Intact(d: Digest, o: MaybeTree) {
    o.Present? ==> WellFormed(o.tree) && WellHashed(d, o.tree)
  }

  /** t is the tree after the push. */
  ghost predicate Pushes(d: Digest, base: MaybeTree, rq: Request, t: Tree) {
    && WellFormed(t) && WellHashed(d, t)
    && (forall q, f :: Holds(t, q, f) <==> Overlaid(rq, base, "", q, f))
  }

  /** The root is built for the request on this base, and hashed. */
  ghost predicate Builds(d: Digest, base: MaybeTree, rq: Request, root: Node) {
    exists rebuild: set<string>, n :: Recorded(rq, rebuild) && Built(rq, rebuild, n, base, "") && Hashes(d, n, root)
  }

  lemma BuilderReady(d: Digest, rq: Request, rebuild: set<string>)
    requires Acceptable(d, rq) && Recorded(rq, rebuild)
    ensures forall pf :: pf in rq.files ==> GoodName(BaseOf(pf.path))
    ensures forall x :: x in rebuild ==> |x| < 0x1_0000_0000
  {
    hide GoodRel, Unslashed, BaseOf;
    forall pf | pf in rq.files ensures GoodName(BaseOf(pf.path)) {
      HasBase(pf.path);
      ShortBase(pf.path);
    }
    forall x | x in rebuild && x != "" ensures |x| < 0x1_0000_0000 {
      var p :| TouchedBy(rq, p) && Inside(x, p);
    }
  }

  lemma ShortBase(p: string)
    ensures |BaseOf(p)| <= |p|
  {
  }

  lemma OverlayHashed(d: Digest, rq: Request, base: MaybeTree, t: Tree)
    requires Acceptable(d, rq) && Intact(d, base)
    requires forall q, f :: Holds(t, q, f) ==> Overlaid(rq, base, "", q, f)
    ensures Manifest.FilesHashed(d, t)
  {
    hide DirOf, BaseOf, LastAt, RemovedAt, GoodRel, WellFormed, WellHashed, FileHash;
    forall q, f | Holds(t, q, f) ensures f.hash == FileHash(d, f.chunks) {
      var p := Join("", q);
      LastAtIs(rq.files, DirOf(p), BaseOf(p));
      if LastAt(rq.files, DirOf(p), BaseOf(p)).NotPushed? {
        Manifest.WellHashedFiles(d, base.tree, q, f);
      }
    }
  }

  lemma FinalizedPush(d: Digest, rq: Request, base: MaybeTree, n: Node, r: Node)
    requires Acceptable(d, rq) && Intact(d, base)
    requires Correct(rq, n, base, "") && KeptFrom(n, base) && Hashes(d, n, r)
    ensures Pushes(d, base, rq, Expand(r, base)) && AllIds(r) == AllIds(n)
  {
    hide Acceptable, Intact, WellFormed, WellHashed, Overlaid, Hashes, KeptFrom, AllIds, Expand, Manifest.FilesHashed;
    var t, u := Expand(n, base), Expand(r, base);
    HashesShape(d, n, r, base);
    ShapeFlip(t, u);
    ShapeFormed(t, u);
    forall q, f ensures Holds(u, q, f) <==> Holds(t, q, f) {
      if Holds(u, q, f) { ShapeHolds(u, t, q, f); }
      if Holds(t, q, f) { ShapeHolds(t, u, q, f); }
    }
    OverlayHashed(d, rq, base, u);
    KeptFromHashes(d, n, r, base);
    IntactHashed(d, base);
    Finalized(d, n, r, base);
    HashesKeepIds(d, n, r);
  }

  lemma IntactHashed(d: Digest, base: MaybeTree)
    requires Intact(d, base)
    ensures WellFormedSide(base) && (base.Present? ==> WellHashed(d, base.tree))
  {
  }

  /** Whatever is built for an acceptable request on an intact base is the overlay,
      well formed and well hashed. */
  lemma BuildsPushes(d: Digest, base: MaybeTree, rq: Request, root: Node)
    requires Acceptable(d, rq) && Intact(d, base) && Builds(d, base, rq, root)
    ensures Pushes(d, base, rq, Expand(root, base))
  {
    hide Acceptable, Intact, Recorded, Built, Hashes, Pushes, GoodName, BaseOf, Correct, KeptFrom, AllIds;
    var rebuild: set<string>, n :| Recorded(rq, rebuild) && Built(rq, rebuild, n, base, "") && Hashes(d, n, root);
    BuilderReady(d, rq, rebuild);
    IntactHashed(d, base);
    BuiltCorrect(rq, rebuild, n, base, "");
    FinalizedPush(d, rq, base, n, root);
  }

  /** The tree of a push, over the branch's tree or over nothing. */
  method BuildNewTree(d: Digest, base: MaybeTree, rq: Request) returns (root: Node, ghost count: int)
    requires Intact(d, base) && Acceptable(d, rq)
    ensures Builds(d, base, rq, root)
    ensures Pushes(d, base, rq, Expand(root, base)) && root.hash == Expand(root, base).hash
    ensures Numbered(AllIds(root), 0, count)
  {
    hide Acceptable, WellFormed, WellHashed, Overlaid, Hashes, KeptFrom, Recorded, RecordedBelowRoot, InDir, RemovedAt,
         Numbered, Correct, Pushes, GoodName, BaseOf, Intact, AllIds, Built;
    var changed, rebuild := IndexFiles(rq.files);
    var removed;
    removed, rebuild := IndexRemoved(rq.files, rq.removed, rebuild);
    assert rq == Request(rq.files, rq.removed);
    RootRecorded(rq, rebuild);
    rebuild := rebuild + {""};
    RecordedAll(rq, rebuild);
    BuilderReady(d, rq, rebuild);
    IntactHashed(d, base);
    var b := new Builder(rq, changed, removed, rebuild);
    var n := b.Build("", base, 0x1_0000_0000);
    count := b.nextID;
    root := Finalize(d, n);
    FinalizedPush(d, rq, base, n, root);
  }

  lemma RecordedAll(rq: Request, rebuild: set<string>)
    requires RecordedBelowRoot(rq, rebuild) && "" in rebuild
    ensures Recorded(rq, rebuild)
  {
    hide TouchedBy, Inside;
  }

  lemma RootRecorded(rq: Request, rebuild: set<string>)
    requires RecordedBelowRoot(rq, rebuild)
    ensures RecordedBelowRoot(rq, rebuild + {""})
  {
    hide TouchedBy, Inside;
  }

  /** Any well-hashed tree stored under the root's hash has the overlay's content. */
  lemma StoredByHash(d: Digest, base: MaybeTree, rq: Request, t: Tree, u: Tree, q: string)
    requires Pushes(d, base, rq, t) && WellFormed(u) && WellHashed(d, u) && u.hash == t.hash && NoCollision(d, t, u)
    ensures forall f :: Overlaid(rq, base, "", q, f) ==> exists g :: Holds(u, q, g) && SameContent(f, g)
    ensures forall g :: Holds(u, q, g) ==> exists f :: Overlaid(rq, base, "", q, f) && SameContent(g, f)
  {
    hide WellFormed, WellHashed, Overlaid, NoCollision;
    forall f | Overlaid(rq, base, "", q, f) ensures exists g :: Holds(u, q, g) && SameContent(f, g) {
      var g := HashDecides(d, t, u, q, f);
    }
    forall g | Holds(u, q, g) ensures exists f :: Overlaid(rq, base, "", q, f) && SameContent(g, f) {
      FlipCollision(d, t, u);
      var f := HashDecides(d, u, t, q, g);
    }
  }

  // ---- the overlay in terms of paths ----

  /** No path of the request has a slash in front. */
  ghost predicate Plain(rq: Request) {
    (forall pf :: pf in rq.files ==> !Leading(pf.path)) && (forall r :: r in rq.removed ==> !Leading(r))
  }

  ghost predicate DistinctPaths(rq: Request) {
    forall i, j :: 0 <= i < j < |rq.files| ==> rq.files[i].path != rq.files[j].path
  }

  ghost predicate PushedAt(rq: Request, q: string, f: File) {
    exists pf :: pf in rq.files && pf.path == q && f == FileOf(pf)
  }

  /** For plain paths the push is the map overlay: what was there minus what is
      removed, overridden by what is pushed. */
  lemma PlainOverlay(d: Digest, rq: Request, base: MaybeTree, q: string, f: File)
    requires Acceptable(d, rq) && Plain(rq) && DistinctPaths(rq) && WellFormedSide(base)
    ensures Overlaid(rq, base, "", q, f) <==>
      PushedAt(rq, q, f) || ((forall pf :: pf in rq.files ==> pf.path != q) && q !in rq.removed && HoldsIn(base, q, f))
  {
    hide LastAt, DirOf, BaseOf, HoldsIn, FileOf, GoodRel, WellFormed;
    assert Join("", q) == q;
    LastAtIs(rq.files, DirOf(q), BaseOf(q));
    HeldIsGood(base, q, f);
    if GoodRel(q) {
      GoodRelStart(q);
      forall pf | pf in rq.files ensures SamePlace(pf.path, q) <==> pf.path == q {
        PlaceIsPath(pf.path, q);
      }
      forall r | r in rq.removed ensures SamePlace(r, q) <==> r == q {
        PlaceIsPath(r, q);
      }
      assert RemovedAt(rq.removed, DirOf(q), BaseOf(q)) <==> q in rq.removed by {
        assert q in rq.removed ==> SamePlace(q, q);
      }
      if LastAt(rq.files, DirOf(q), BaseOf(q)).Pushed? {
        var pf := LastAt(rq.files, DirOf(q), BaseOf(q)).file;
        assert SamePlace(pf.path, q);
        OnePerPath(rq, pf);
      }
    }
  }

  lemma OnePerPath(rq: Request, pf: PushFile)
    requires DistinctPaths(rq) && pf in rq.files
    ensures forall other :: other in rq.files && other.path == pf.path ==> other == pf
  {
  }

  /** The pushed tree by paths, for requests with slashes in front as well. */
  lemma TreeByPaths(d: Digest, base: MaybeTree, rq: Request, t: Tree, q: string, f: File)
    requires Pushes(d, base, rq, t) && Named(rq) && WellFormedSide(base)
    ensures Holds(t, q, f) <==>
      || (exists i :: 0 <= i < |rq.files| && LastFiled(rq.files, i, q) && f == FileOf(rq.files[i]))
      || (NoneFiled(rq.files, q) && !RemovalFiled(rq.removed, q) && HoldsIn(base, q, f))
  {
    hide Overlaid, WellFormed, WellHashed, Holds, Named, LastFiled, NoneFiled, RemovalFiled;
    NamedOverlay(rq, base, q, f);
  }

  // ---- sequences of pushes ----

  /** A push from one stored tree to the next: the tree is built and hashed, and
      storage lists its rows in an order of its own. */
  ghost predicate Step(d: Digest, before: MaybeTree, rq: Request, after: MaybeTree) {
    && Acceptable(d, rq) && after.Present?
    && (exists root :: Builds(d, before, rq, root) && Relisted(Expand(root, before), after.tree))
  }

  /** A branch over time. */
  ghost predicate Run(d: Digest, states: seq<MaybeTree>, rqs: seq<Request>) {
    && |states| == |rqs| + 1
    && (forall i :: 0 <= i < |rqs| ==> StepAt(d, states, rqs, i))
  }

  ghost predicate StepAt(d: Digest, states: seq<MaybeTree>, rqs: seq<Request>, i: nat)
    requires |states| == |rqs| + 1 && i < |rqs|
  {
    Step(d, states[i], rqs[i], states[i + 1])
  }

  ghost predicate TouchesPlace(rq: Request, q: string) {
    LastAt(rq.files, DirOf(q), BaseOf(q)).Pushed? || RemovedAt(rq.removed, DirOf(q), BaseOf(q))
  }

  /** What the builder returns is a step: stored as it is listed, or in any other order. */
  lemma BuiltIsStep(d: Digest, base: MaybeTree, rq: Request, root: Node, stored: Tree)
    requires Acceptable(d, rq) && Builds(d, base, rq, root)
    requires stored == Expand(root, base) || Relisted(Expand(root, base), stored)
    ensures Step(d, base, rq, Present(stored))
  {
    hide Builds, Relisted, Acceptable, Expand;
    RelistedSelf(stored);
  }

  /** From an intact tree a push leads to an intact tree that holds the overlay. */
  lemma StepPushes(d: Digest, before: MaybeTree, rq: Request, after: MaybeTree)
    requires Intact(d, before) && Step(d, before, rq, after)
    ensures Intact(d, after) && after.Present? && Pushes(d, before, rq, after.tree)
  {
    hide Acceptable, Intact, Builds, WellFormed, WellHashed, Overlaid, Relisted, Expand;
    var root :| Builds(d, before, rq, root) && Relisted(Expand(root, before), after.tree);
    var t := Expand(root, before);
    BuildsPushes(d, before, rq, root);
    RelistedFormed(t, after.tree);
    RelistedHashed(d, t, after.tree);
    forall q, f ensures Holds(after.tree, q, f) <==> Holds(t, q, f) {
      RelistedHolds(t, after.tree, q, f);
    }
    IntactTree(d, after);
  }

  lemma IntactTree(d: Digest, o: MaybeTree)
    requires o.Present? && WellFormed(o.tree) && WellHashed(d, o.tree)
    ensures Intact(d, o)
  {
  }

  /** A branch that starts intact stays intact: over any sequence of pushes every
      tree is well formed and every stored hash is the digest of its contents. */
  lemma {:induction false} RunIntact(d: Digest, states: seq<MaybeTree>, rqs: seq<Request>, k: nat)
    requires Run(d, states, rqs) && Intact(d, states[0]) && k < |states|
    ensures Intact(d, states[k])
  {
    hide Step, Intact, Pushes;
    if k > 0 {
      var i := k - 1;
      RunIntact(d, states, rqs, i);
      assert StepAt(d, states, rqs, i);
      StepPushes(d, states[i], rqs[i], states[i + 1]);
    }
  }

  lemma RunStep(d: Digest, states: seq<MaybeTree>, rqs: seq<Request>, i: nat)
    requires Run(d, states, rqs) && Intact(d, states[0]) && i < |rqs|
    ensures Intact(d, states[i]) && states[i + 1].Present? && Pushes(d, states[i], rqs[i], states[i + 1].tree)
  {
    hide Step, Intact, Pushes;
    RunIntact(d, states, rqs, i);
    assert StepAt(d, states, rqs, i);
    StepPushes(d, states[i], rqs[i], states[i + 1]);
  }

  /** What a state holds at a path was decided by the last push that touched it,
      or was there from the start. */
  lemma {:induction false} RunLastTouch(d: Digest, states: seq<MaybeTree>, rqs: seq<Request>, j: nat, k: nat, q: string,
                                        f: File)
    requires Run(d, states, rqs) && Intact(d, states[0]) && j <= k < |states|
    requires forall i :: j <= i < k ==> !TouchesPlace(rqs[i], q)
    ensures HoldsIn(states[k], q, f) <==> HoldsIn(states[j], q, f)
    decreases k
  {
    hide Run, WellFormed, WellHashed, DirOf, BaseOf, LastAt, RemovedAt, Intact;
    if j < k {
      var i := k - 1;
      RunShape(d, states, rqs);
      RunStep(d, states, rqs, i);
      RunLastTouch(d, states, rqs, j, i, q, f);
      assert Join("", q) == q;
      IntactHashed(d, states[i]);
      HeldIsGood(states[i], q, f);
    }
  }

  lemma RunShape(d: Digest, states: seq<MaybeTree>, rqs: seq<Request>)
    requires Run(d, states, rqs)
    ensures |states| == |rqs| + 1
  {
  }

  /** A file of a run comes from the last push that touched its path: after it the
      path holds the pushed file, or nothing when it was removed. */
  lemma RunAtTouch(d: Digest, states: seq<MaybeTree>, rqs: seq<Request>, i: nat, k: nat, q: string, f: File)
    requires Run(d, states, rqs) && Intact(d, states[0]) && i < k < |states| && GoodRel(q)
    requires TouchesPlace(rqs[i], q) && forall j :: i < j < k ==> !TouchesPlace(rqs[j], q)
    ensures HoldsIn(states[k], q, f) <==>
      LastAt(rqs[i].files, DirOf(q), BaseOf(q)).Pushed? && f == FileOf(LastAt(rqs[i].files, DirOf(q), BaseOf(q)).file)
  {
    hide Run, WellFormed, WellHashed, DirOf, BaseOf, LastAt, RemovedAt, FileOf, GoodRel, Intact;
    RunShape(d, states, rqs);
    RunStep(d, states, rqs, i);
    var next := i + 1;
    RunLastTouch(d, states, rqs, next, k, q, f);
    assert Join("", q) == q;
  }
}
