/** Where the files and removals of a push end up, for every validated request:
    paths with a slash in front are accepted, and lost when they name a directory. */
module PushPlaces {
  import opened Prefix
  import opened TreeHash
  import opened Trees
  import opened PushPaths
  import opened PushTree

  /** What validation lets through, duplicates being compared as they are written. */
  ghost predicate Validated(rq: Request) {
    && (forall pf :: pf in rq.files ==> ValidRepoPath(pf.path))
    && (forall r :: r in rq.removed ==> ValidRepoPath(r) && forall pf :: pf in rq.files ==> pf.path != r)
    && (forall i, j :: 0 <= i < j < |rq.files| ==> rq.files[i].path != rq.files[j].path)
    && (forall i, j :: 0 <= i < j < |rq.removed| ==> rq.removed[i] != rq.removed[j])
  }

  predicate NamedPath(p: string) {
    GoodRel(Unslashed(p)) && |p| < 0x1_0000_0000
  }

  /** No path has an empty segment once one slash in front is taken off. */
  ghost predicate Named(rq: Request) {
    (forall pf :: pf in rq.files ==> NamedPath(pf.path)) && (forall r :: r in rq.removed ==> NamedPath(r))
  }

  lemma ValidatedIsNamed(rq: Request)
    requires Validated(rq) && (forall pf :: pf in rq.files ==> |pf.path| < 0x1_0000_0000)
    requires forall r :: r in rq.removed ==> |r| < 0x1_0000_0000
    ensures Named(rq)
  {
    forall pf | pf in rq.files ensures NamedPath(pf.path) {
      ValidIsGood(pf.path);
    }
    forall r | r in rq.removed ensures NamedPath(r) {
      ValidIsGood(r);
    }
  }

  // ---- where a path is filed ----

  /** A slash in front loses the path as soon as it has a directory. */
  predicate Lost(p: string) {
    Leading(p) && '/' in p[1..]
  }

  /** The path is filed as q: its slash in front, if any, is dropped. */
  predicate FiledAt(p: string, q: string) {
    !Lost(p) && Unslashed(p) == q
  }

  lemma LostElsewhere(p: string, q: string)
    requires Lost(p) && GoodRel(q)
    ensures !SamePlace(p, q)
  {
    hide LastSlash;
    UnslashedBase(p);
    GoodRelStart(q);
    assert Leading(DirOf(p)) && !Leading(DirOf(q));
  }

  lemma PlaceOf(p: string, q: string)
    requires GoodRel(Unslashed(p)) && GoodRel(q)
    ensures SamePlace(p, q) <==> FiledAt(p, q)
  {
    hide LastSlash, SamePlace, GoodRel;
    GoodRelStart(q);
    GoodRelStart(Unslashed(p));
    if Lost(p) {
      LostElsewhere(p, q);
    } else {
      UnslashedPlace(p, q);
      PlaceIsPath(Unslashed(p), q);
    }
  }

  lemma UnslashedPlace(p: string, q: string)
    requires !Lost(p)
    ensures SamePlace(p, q) <==> SamePlace(Unslashed(p), q)
  {
    hide LastSlash;
    if Leading(p) {
      UnslashedBase(p);
      Splits(p[1..]);
    }
  }

  // ---- the overlay of a request ----

  ghost predicate NoneFiled(files: seq<PushFile>, q: string) {
    forall i :: 0 <= i < |files| ==> !FiledAt(files[i].path, q)
  }

  /** File i is the last one filed as q. */
  ghost predicate LastFiled(files: seq<PushFile>, i: int, q: string) {
    && 0 <= i < |files| && FiledAt(files[i].path, q)
    && (forall j :: i < j < |files| ==> !FiledAt(files[j].path, q))
  }

  ghost predicate RemovalFiled(removed: seq<string>, q: string) {
    exists r :: r in removed && FiledAt(r, q)
  }

  lemma LastAtStep(files: seq<PushFile>, q: string)
    requires files != []
    ensures var last := files[|files| - 1];
            LastAt(files, DirOf(q), BaseOf(q)) ==
            if SamePlace(last.path, q) then Pushed(last) else LastAt(files[..|files| - 1], DirOf(q), BaseOf(q))
  {
    hide DirOf, BaseOf;
  }

  lemma FiledStep(files: seq<PushFile>, q: string, i: int)
    requires files != []
    ensures var init, last := files[..|files| - 1], files[|files| - 1];
            && (NoneFiled(files, q) <==> NoneFiled(init, q) && !FiledAt(last.path, q))
            && (LastFiled(files, i, q) ==>
                  if FiledAt(last.path, q) then i == |files| - 1
                  else LastFiled(init, i, q) && files[i] == init[i])
  {
    hide FiledAt;
    var init := files[..|files| - 1];
    assert forall k :: 0 <= k < |init| ==> files[k] == init[k];
  }

  lemma {:induction false} LastAtFiled(files: seq<PushFile>, q: string)
    requires GoodRel(q) && forall pf :: pf in files ==> NamedPath(pf.path)
    ensures NoneFiled(files, q) <==> LastAt(files, DirOf(q), BaseOf(q)).NotPushed?
    ensures forall i :: LastFiled(files, i, q) ==> 0 <= i < |files|
    ensures forall i :: LastFiled(files, i, q) ==> LastAt(files, DirOf(q), BaseOf(q)) == Pushed(files[i])
  {
    if files != [] {
      hide FiledAt, SamePlace, DirOf, BaseOf, GoodRel, LastAt, NoneFiled;
      var init, last := files[..|files| - 1], files[|files| - 1];
      PlaceOf(last.path, q);
      LastAtFiled(init, q);
      LastAtStep(files, q);
      forall i ensures LastFiled(files, i, q) ==> LastAt(files, DirOf(q), BaseOf(q)) == Pushed(files[i]) {
        FiledStep(files, q, i);
      }
      FiledStep(files, q, 0);
    }
  }

  lemma RemovedFiled(removed: seq<string>, q: string)
    requires GoodRel(q) && forall r :: r in removed ==> NamedPath(r)
    ensures RemovedAt(removed, DirOf(q), BaseOf(q)) <==> RemovalFiled(removed, q)
  {
    hide FiledAt, DirOf, BaseOf, GoodRel;
    forall r | r in removed ensures SamePlace(r, q) <==> FiledAt(r, q) {
      PlaceOf(r, q);
    }
  }

  lemma FindLast(files: seq<PushFile>, q: string) returns (i: nat)
    requires !NoneFiled(files, q)
    ensures LastFiled(files, i, q)
  {
    hide FiledAt;
    var k :| 0 <= k < |files| && FiledAt(files[k].path, q);
    i := |files| - 1;
    while !FiledAt(files[i].path, q)
      invariant k <= i < |files|
      invariant forall j :: i < j < |files| ==> !FiledAt(files[j].path, q)
      decreases i
    {
      i := i - 1;
    }
  }

  /** The whole overlay in terms of paths: the last file filed there, else the old
      file unless a removal is filed there. */
  lemma NamedOverlay(rq: Request, base: MaybeTree, q: string, f: File)
    requires Named(rq) && WellFormedSide(base)
    ensures Overlaid(rq, base, "", q, f) <==>
      || (exists i :: 0 <= i < |rq.files| && LastFiled(rq.files, i, q) && f == FileOf(rq.files[i]))
      || (NoneFiled(rq.files, q) && !RemovalFiled(rq.removed, q) && HoldsIn(base, q, f))
  {
    hide LastAt, RemovedAt, DirOf, BaseOf, HoldsIn, FileOf, GoodRel, WellFormed, LastFiled, NoneFiled, RemovalFiled;
    assert Join("", q) == q;
    HeldIsGood(base, q, f);
    forall i | LastFiled(rq.files, i, q) ensures GoodRel(q) {
      FiledGood(rq, i, q);
    }
    if GoodRel(q) {
      LastAtFiled(rq.files, q);
      RemovedFiled(rq.removed, q);
      if !NoneFiled(rq.files, q) {
        var i := FindLast(rq.files, q);
      }
      forall i | LastFiled(rq.files, i, q) ensures !NoneFiled(rq.files, q) {
        FiledGood(rq, i, q);
      }
    }
  }

  lemma FiledGood(rq: Request, i: int, q: string)
    requires Named(rq) && LastFiled(rq.files, i, q)
    ensures GoodRel(q) && !NoneFiled(rq.files, q)
  {
    hide GoodRel;
    assert rq.files[i] in rq.files;
  }

  // ---- which files land ----

  /** The request with other contents for file i. */
  function With(rq: Request, i: nat, pf: PushFile): Request
    requires i < |rq.files|
  {
    Request(rq.files[i := pf], rq.removed)
  }

  /** Whatever file i contains, it and nothing else is at its path afterwards. */
  ghost predicate Lands(rq: Request, i: nat)
    requires i < |rq.files|
  {
    forall pf: PushFile, base, f :: pf.path == rq.files[i].path && WellFormedSide(base) ==>
      (Overlaid(With(rq, i, pf), base, "", Unslashed(rq.files[i].path), f) <==> f == FileOf(pf))
  }

  /** A file lands exactly when its path is not lost and no later file is filed as
      the same path. */
  lemma LandsIff(rq: Request, i: nat)
    requires Named(rq) && i < |rq.files|
    ensures Lands(rq, i) <==> LastFiled(rq.files, i, Unslashed(rq.files[i].path))
  {
    hide Overlaid, FileOf, FiledAt, WellFormed, LastFiled, NamedPath;
    var q := Unslashed(rq.files[i].path);
    if LastFiled(rq.files, i, q) {
      forall pf: PushFile, base, f | pf.path == rq.files[i].path && WellFormedSide(base)
        ensures Overlaid(With(rq, i, pf), base, "", q, f) <==> f == FileOf(pf)
      {
        Replaced(rq, i, pf);
        LastDecides(With(rq, i, pf), i, base, q, f);
      }
    } else {
      Overridden(rq, i);
    }
  }

  /** Changing what a file contains changes no path. */
  lemma Replaced(rq: Request, i: nat, pf: PushFile)
    requires Named(rq) && i < |rq.files| && pf.path == rq.files[i].path
    ensures Named(With(rq, i, pf))
    ensures forall k, q :: LastFiled(With(rq, i, pf).files, k, q) <==> LastFiled(rq.files, k, q)
    ensures forall q :: NoneFiled(With(rq, i, pf).files, q) <==> NoneFiled(rq.files, q)
  {
    hide NamedPath, FiledAt;
    var files := With(rq, i, pf).files;
    assert forall k :: 0 <= k < |files| ==> files[k].path == rq.files[k].path;
    forall f | f in files ensures NamedPath(f.path) {
      var k :| 0 <= k < |files| && files[k] == f;
      assert rq.files[k] in rq.files;
    }
  }

  lemma OneLast(files: seq<PushFile>, i: int, k: int, q: string)
    requires LastFiled(files, i, q) && LastFiled(files, k, q)
    ensures i == k
  {
  }

  lemma LastDecides(rq: Request, i: nat, base: MaybeTree, q: string, f: File)
    requires Named(rq) && WellFormedSide(base) && LastFiled(rq.files, i, q)
    ensures Overlaid(rq, base, "", q, f) <==> f == FileOf(rq.files[i])
  {
    hide Overlaid, FileOf, FiledAt, WellFormed, NamedPath, LastFiled;
    NamedOverlay(rq, base, q, f);
    FiledGood(rq, i, q);
    InRange(rq.files, i, q);
    forall k | LastFiled(rq.files, k, q) ensures k == i {
      OneLast(rq.files, i, k, q);
    }
  }

  /** A file that is lost or overridden does not land. */
  lemma Overridden(rq: Request, i: nat)
    requires Named(rq) && i < |rq.files| && !LastFiled(rq.files, i, Unslashed(rq.files[i].path))
    ensures !Lands(rq, i)
  {
    hide Overlaid, FiledAt, NamedPath, LastFiled, BaseOf;
    var pf := rq.files[i];
    var q, zero, one := Unslashed(pf.path), pf.(mode := 0), pf.(mode := 1);
    NotThis(rq, i, zero, q);
    NotThis(rq, i, one, q);
    assert FileOf(zero) != FileOf(one);
    assert Overlaid(With(rq, i, zero), Missing, "", q, FileOf(one)) <==> Overlaid(rq, Missing, "", q, FileOf(one));
    assert Overlaid(With(rq, i, one), Missing, "", q, FileOf(one)) <==> Overlaid(rq, Missing, "", q, FileOf(one));
  }

  lemma NotThis(rq: Request, i: nat, pf: PushFile, q: string)
    requires Named(rq) && i < |rq.files| && pf.path == rq.files[i].path && !LastFiled(rq.files, i, q)
    ensures forall f :: Overlaid(With(rq, i, pf), Missing, "", q, f) <==> Overlaid(rq, Missing, "", q, f)
  {
    hide Overlaid, FileOf, FiledAt, NamedPath, LastFiled, NoneFiled, RemovalFiled;
    var rq' := With(rq, i, pf);
    Replaced(rq, i, pf);
    forall f ensures Overlaid(rq', Missing, "", q, f) <==> Overlaid(rq, Missing, "", q, f) {
      NamedOverlay(rq, Missing, q, f);
      NamedOverlay(rq', Missing, q, f);
      forall k | LastFiled(rq.files, k, q)
        ensures 0 <= k < |rq.files| && rq'.files[k] == rq.files[k]
      {
        InRange(rq.files, k, q);
      }
    }
  }

  lemma InRange(files: seq<PushFile>, k: int, q: string)
    requires LastFiled(files, k, q)
    ensures 0 <= k < |files|
  {
  }

  // ---- which removals remove ----

  /** After the push nothing is at q, whatever was there before. */
  ghost predicate Emptied(rq: Request, q: string) {
    forall base, f :: WellFormedSide(base) ==> !Overlaid(rq, base, "", q, f)
  }

  /** A tree with one file, at q. */
  ghost function TreeWith(q: string, f: File): Tree
    decreases |q|
  {
    if '/' in q then Tree(ZERO, [], [Sub(Head(q), TreeWith(Below(Head(q), q), f))]) else Tree(ZERO, [f], [])
  }

  lemma {:induction false} TreeWithHolds(q: string, f: File)
    requires GoodRel(q) && |q| < 0x1_0000_0000 && f.name == BaseOf(q)
    ensures WellFormed(TreeWith(q, f)) && Holds(TreeWith(q, f), q, f)
    decreases |q|
  {
    hide LastSlash;
    if '/' in q {
      var n := Head(q);
      var r := Below(n, q);
      BelowJoins(n, q);
      BaseBelow(n, r);
      TreeWithHolds(r, f);
      var s := Sub(n, TreeWith(r, f));
      assert s in TreeWith(q, f).dirs && GoodName(n);
    } else {
      Splits(q);
    }
  }

  /** A place is emptied exactly when a removal and no file is filed there. */
  lemma EmptiedIff(rq: Request, q: string)
    requires Named(rq) && GoodRel(q) && |q| < 0x1_0000_0000
    ensures Emptied(rq, q) <==> NoneFiled(rq.files, q) && RemovalFiled(rq.removed, q)
  {
    hide Overlaid, FileOf, NamedPath, NoneFiled, RemovalFiled, LastFiled, WellFormed, Holds, TreeWith, BaseOf, GoodRel;
    if NoneFiled(rq.files, q) && RemovalFiled(rq.removed, q) {
      forall base, f | WellFormedSide(base) ensures !Overlaid(rq, base, "", q, f) {
        NamedOverlay(rq, base, q, f);
        NoLast(rq.files, q);
      }
    } else if NoneFiled(rq.files, q) {
      var f := File(BaseOf(q), 0, 0, false, "", ZERO, []);
      TreeWithHolds(q, f);
      NamedOverlay(rq, Present(TreeWith(q, f)), q, f);
    } else {
      var i := FindLast(rq.files, q);
      InRange(rq.files, i, q);
      NamedOverlay(rq, Missing, q, FileOf(rq.files[i]));
    }
  }

  lemma NoLast(files: seq<PushFile>, q: string)
    requires NoneFiled(files, q)
    ensures forall i :: !LastFiled(files, i, q)
  {
  }

  /** A removal, among the files of its request, empties its path exactly when the
      path is not lost and no file is filed as the same path. */
  lemma RemovesIff(rq: Request, r: string)
    requires Named(rq) && r in rq.removed
    ensures Emptied(Request(rq.files, [r]), Unslashed(r)) <==> !Lost(r) && NoneFiled(rq.files, Unslashed(r))
    ensures !Lost(r) && NoneFiled(rq.files, Unslashed(r)) ==> Emptied(rq, Unslashed(r))
  {
    hide Emptied, NoneFiled, GoodRel;
    var q := Unslashed(r);
    EmptiedIff(Request(rq.files, [r]), q);
    EmptiedIff(rq, q);
    assert r in [r];
  }

  // ---- lost paths ----

  function KeptFiles(files: seq<PushFile>): seq<PushFile> {
    if files == [] then []
    else
      var last := files[|files| - 1];
      KeptFiles(files[..|files| - 1]) + if Lost(last.path) then [] else [last]
  }

  function KeptRemovals(removed: seq<string>): seq<string> {
    if removed == [] then []
    else
      var last := removed[|removed| - 1];
      KeptRemovals(removed[..|removed| - 1]) + if Lost(last) then [] else [last]
  }

  lemma {:induction false} KeptFilePlaces(files: seq<PushFile>, q: string)
    requires GoodRel(q)
    ensures LastAt(KeptFiles(files), DirOf(q), BaseOf(q)) == LastAt(files, DirOf(q), BaseOf(q))
  {
    hide DirOf, BaseOf, Lost, GoodRel;
    if files != [] {
      var init, last := files[..|files| - 1], files[|files| - 1];
      KeptFilePlaces(init, q);
      if Lost(last.path) {
        LostElsewhere(last.path, q);
        assert KeptFiles(files) == KeptFiles(init);
      } else {
        assert (KeptFiles(init) + [last])[..|KeptFiles(init)|] == KeptFiles(init);
      }
    }
  }

  lemma {:induction false} InKeptRemovals(removed: seq<string>, r: string)
    ensures r in KeptRemovals(removed) <==> r in removed && !Lost(r)
  {
    hide Lost;
    if removed != [] {
      var init, last := removed[..|removed| - 1], removed[|removed| - 1];
      InKeptRemovals(init, r);
      assert removed == init + [last];
    }
  }

  lemma KeptRemovalPlaces(removed: seq<string>, q: string)
    requires GoodRel(q)
    ensures RemovedAt(KeptRemovals(removed), DirOf(q), BaseOf(q)) <==> RemovedAt(removed, DirOf(q), BaseOf(q))
  {
    hide DirOf, BaseOf, Lost, GoodRel, KeptRemovals;
    forall r ensures r in KeptRemovals(removed) <==> r in removed && !Lost(r) {
      InKeptRemovals(removed, r);
    }
    forall r | Lost(r) ensures !SamePlace(r, q) {
      LostElsewhere(r, q);
    }
  }

  /** Leaving the lost files and removals out of a request changes nothing. */
  lemma LostHasNoEffect(rq: Request, base: MaybeTree, q: string, f: File)
    ensures Overlaid(Request(KeptFiles(rq.files), KeptRemovals(rq.removed)), base, "", q, f) <==>
            Overlaid(rq, base, "", q, f)
  {
    hide LastAt, RemovedAt, DirOf, BaseOf, HoldsIn, FileOf, GoodRel, KeptFiles, KeptRemovals;
    assert Join("", q) == q;
    if GoodRel(q) {
      KeptFilePlaces(rq.files, q);
      KeptRemovalPlaces(rq.removed, q);
    }
  }

  // ---- a file that is overridden ----

  /** Validation accepts the same place under two spellings, and then the first file
      is not kept. */
  lemma TwoSpellings(a: PushFile, b: PushFile)
    requires a.path == "a" && b.path == "/a"
    ensures Validated(Request([a, b], [])) && !Lands(Request([a, b], []), 0) && Lands(Request([a, b], []), 1)
  {
    hide Lands;
    var rq := Request([a, b], []);
    assert b.path[1..] == "a" && Unslashed(b.path) == "a" && Unslashed(a.path) == "a";
    assert '/' !in "a" && GoodSegments("a");
    ValidatedIsNamed(rq);
    assert rq.files[1] == b && FiledAt(b.path, "a");
    LandsIff(rq, 0);
    LandsIff(rq, 1);
  }
}
