/** Changes in different parts of the base splice cleanly: the merge is the base
    with the replacements of both sides put in. */
module DisjointMerge {
  import opened ChangeLists
  import opened MergeText
  import opened MergeAlgebra
  import opened Clusters

  /** No range of one list meets a range of the other. */
  ghost predicate Disjoint(ra: seq<Range>, rb: seq<Range>) {
    forall r, s :: r in ra && s in rb ==> !Meet(r, s)
  }

  function Slice(s: seq<Line>, i: int, j: int): seq<Line> {
    if 0 <= i <= j <= |s| then s[i..j] else []
  }

  /** What a range puts in the place of its base lines. */
  function Replacement(m: Texts, r: Range): seq<Line> {
    Slice(if r.side.Ours? then m.ours else m.theirs, r.bStart, r.bEnd)
  }

  /** The base from x on with the ranges replaced. */
  function Spliced(m: Texts, all: seq<Range>, x: int): seq<Line> {
    if all == [] then Slice(m.base, x, |m.base|)
    else Slice(m.base, x, all[0].aStart) + (Replacement(m, all[0]) + Spliced(m, all[1..], all[0].aEnd))
  }

  // ---- clusters of one range ----

  lemma NextApart(rs: seq<Range>, side: Side)
    requires Listed(rs, side) && |rs| > 1
    ensures !Intersects(rs[0].aStart, rs[0].aEnd, rs[1])
  {
    ListedTail(rs, side);
    assert rs[1] in rs;
  }

  lemma OneOurs(ra: seq<Range>, rb: seq<Range>)
    requires Listed(ra, Ours) && Listed(rb, Theirs) && Disjoint(ra, rb) && OursNext(ra, rb, 0, 0)
    ensures FirstCluster(ra, rb) == Cluster(1, 0, ra[0].aEnd)
  {
    hide Listed, Intersects, Before, Meet;
    Proper(ra, Ours, 0);
    if |ra| > 1 {
      NextApart(ra, Ours);
    }
    if rb != [] {
      Proper(rb, Theirs, 0);
      MeetIff(ra[0], rb[0]);
    }
  }

  lemma OneTheirs(ra: seq<Range>, rb: seq<Range>)
    requires Listed(ra, Ours) && Listed(rb, Theirs) && Disjoint(ra, rb) && !OursNext(ra, rb, 0, 0) && rb != []
    ensures FirstCluster(ra, rb) == Cluster(0, 1, rb[0].aEnd)
  {
    hide Listed, Intersects, Before, Meet;
    Proper(rb, Theirs, 0);
    if |rb| > 1 {
      NextApart(rb, Theirs);
    }
    if ra != [] {
      Proper(ra, Ours, 0);
      MeetIff(rb[0], ra[0]);
      if Meet(rb[0], ra[0]) {
        MeetFlip(rb[0], ra[0]);
      }
    }
  }

  lemma DisjointFrom(ra: seq<Range>, rb: seq<Range>, i: nat, j: nat)
    requires Disjoint(ra, rb) && i <= |ra| && j <= |rb|
    ensures Disjoint(ra[i..], rb[j..])
  {
    hide Meet;
    assert forall r :: r in ra[i..] ==> r in ra;
    assert forall s :: s in rb[j..] ==> s in rb;
  }

  lemma InterleaveStep(ra: seq<Range>, rb: seq<Range>)
    requires ra != [] || rb != []
    ensures OursNext(ra, rb, 0, 0) ==> Interleave(ra, rb) == [ra[0]] + Interleave(ra[1..], rb[0..])
    ensures !OursNext(ra, rb, 0, 0) ==> rb != [] && Interleave(ra, rb) == [rb[0]] + Interleave(ra[0..], rb[1..])
  {
    hide Before;
    assert ra[0..] == ra && rb[0..] == rb;
    if rb == [] {
      assert ra == [ra[0]] + ra[1..];
    } else if ra == [] {
      assert rb == [rb[0]] + rb[1..];
    }
  }

  lemma SplicedStep(m: Texts, r: Range, rest: seq<Range>, x: int)
    ensures Spliced(m, [r] + rest, x) ==
            Slice(m.base, x, r.aStart) + (Replacement(m, r) + Spliced(m, rest, r.aEnd))
  {
    hide Slice, Replacement;
    assert ([r] + rest)[1..] == rest;
  }

  // ---- one range at a time ----

  /** A side's first range is where the region of its cluster puts it. */
  lemma Lengths(rs: seq<Range>, base: seq<Line>, lines: seq<Line>, x: int, y: int)
    requires Changes(rs, base, lines, x, y) && rs != []
    ensures 0 <= x <= rs[0].aStart <= rs[0].aEnd <= |base| && y <= rs[0].bStart <= rs[0].bEnd <= |lines|
    ensures rs[0].bStart == y + (rs[0].aStart - x)
  {
    assert |base[x..rs[0].aStart]| == |lines[y..rs[0].bStart]|;
  }

  lemma SideOf(rs: seq<Range>, side: Side)
    requires Listed(rs, side) && rs != []
    ensures rs[0].side == side
  {
    assert rs[0] in rs;
  }

  lemma OursRegions(m: Texts, ra: seq<Range>, rb: seq<Range>, x: int, o: int, t: int)
    requires m.At(ra, rb, x, o, t) && Disjoint(ra, rb) && OursNext(ra, rb, 0, 0)
    ensures var g, r := GapRegion(ra, rb, x, o, t), ClusterRegion(ra, rb, x, o, t);
            && m.In(g) && m.In(r) && !m.Of(g).Conflict() && !m.Of(r).Conflict()
            && m.Of(g).Resolved() == Slice(m.base, x, ra[0].aStart)
            && m.Of(r).Resolved() == Replacement(m, ra[0]) && r.b1 == ra[0].aEnd
  {
    hide Changes, Listed, FirstCluster, Disjoint, Before;
    ClusterStep(m, ra, rb, x, o, t);
    OneOurs(ra, rb);
    Lengths(ra, m.base, m.ours, x, o);
    SideOf(ra, Ours);
  }

  lemma TheirsRegions(m: Texts, ra: seq<Range>, rb: seq<Range>, x: int, o: int, t: int)
    requires m.At(ra, rb, x, o, t) && Disjoint(ra, rb) && !OursNext(ra, rb, 0, 0) && rb != []
    ensures var g, r := GapRegion(ra, rb, x, o, t), ClusterRegion(ra, rb, x, o, t);
            && m.In(g) && m.In(r) && !m.Of(g).Conflict() && !m.Of(r).Conflict()
            && m.Of(g).Resolved() == Slice(m.base, x, rb[0].aStart)
            && m.Of(r).Resolved() == Replacement(m, rb[0]) && r.b1 == rb[0].aEnd
  {
    hide Changes, Listed, FirstCluster, Disjoint, Before;
    ClusterStep(m, ra, rb, x, o, t);
    OneTheirs(ra, rb);
    Lengths(rb, m.base, m.theirs, x, t);
    SideOf(rb, Theirs);
  }

  lemma {:induction false} DisjointRegions(m: Texts, ra: seq<Range>, rb: seq<Range>, x: int, o: int, t: int)
    requires m.At(ra, rb, x, o, t) && Disjoint(ra, rb)
    ensures var rs := Regions(ra, rb, x, o, t, m.Whole());
            && m.AllIn(rs) && !m.Conflicted(rs) && m.Merged(rs) == Spliced(m, Interleave(ra, rb), x)
    decreases |ra| + |rb|
  {
    hide Regions, Changes, Listed, FirstCluster, Disjoint, Before, Interleave, Spliced, Slice, Replacement;
    hide Texts.Merged, Texts.Conflicted, Texts.Resolved, Texts.Conflict;
    if ra == [] && rb == [] {
      LastRegion(m, ra, rb, x, o, t);
      OneRegion(m, Region(x, |m.base|, o, |m.ours|, t, |m.theirs|));
      NothingLeft(m, ra, rb, x, o, t);
    } else {
      var g, r, c := GapRegion(ra, rb, x, o, t), ClusterRegion(ra, rb, x, o, t), FirstCluster(ra, rb);
      ClusterStep(m, ra, rb, x, o, t);
      RegionsStep(ra, rb, x, o, t, m.Whole());
      InterleaveStep(ra, rb);
      if OursNext(ra, rb, 0, 0) {
        OneOurs(ra, rb);
        OursRegions(m, ra, rb, x, o, t);
        SplicedStep(m, ra[0], Interleave(ra[1..], rb[0..]), x);
      } else {
        OneTheirs(ra, rb);
        TheirsRegions(m, ra, rb, x, o, t);
        SplicedStep(m, rb[0], Interleave(ra[0..], rb[1..]), x);
      }
      DisjointFrom(ra, rb, c.ours, c.theirs);
      DisjointRegions(m, ra[c.ours..], rb[c.theirs..], r.b1, r.o1, r.t1);
      TwoRegions(m, g, r, Regions(ra[c.ours..], rb[c.theirs..], r.b1, r.o1, r.t1, m.Whole()));
    }
  }

  lemma NothingLeft(m: Texts, ra: seq<Range>, rb: seq<Range>, x: int, o: int, t: int)
    requires m.At(ra, rb, x, o, t) && ra == [] && rb == []
    ensures var last := Region(x, |m.base|, o, |m.ours|, t, |m.theirs|);
            && m.In(last) && !m.Of(last).Conflict()
            && m.Of(last).Resolved() == Spliced(m, Interleave(ra, rb), x)
  {
    hide Regions;
    LastRegion(m, ra, rb, x, o, t);
  }

  /** Whole texts: where no change of ours meets one of theirs, the merge has no
      conflict and is the base with both sides' replacements. */
  lemma DisjointChanges(m: Texts)
    requires Disjoint(OurChanges(m), TheirChanges(m))
    ensures !m.Conflicted(MergeRegions(m))
    ensures m.Merged(MergeRegions(m)) == Spliced(m, Interleave(OurChanges(m), TheirChanges(m)), 0)
  {
    hide ChangeList, Regions, Changes, Listed, FirstCluster, Spliced, Interleave, Meet;
    Start(m);
    DisjointRegions(m, OurChanges(m), TheirChanges(m), 0, 0, 0);
    if m.base == [] {
      EmptyBase(m);
      OneSideChanged(m);
    }
  }

  /** Two insertions into an empty base always meet. */
  lemma OneSideChanged(m: Texts)
    requires m.base == [] && Disjoint(OurChanges(m), TheirChanges(m))
    ensures var rs := Regions(OurChanges(m), TheirChanges(m), 0, 0, 0, m.Whole());
            m.AllIn(rs) && m.Resolved() == m.Merged(rs) && !m.Conflict()
  {
    hide ChangeList, Regions, Changes, Listed, FirstCluster, Texts.Merged, SharesLine;
    var ra, rb := OurChanges(m), TheirChanges(m);
    Start(m);
    ChangesBounds(ra, m.base, m.ours, 0, 0);
    ChangesBounds(rb, m.base, m.theirs, 0, 0);
    assert ra != [] ==> ra[0] in ra;
    assert rb != [] ==> rb[0] in rb;
    if ra == [] {
      KeptOurs(m, rb, 0, 0, 0);
    } else if rb == [] {
      KeptTheirs(m, ra, 0, 0, 0);
    }
  }
}
