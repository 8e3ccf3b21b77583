/** Laws of the text merge: an unchanged side yields the other side, the same
    change on both sides is taken once, and the sides are interchangeable. */
module MergeAlgebra {
  import opened Basics
  import opened EditScript
  import opened ChangeLists
  import opened MergeText

  // ---- one side unchanged ----

  lemma NoChanges(base: seq<Line>, side: Side)
    ensures ChangeList(base, base, side) == []
  {
    hide ChangeList;
    ChangeListIsChanges(base, base, side);
    var rs := ChangeList(base, base, side);
    assert Aligned([], base, base, 0, 0);
    assert Weight(rs) <= Weight([]);
    WeightPositive(rs, base, base, 0, 0);
  }

  /** The lines a merge yields when one side made no change from here on. */
  lemma {:induction false} KeptOurs(m: Texts, rb: seq<Range>, x: int, o: int, t: int)
    requires m.At([], rb, x, o, t)
    ensures var rs := Regions([], rb, x, o, t, m.Whole());
            && m.AllIn(rs) && 0 <= t <= |m.theirs| && m.Merged(rs) == m.theirs[t..] && !m.Conflicted(rs)
    decreases |rb|
  {
    hide Regions, Changes, Listed, FirstCluster, Texts.Merged, Texts.Conflicted, Texts.Tile;
    if rb == [] {
      LastRegion(m, [], rb, x, o, t);
      OneRegion(m, Region(x, |m.base|, o, |m.ours|, t, |m.theirs|));
    } else {
      var g, r, c := GapRegion([], rb, x, o, t), ClusterRegion([], rb, x, o, t), FirstCluster([], rb);
      ClusterStep(m, [], rb, x, o, t);
      RegionsStep([], rb, x, o, t, m.Whole());
      var none: seq<Range> := [];
      assert none[c.ours..] == none;
      KeptOurs(m, rb[c.theirs..], r.b1, r.o1, r.t1);
      TwoRegions(m, g, r, Regions([], rb[c.theirs..], r.b1, r.o1, r.t1, m.Whole()));
      Pieces(m.theirs, t, r.t0, r.t1);
    }
  }

  lemma {:induction false} KeptTheirs(m: Texts, ra: seq<Range>, x: int, o: int, t: int)
    requires m.At(ra, [], x, o, t)
    ensures var rs := Regions(ra, [], x, o, t, m.Whole());
            && m.AllIn(rs) && 0 <= o <= |m.ours| && m.Merged(rs) == m.ours[o..] && !m.Conflicted(rs)
    decreases |ra|
  {
    hide Regions, Changes, Listed, FirstCluster, Texts.Merged, Texts.Conflicted, Texts.Tile;
    if ra == [] {
      LastRegion(m, ra, [], x, o, t);
      OneRegion(m, Region(x, |m.base|, o, |m.ours|, t, |m.theirs|));
    } else {
      var g, r, c := GapRegion(ra, [], x, o, t), ClusterRegion(ra, [], x, o, t), FirstCluster(ra, []);
      ClusterStep(m, ra, [], x, o, t);
      RegionsStep(ra, [], x, o, t, m.Whole());
      var none: seq<Range> := [];
      assert none[c.theirs..] == none;
      KeptTheirs(m, ra[c.ours..], r.b1, r.o1, r.t1);
      TwoRegions(m, g, r, Regions(ra[c.ours..], [], r.b1, r.o1, r.t1, m.Whole()));
      Pieces(m.ours, o, r.o0, r.o1);
    }
  }

  lemma OneRegion(m: Texts, r: Region)
    requires m.In(r)
    ensures m.AllIn([r]) && m.Merged([r]) == m.Of(r).Resolved() && m.Conflicted([r]) == m.Of(r).Conflict()
  {
    assert [r][1..] == [];
  }

  lemma TwoRegions(m: Texts, g: Region, r: Region, rest: seq<Region>)
    requires m.In(g) && m.In(r) && m.AllIn(rest)
    ensures var rs := [g] + ([r] + rest);
            && m.AllIn(rs) && m.Merged(rs) == m.Of(g).Resolved() + (m.Of(r).Resolved() + m.Merged(rest))
            && m.Conflicted(rs) == (m.Of(g).Conflict() || m.Of(r).Conflict() || m.Conflicted(rest))
  {
    hide Texts.Resolved, Texts.Conflict;
    var rs := [g] + ([r] + rest);
    assert rs[1..] == [r] + rest && ([r] + rest)[1..] == rest;
    assert forall q :: q in rs <==> q == g || q == r || q in rest;
  }

  lemma Pieces(s: seq<Line>, i: int, j: int, k: int)
    requires 0 <= i <= j <= k <= |s|
    ensures s[i..j] + (s[j..k] + s[k..]) == s[i..]
  {
  }

  /** Merging into unchanged ours takes theirs as it is. */
  lemma OursUnchanged(m: Texts)
    requires m.ours == m.base
    ensures m.Merged(MergeRegions(m)) == m.theirs && !m.Conflicted(MergeRegions(m))
  {
    hide ChangeList, Regions, Changes, Listed, FirstCluster;
    if m.base == [] {
      EmptyBase(m);
    } else {
      NoChanges(m.base, Ours);
      Start(m);
      KeptOurs(m, TheirChanges(m), 0, 0, 0);
    }
  }

  /** Merging unchanged theirs keeps ours as it is. */
  lemma TheirsUnchanged(m: Texts)
    requires m.theirs == m.base
    ensures m.Merged(MergeRegions(m)) == m.ours && !m.Conflicted(MergeRegions(m))
  {
    hide ChangeList, Regions, Changes, Listed, FirstCluster;
    if m.base == [] {
      EmptyBase(m);
    } else {
      NoChanges(m.base, Theirs);
      Start(m);
      KeptTheirs(m, OurChanges(m), 0, 0, 0);
    }
  }

  // ---- exchanging the sides ----

  function Flip(r: Range): Range {
    r.(side := if r.side.Ours? then Theirs else Ours)
  }

  function FlipAll(rs: seq<Range>): (fs: seq<Range>)
    ensures |fs| == |rs| && forall i :: 0 <= i < |rs| ==> fs[i] == Flip(rs[i])
  {
    if rs == [] then [] else [Flip(rs[0])] + FlipAll(rs[1..])
  }

  lemma FlipFrom(rs: seq<Range>, i: nat)
    requires i <= |rs|
    ensures FlipAll(rs)[i..] == FlipAll(rs[i..])
  {
  }

  lemma {:induction false} RangesFlip(ops: seq<Op<Line>>, x: nat, y: nat, side: Side)
    ensures Ranges(ops, x, y, if side.Ours? then Theirs else Ours) == FlipAll(Ranges(ops, x, y, side))
    decreases |ops|
  {
    if ops != [] {
      var other := if side.Ours? then Theirs else Ours;
      RangesStep(ops, x, y, side);
      RangesStep(ops, x, y, other);
      if ops[0].kind.Equal? {
        RangesFlip(ops[1..], ops[0].posA + 1, ops[0].posB + 1, side);
      } else {
        var n := EditRun(ops);
        RangesFlip(ops[n..], x + Count(ops[..n], Removed), y + Count(ops[..n], Added), side);
      }
    }
  }

  lemma ChangeListFlip(base: seq<Line>, lines: seq<Line>)
    ensures ChangeList(base, lines, Theirs) == FlipAll(ChangeList(base, lines, Ours))
    ensures ChangeList(base, lines, Ours) == FlipAll(ChangeList(base, lines, Theirs))
  {
    hide Ranges;
    RangesFlip(LineGrid(base, lines).Diff(), 0, 0, Ours);
    RangesFlip(LineGrid(base, lines).Diff(), 0, 0, Theirs);
  }

  /** A range that meets a cluster still meets it once it is part of it. */
  lemma StillMeets(s: nat, e: nat, r: Range)
    requires Intersects(s, e, r) && s <= e && r.aStart <= r.aEnd
    ensures Intersects(s, Max(e, r.aEnd), r) && Max(Max(e, r.aEnd), r.aEnd) == Max(e, r.aEnd)
  {
  }

  lemma GrowStep(ra: seq<Range>, rb: seq<Range>, s: nat, e: nat, i: nat, j: nat)
    requires i <= |ra| && j <= |rb|
    ensures OursNext(ra, rb, i, j) ==>
      Grow(ra, rb, s, e, i, j) ==
      if Intersects(s, e, ra[i]) then Grow(ra, rb, s, Max(e, ra[i].aEnd), i + 1, j) else Cluster(i, j, e)
    ensures !OursNext(ra, rb, i, j) && j < |rb| ==>
      Grow(ra, rb, s, e, i, j) ==
      if Intersects(s, e, rb[j]) then Grow(ra, rb, s, Max(e, rb[j].aEnd), i, j + 1) else Cluster(i, j, e)
    ensures i == |ra| && j == |rb| ==> Grow(ra, rb, s, e, i, j) == Cluster(i, j, e)
  {
  }

  lemma ListedAt(rs: seq<Range>, side: Side, i: nat)
    requires Listed(rs, side) && i < |rs|
    ensures rs[i].side == side && rs[i].aStart <= rs[i].aEnd
    ensures i + 1 < |rs| ==> rs[i].aEnd < rs[i + 1].aStart && rs[i + 1].side == side
  {
    assert i + 1 < |rs| ==> rs[i + 1 - 1].aEnd < rs[i + 1].aStart && rs[i + 1] in rs;
  }

  ghost predicate Twins(r: Range, q: Range) {
    r.aStart == q.aStart && r.aEnd == q.aEnd
  }

  /** Two changes of the same base range enter a cluster together. */
  lemma TwinStep(ra: seq<Range>, rb: seq<Range>, s: nat, e: nat, i: nat, j: nat)
    requires Listed(ra, Ours) && Listed(rb, Theirs) && s <= e && i < |ra| && j < |rb| && Twins(ra[i], rb[j])
    ensures Grow(ra, rb, s, e, i, j) ==
            if Intersects(s, e, ra[i]) then Grow(ra, rb, s, Max(e, ra[i].aEnd), i + 1, j + 1) else Cluster(i, j, e)
  {
    hide Grow, Listed;
    ListedAt(ra, Ours, i);
    ListedAt(rb, Theirs, j);
    GrowStep(ra, rb, s, e, i, j);
    if Intersects(s, e, ra[i]) {
      StillMeets(s, e, ra[i]);
      assert !OursNext(ra, rb, i + 1, j);
      GrowStep(ra, rb, s, Max(e, ra[i].aEnd), i + 1, j);
    }
  }

  lemma FlipListed(rs: seq<Range>, side: Side)
    requires Listed(rs, side)
    ensures Listed(FlipAll(rs), if side.Ours? then Theirs else Ours)
  {
    var fs := FlipAll(rs);
    forall i | 0 < i < |fs|
      ensures fs[i - 1].aEnd < fs[i].aStart
    {
      assert rs[i - 1].aEnd < rs[i].aStart;
    }
  }

  ghost predicate Mirror(c: Cluster, d: Cluster) {
    d.ours == c.theirs && d.theirs == c.ours && d.end == c.end
  }

  /** Exchanging the sides grows the same cluster. */
  lemma {:induction false} GrowFlip(ra: seq<Range>, rb: seq<Range>, s: nat, e: nat, i: nat, j: nat)
    requires Listed(ra, Ours) && Listed(rb, Theirs) && s <= e && i <= |ra| && j <= |rb|
    ensures Mirror(Grow(ra, rb, s, e, i, j), Grow(FlipAll(rb), FlipAll(ra), s, e, j, i))
    decreases |ra| - i + |rb| - j
  {
    hide Grow, Listed, Intersects, Before, Twins, FlipAll;
    if i < |ra| && j < |rb| && Twins(ra[i], rb[j]) {
      if Intersects(s, e, ra[i]) {
        GrowFlip(ra, rb, s, Max(e, ra[i].aEnd), i + 1, j + 1);
      }
      TwinFlip(ra, rb, s, e, i, j);
    } else {
      if OursNext(ra, rb, i, j) && Intersects(s, e, ra[i]) {
        GrowFlip(ra, rb, s, Max(e, ra[i].aEnd), i + 1, j);
      }
      if !OursNext(ra, rb, i, j) && j < |rb| && Intersects(s, e, rb[j]) {
        GrowFlip(ra, rb, s, Max(e, rb[j].aEnd), i, j + 1);
      }
      StepFlip(ra, rb, s, e, i, j);
    }
  }

  /** Equal heads: both ranges join the cluster, whichever comes first. */
  lemma TwinFlip(ra: seq<Range>, rb: seq<Range>, s: nat, e: nat, i: nat, j: nat)
    requires Listed(ra, Ours) && Listed(rb, Theirs) && s <= e && i < |ra| && j < |rb| && Twins(ra[i], rb[j])
    requires Intersects(s, e, ra[i]) ==>
      var next := Max(e, ra[i].aEnd);
      Mirror(Grow(ra, rb, s, next, i + 1, j + 1), Grow(FlipAll(rb), FlipAll(ra), s, next, j + 1, i + 1))
    ensures Mirror(Grow(ra, rb, s, e, i, j), Grow(FlipAll(rb), FlipAll(ra), s, e, j, i))
  {
    hide Grow, Listed, Intersects, Before;
    var fa, fb := FlipAll(ra), FlipAll(rb);
    FlipListed(ra, Ours);
    FlipListed(rb, Theirs);
    TwinStep(ra, rb, s, e, i, j);
    TwinStep(fb, fa, s, e, j, i);
    MeetsFlip(s, e, ra[i], fb[j]);
  }

  /** Which side comes next is the same question with the sides exchanged. */
  lemma NextFlip(ra: seq<Range>, rb: seq<Range>, i: nat, j: nat)
    requires Listed(ra, Ours) && Listed(rb, Theirs) && i <= |ra| && j <= |rb| && (i < |ra| || j < |rb|)
    requires !(i < |ra| && j < |rb| && Twins(ra[i], rb[j]))
    ensures OursNext(FlipAll(rb), FlipAll(ra), j, i) == !OursNext(ra, rb, i, j)
  {
    hide Listed;
    if i < |ra| { ListedAt(ra, Ours, i); }
    if j < |rb| { ListedAt(rb, Theirs, j); }
  }

  lemma FlipTwin(rs: seq<Range>, i: nat)
    requires i < |rs|
    ensures i < |FlipAll(rs)| && Twins(rs[i], FlipAll(rs)[i])
  {
  }

  /** Different heads: the cluster takes one and grows on. */
  lemma StepFlip(ra: seq<Range>, rb: seq<Range>, s: nat, e: nat, i: nat, j: nat)
    requires Listed(ra, Ours) && Listed(rb, Theirs) && s <= e && i <= |ra| && j <= |rb|
    requires !(i < |ra| && j < |rb| && Twins(ra[i], rb[j]))
    requires OursNext(ra, rb, i, j) && Intersects(s, e, ra[i]) ==>
      var next := Max(e, ra[i].aEnd);
      Mirror(Grow(ra, rb, s, next, i + 1, j), Grow(FlipAll(rb), FlipAll(ra), s, next, j, i + 1))
    requires !OursNext(ra, rb, i, j) && j < |rb| && Intersects(s, e, rb[j]) ==>
      var next := Max(e, rb[j].aEnd);
      Mirror(Grow(ra, rb, s, next, i, j + 1), Grow(FlipAll(rb), FlipAll(ra), s, next, j + 1, i))
    ensures Mirror(Grow(ra, rb, s, e, i, j), Grow(FlipAll(rb), FlipAll(ra), s, e, j, i))
  {
    hide Grow, Listed, Intersects, OursNext, FlipAll;
    var fa, fb := FlipAll(ra), FlipAll(rb);
    GrowStep(ra, rb, s, e, i, j);
    GrowStep(fb, fa, s, e, j, i);
    NextBounds(ra, rb, i, j);
    if i < |ra| || j < |rb| {
      NextFlip(ra, rb, i, j);
    }
    if i < |ra| {
      FlipTwin(ra, i);
      MeetsFlip(s, e, ra[i], fa[i]);
    }
    if j < |rb| {
      FlipTwin(rb, j);
      MeetsFlip(s, e, rb[j], fb[j]);
    }
  }

  lemma NextBounds(ra: seq<Range>, rb: seq<Range>, i: nat, j: nat)
    requires i <= |ra| && j <= |rb|
    ensures OursNext(ra, rb, i, j) ==> i < |ra|
    ensures !OursNext(ra, rb, i, j) && i < |ra| ==> j < |rb|
  {
    hide Before;
  }

  lemma MeetsFlip(s: nat, e: nat, r: Range, q: Range)
    requires Twins(r, q)
    ensures Intersects(s, e, r) == Intersects(s, e, q)
  {
  }

  lemma FirstFlip(ra: seq<Range>, rb: seq<Range>)
    requires Listed(ra, Ours) && Listed(rb, Theirs) && (ra != [] || rb != [])
    ensures Twins(First(ra, rb), First(FlipAll(rb), FlipAll(ra)))
    ensures Mirror(FirstCluster(ra, rb), FirstCluster(FlipAll(rb), FlipAll(ra)))
  {
    hide Grow, Listed;
    var fa, fb := FlipAll(ra), FlipAll(rb);
    if ra != [] { ListedAt(ra, Ours, 0); }
    if rb != [] { ListedAt(rb, Theirs, 0); }
    var r := First(ra, rb);
    if ra != [] && rb != [] && Twins(ra[0], rb[0]) {
      FlipListed(ra, Ours);
      FlipListed(rb, Theirs);
      SecondTwin(ra, rb);
      SecondTwin(fb, fa);
      GrowFlip(ra, rb, r.aStart, r.aEnd, 1, 1);
    } else if OursNext(ra, rb, 0, 0) {
      assert !OursNext(fb, fa, 0, 0);
      GrowFlip(ra, rb, r.aStart, r.aEnd, 1, 0);
    } else {
      assert OursNext(fb, fa, 0, 0);
      GrowFlip(ra, rb, r.aStart, r.aEnd, 0, 1);
    }
  }

  /** A cluster that begins with twins takes both at once. */
  lemma SecondTwin(ra: seq<Range>, rb: seq<Range>)
    requires Listed(ra, Ours) && Listed(rb, Theirs) && ra != [] && rb != [] && Twins(ra[0], rb[0])
    ensures FirstCluster(ra, rb) == Grow(ra, rb, ra[0].aStart, ra[0].aEnd, 1, 1)
  {
    hide Grow, Listed;
    ListedAt(ra, Ours, 0);
    ListedAt(rb, Theirs, 0);
    assert OursNext(ra, rb, 0, 0) && !OursNext(ra, rb, 1, 0);
    GrowStep(ra, rb, ra[0].aStart, ra[0].aEnd, 1, 0);
  }

  function SwapRegion(r: Region): Region {
    Region(r.b0, r.b1, r.t0, r.t1, r.o0, r.o1)
  }

  function SwapRegions(rs: seq<Region>): seq<Region> {
    if rs == [] then [] else [SwapRegion(rs[0])] + SwapRegions(rs[1..])
  }

  function Swapped(m: Texts): Texts {
    Texts(m.base, m.theirs, m.ours)
  }

  lemma SwapTwo(g: Region, r: Region, rest: seq<Region>)
    ensures SwapRegions([g] + ([r] + rest)) == [SwapRegion(g)] + ([SwapRegion(r)] + SwapRegions(rest))
  {
    assert ([g] + ([r] + rest))[1..] == [r] + rest && ([r] + rest)[1..] == rest;
  }

  /** Exchanging the sides visits the same regions with the sides exchanged. */
  lemma {:induction false} RegionsFlip(m: Texts, ra: seq<Range>, rb: seq<Range>, x: int, o: int, t: int)
    requires Listed(ra, Ours) && Listed(rb, Theirs)
    ensures Regions(FlipAll(rb), FlipAll(ra), x, t, o,
                    Swapped(m).Whole()) == SwapRegions(Regions(ra, rb, x, o, t, m.Whole()))
    decreases |ra| + |rb|
  {
    hide FirstCluster, Listed, Regions, First, FlipAll, GapRegion, ClusterRegion, SwapRegions;
    var fa, fb := FlipAll(ra), FlipAll(rb);
    if ra == [] && rb == [] {
      FlipNone();
      LastFlip(m, x, o, t);
    } else {
      var c := FirstCluster(ra, rb);
      var g, r := GapRegion(ra, rb, x, o, t), ClusterRegion(ra, rb, x, o, t);
      RegionFlip(ra, rb, x, o, t);
      RegionsStep(ra, rb, x, o, t, m.Whole());
      RegionsStep(fb, fa, x, t, o, Swapped(m).Whole());
      FlipFrom(ra, c.ours);
      FlipFrom(rb, c.theirs);
      ListedFrom(ra, Ours, c.ours);
      ListedFrom(rb, Theirs, c.theirs);
      RegionsFlip(m, ra[c.ours..], rb[c.theirs..], r.b1, r.o1, r.t1);
      SwapTwo(g, r, Regions(ra[c.ours..], rb[c.theirs..], r.b1, r.o1, r.t1, m.Whole()));
    }
  }

  lemma FlipNone()
    ensures FlipAll([]) == []
  {
  }

  /** Gap and cluster of the exchanged sides are those of the sides, exchanged. */
  lemma RegionFlip(ra: seq<Range>, rb: seq<Range>, x: int, o: int, t: int)
    requires Listed(ra, Ours) && Listed(rb, Theirs) && (ra != [] || rb != [])
    ensures var fa, fb := FlipAll(ra), FlipAll(rb);
            && (fa != [] || fb != []) && Mirror(FirstCluster(ra, rb), FirstCluster(fb, fa))
            && GapRegion(fb, fa, x, t, o) == SwapRegion(GapRegion(ra, rb, x, o, t))
            && ClusterRegion(fb, fa, x, t, o) == SwapRegion(ClusterRegion(ra, rb, x, o, t))
  {
    hide FirstCluster, Listed, First;
    FirstFlip(ra, rb);
  }

  lemma LastFlip(m: Texts, x: int, o: int, t: int)
    ensures Regions([], [], x, t, o, Swapped(m).Whole()) == SwapRegions(Regions([], [], x, o, t, m.Whole()))
  {
    var r := Region(x, |m.base|, o, |m.ours|, t, |m.theirs|);
    assert [r][1..] == [];
  }

  lemma {:induction false} MergedSwap(m: Texts, rs: seq<Region>)
    requires m.AllIn(rs)
    ensures Swapped(m).AllIn(SwapRegions(rs))
    ensures Swapped(m).Conflicted(SwapRegions(rs)) == m.Conflicted(rs)
    ensures !m.Conflicted(rs) ==> Swapped(m).Merged(SwapRegions(rs)) == m.Merged(rs)
  {
    hide Texts.Resolved, Texts.Conflict, Texts.Merged, Texts.Conflicted, Swapped, Texts.Of;
    if rs == [] {
      NothingSwapped(m);
    }
    if rs != [] {
      var r, rest := rs[0], rs[1..];
      assert r in rs && m.In(r);
      MergedSwap(m, rest);
      SwapTexts(m, r);
      MergedFirst(m, r, rest);
      MergedFirst(Swapped(m), SwapRegion(r), SwapRegions(rest));
      assert rs == [r] + rest;
    }
  }

  lemma NothingSwapped(m: Texts)
    ensures SwapRegions([]) == [] && !m.Conflicted([]) && !Swapped(m).Conflicted([])
    ensures m.Merged([]) == Swapped(m).Merged([]) == []
  {
  }

  lemma MergedFirst(m: Texts, r: Region, rest: seq<Region>)
    requires m.In(r) && m.AllIn(rest)
    ensures var rs := [r] + rest;
            && m.AllIn(rs) && m.Merged(rs) == m.Of(r).Resolved() + m.Merged(rest)
            && m.Conflicted(rs) == (m.Of(r).Conflict() || m.Conflicted(rest))
  {
    hide Texts.Resolved, Texts.Conflict;
    assert ([r] + rest)[1..] == rest;
    assert forall q :: q in [r] + rest <==> q == r || q in rest;
  }

  lemma SwapTexts(m: Texts, r: Region)
    requires m.In(r)
    ensures Swapped(m).In(SwapRegion(r)) && Swapped(m).Of(SwapRegion(r)) == Swapped(m.Of(r))
    ensures Swapped(m.Of(r)).Conflict() == m.Of(r).Conflict()
    ensures !m.Of(r).Conflict() ==> Swapped(m.Of(r)).Resolved() == m.Of(r).Resolved()
  {
  }

  /** Exchanging ours and theirs changes neither whether there is a conflict nor
      the text of a clean merge. */
  lemma SidesInterchangeable(m: Texts)
    ensures Swapped(m).Conflicted(MergeRegions(Swapped(m))) == m.Conflicted(MergeRegions(m))
    ensures !m.Conflicted(MergeRegions(m)) ==>
              Swapped(m).Merged(MergeRegions(Swapped(m))) == m.Merged(MergeRegions(m))
  {
    hide ChangeList, Regions, Texts.Merged, Texts.Conflicted, Texts.Tile, Changes, FlipAll;
    MergedSwap(m, MergeRegions(m));
    if m.base == [] {
      SwapOne(m.Whole());
    } else {
      Start(m);
      ChangeListFlip(m.base, m.ours);
      ChangeListFlip(m.base, m.theirs);
      RegionsFlip(m, OurChanges(m), TheirChanges(m), 0, 0, 0);
    }
  }

  lemma SwapOne(r: Region)
    ensures SwapRegions([r]) == [SwapRegion(r)]
  {
    assert [r][1..] == [];
  }

  // ---- the same change on both sides ----

  lemma {:induction false} GrowTwins(ra: seq<Range>, s: nat, e: nat, i: nat)
    requires Listed(ra, Ours) && s <= e && i <= |ra|
    ensures var c := Grow(ra, FlipAll(ra), s, e, i, i); c.ours == c.theirs
    decreases |ra| - i
  {
    hide Grow, Listed;
    if i == |ra| {
      GrowStep(ra, FlipAll(ra), s, e, i, i);
    } else {
      FlipListed(ra, Ours);
      TwinStep(ra, FlipAll(ra), s, e, i, i);
      if Intersects(s, e, ra[i]) {
        GrowTwins(ra, s, Max(e, ra[i].aEnd), i + 1);
      }
    }
  }

  lemma {:induction false} SameRegions(m: Texts, ra: seq<Range>, x: int, o: int)
    requires m.ours == m.theirs && m.At(ra, FlipAll(ra), x, o, o)
    ensures var rs := Regions(ra, FlipAll(ra), x, o, o, m.Whole());
            && m.AllIn(rs) && 0 <= o <= |m.ours| && m.Merged(rs) == m.ours[o..] && !m.Conflicted(rs)
    decreases |ra|
  {
    hide Regions, Changes, FirstCluster, Texts.Merged, Texts.Conflicted, Texts.Tile, Listed;
    var fa := FlipAll(ra);
    if ra == [] {
      LastRegion(m, ra, fa, x, o, o);
      OneRegion(m, Region(x, |m.base|, o, |m.ours|, o, |m.theirs|));
    } else {
      var g, r, c := GapRegion(ra, fa, x, o, o), ClusterRegion(ra, fa, x, o, o), FirstCluster(ra, fa);
      ClusterStep(m, ra, fa, x, o, o);
      RegionsStep(ra, fa, x, o, o, m.Whole());
      SecondTwin(ra, fa);
      ListedAt(ra, Ours, 0);
      GrowTwins(ra, ra[0].aStart, ra[0].aEnd, 1);
      assert r.o0 == r.t0 && r.o1 == r.t1;
      FlipFrom(ra, c.ours);
      SameRegions(m, ra[c.ours..], r.b1, r.o1);
      TwoRegions(m, g, r, Regions(ra[c.ours..], fa[c.theirs..], r.b1, r.o1, r.t1, m.Whole()));
      Pieces(m.ours, o, r.o0, r.o1);
    }
  }

  /** The same change on both sides is taken once, without a conflict. */
  lemma SameChange(m: Texts)
    requires m.ours == m.theirs
    ensures m.Merged(MergeRegions(m)) == m.ours && !m.Conflicted(MergeRegions(m))
  {
    hide ChangeList, Regions, Changes, Listed, FirstCluster, FlipAll;
    if m.base == [] {
      EmptyBase(m);
    } else {
      Start(m);
      ChangeListFlip(m.base, m.ours);
      SameRegions(m, OurChanges(m), 0, 0);
    }
  }
}
