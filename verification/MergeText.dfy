/** The diff3-style text merge.

    The merge walks both change lists at once and joins ranges that overlap in
    the base into clusters. That cuts base, ours and theirs into aligned
    regions; the result of a region depends on its three texts alone. */
module MergeText {
  import opened Basics
  import opened EditScript
  import opened ChangeLists

  // ---- ordering the ranges of both sides ----

  /** The comparison the ranges are sorted by. */
  predicate Before(r: Range, s: Range) {
    if r.aStart != s.aStart then r.aStart < s.aStart
    else if r.aEnd != s.aEnd then r.aEnd < s.aEnd
    else r.side.Ours? && s.side.Theirs?
  }

  function Insert(r: Range, s: seq<Range>): seq<Range> {
    if s == [] || Before(r, s[0]) then [r] + s else [s[0]] + Insert(r, s[1..])
  }

  function Sort(s: seq<Range>): seq<Range> {
    if s == [] then [] else Insert(s[0], Sort(s[1..]))
  }

  /** Both lists in one, by repeatedly taking the smaller head. */
  function Interleave(ra: seq<Range>, rb: seq<Range>): seq<Range>
    decreases |ra| + |rb|
  {
    if ra == [] then rb
    else if rb == [] then ra
    else if Before(ra[0], rb[0]) then [ra[0]] + Interleave(ra[1..], rb)
    else [rb[0]] + Interleave(ra, rb[1..])
  }

  /** Ordered ranges of one side with a kept line between neighbours. */
  ghost predicate Listed(rs: seq<Range>, side: Side) {
    && Separated(rs)
    && forall r :: r in rs ==> r.side == side && r.aStart <= r.aEnd
  }

  lemma ListedTail(rs: seq<Range>, side: Side)
    requires Listed(rs, side) && rs != []
    ensures Listed(rs[1..], side)
    ensures |rs| > 1 ==> rs[0].aStart <= rs[0].aEnd < rs[1].aStart
  {
    assert |rs| > 1 ==> rs[1 - 1].aEnd < rs[1].aStart;
    forall i | 0 < i < |rs[1..]|
      ensures rs[1..][i - 1].aEnd < rs[1..][i].aStart
    {
      assert rs[i + 1 - 1].aEnd < rs[i + 1].aStart;
    }
  }

  lemma {:induction false} SortListed(rs: seq<Range>, side: Side)
    requires Listed(rs, side)
    ensures Sort(rs) == rs
  {
    if rs != [] {
      ListedTail(rs, side);
      SortListed(rs[1..], side);
    }
  }

  lemma InterleaveIs(ra: seq<Range>, rb: seq<Range>)
    ensures ra == [] ==> Interleave(ra, rb) == rb
    ensures ra != [] && (rb == [] || Before(ra[0], rb[0])) ==> Interleave(ra, rb) == [ra[0]] + Interleave(ra[1..], rb)
    ensures ra != [] && rb != [] && !Before(ra[0], rb[0]) ==> Interleave(ra, rb) == [rb[0]] + Interleave(ra, rb[1..])
  {
    hide Before;
    if ra != [] && rb == [] {
      assert Interleave(ra[1..], rb) == ra[1..];
    }
  }

  lemma InsertIs(r: Range, s: seq<Range>)
    ensures Insert(r, s) == if s == [] || Before(r, s[0]) then [r] + s else [s[0]] + Insert(r, s[1..])
  {
  }

  /** Of ranges of one side the first comes before the next. */
  lemma ListedBefore(r: Range, ra: seq<Range>, side: Side)
    requires Listed([r] + ra, side) && ra != []
    ensures Before(r, ra[0])
  {
    var all := [r] + ra;
    assert all[0] in all && all[1] == ra[0] && all[1 - 1].aEnd < all[1].aStart;
  }

  lemma {:induction false} InsertInterleaved(r: Range, ra: seq<Range>, rb: seq<Range>)
    requires Listed([r] + ra, Ours) && Listed(rb, Theirs)
    ensures Insert(r, Interleave(ra, rb)) == Interleave([r] + ra, rb)
    decreases |rb|
  {
    hide Insert, Interleave, Listed, Before;
    var all := [r] + ra;
    ListedTail(all, Ours);
    assert all[1..] == ra && all[0] == r;
    InterleaveIs(ra, rb);
    InterleaveIs(all, rb);
    InsertIs(r, Interleave(ra, rb));
    if ra != [] {
      ListedBefore(r, ra, Ours);
    }
    if rb != [] && !Before(r, rb[0]) {
      ListedTail(rb, Theirs);
      if ra != [] {
        BeforeThrough(r, ra[0], rb[0]);
      }
      InterleaveIs(ra, rb[1..]);
      assert Interleave(ra, rb)[1..] == Interleave(ra, rb[1..]);
      InsertInterleaved(r, ra, rb[1..]);
    }
  }

  lemma BeforeThrough(r: Range, q: Range, t: Range)
    requires Before(r, q) && !Before(r, t)
    ensures !Before(q, t)
  {
  }

  /** Sorting the two change lists together interleaves them. */
  lemma {:induction false} SortInterleaves(ra: seq<Range>, rb: seq<Range>)
    requires Listed(ra, Ours) && Listed(rb, Theirs)
    ensures Sort(ra + rb) == Interleave(ra, rb)
    decreases |ra|
  {
    if ra == [] {
      assert ra + rb == rb;
      SortListed(rb, Theirs);
    } else {
      ListedTail(ra, Ours);
      assert (ra + rb)[1..] == ra[1..] + rb;
      SortInterleaves(ra[1..], rb);
      assert [ra[0]] + ra[1..] == ra;
      InsertInterleaved(ra[0], ra[1..], rb);
    }
  }

  // ---- clusters ----

  /** Whether a range overlaps the base span [cStart, cEnd) of a cluster. */
  predicate Intersects(cStart: nat, cEnd: nat, r: Range) {
    if cStart == cEnd && r.aStart == r.aEnd then cStart == r.aStart
    else if cStart == cEnd then r.aStart < cStart < r.aEnd
    else if r.aStart == r.aEnd then cStart < r.aStart < cEnd
    else r.aStart < cEnd && cStart < r.aEnd
  }

  /** A cluster takes the first `ours` and `theirs` ranges and ends at `end`. */
  datatype Cluster = Cluster(ours: nat, theirs: nat, end: nat)

  predicate OursNext(ra: seq<Range>, rb: seq<Range>, i: nat, j: nat) {
    i < |ra| && (j >= |rb| || Before(ra[i], rb[j]))
  }

  /** Extends a cluster that starts at s for as long as the next range meets it. */
  function Grow(ra: seq<Range>, rb: seq<Range>, s: nat, e: nat, i: nat, j: nat): (c: Cluster)
    requires i <= |ra| && j <= |rb|
    ensures i <= c.ours <= |ra| && j <= c.theirs <= |rb|
    decreases |ra| - i + |rb| - j
  {
    if OursNext(ra, rb, i, j) then
      if Intersects(s, e, ra[i]) then Grow(ra, rb, s, Max(e, ra[i].aEnd), i + 1, j) else Cluster(i, j, e)
    else if j < |rb| then
      if Intersects(s, e, rb[j]) then Grow(ra, rb, s, Max(e, rb[j].aEnd), i, j + 1) else Cluster(i, j, e)
    else Cluster(i, j, e)
  }

  function First(ra: seq<Range>, rb: seq<Range>): Range
    requires ra != [] || rb != []
  {
    if OursNext(ra, rb, 0, 0) then ra[0] else rb[0]
  }

  function FirstCluster(ra: seq<Range>, rb: seq<Range>): (c: Cluster)
    requires ra != [] || rb != []
    ensures c.ours <= |ra| && c.theirs <= |rb| && c.ours + c.theirs > 0
  {
    var r := First(ra, rb);
    if OursNext(ra, rb, 0, 0) then Grow(ra, rb, r.aStart, r.aEnd, 1, 0) else Grow(ra, rb, r.aStart, r.aEnd, 0, 1)
  }

  ghost predicate Taken(rs: seq<Range>, i: nat, e: nat) {
    forall k :: 0 <= k < i <= |rs| ==> rs[k].aEnd <= e
  }

  lemma {:induction false} GrowTakes(ra: seq<Range>, rb: seq<Range>, s: nat, e: nat, i: nat, j: nat, n: nat)
    requires i <= |ra| && j <= |rb| && e <= n && Taken(ra, i, e) && Taken(rb, j, e)
    requires Taken(ra, |ra|, n) && Taken(rb, |rb|, n)
    ensures var c := Grow(ra, rb, s, e, i, j);
            e <= c.end <= n && Taken(ra, c.ours, c.end) && Taken(rb, c.theirs, c.end)
    decreases |ra| - i + |rb| - j
  {
    if OursNext(ra, rb, i, j) {
      if Intersects(s, e, ra[i]) {
        GrowTakes(ra, rb, s, Max(e, ra[i].aEnd), i + 1, j, n);
      }
    } else if j < |rb| {
      if Intersects(s, e, rb[j]) {
        GrowTakes(ra, rb, s, Max(e, rb[j].aEnd), i, j + 1, n);
      }
    }
  }

  /** The next range of a side starts in or after the cluster, and only a
      cluster that is itself an insertion can be followed by one at its start. */
  ghost predicate Follows(rs: seq<Range>, i: nat, s: nat, e: nat) {
    i < |rs| ==> s <= rs[i].aStart <= rs[i].aEnd && (s < e ==> s < rs[i].aEnd)
  }

  lemma FollowsNext(rs: seq<Range>, side: Side, i: nat, s: nat, e: nat)
    requires Listed(rs, side) && i < |rs| && Follows(rs, i, s, e) && Intersects(s, e, rs[i])
    ensures Follows(rs, i + 1, s, Max(e, rs[i].aEnd))
    ensures s < Max(e, rs[i].aEnd) ==> s < e
  {
    if i + 1 < |rs| {
      assert rs[i + 1 - 1].aEnd < rs[i + 1].aStart && rs[i + 1] in rs;
    }
  }

  lemma {:induction false} GrowStops(ra: seq<Range>, rb: seq<Range>, s: nat, e: nat, i: nat, j: nat)
    requires Listed(ra, Ours) && Listed(rb, Theirs) && s <= e
    requires i <= |ra| && j <= |rb| && Follows(ra, i, s, e) && Follows(rb, j, s, e)
    ensures var c := Grow(ra, rb, s, e, i, j);
            && (c.ours < |ra| ==> c.end <= ra[c.ours].aStart)
            && (c.theirs < |rb| ==> c.end <= rb[c.theirs].aStart)
    decreases |ra| - i + |rb| - j
  {
    hide Listed;
    if OursNext(ra, rb, i, j) {
      if Intersects(s, e, ra[i]) {
        FollowsNext(ra, Ours, i, s, e);
        GrowStops(ra, rb, s, Max(e, ra[i].aEnd), i + 1, j);
      }
    } else if j < |rb| {
      if Intersects(s, e, rb[j]) {
        FollowsNext(rb, Theirs, j, s, e);
        GrowStops(ra, rb, s, Max(e, rb[j].aEnd), i, j + 1);
      }
    }
  }

  lemma FirstClusterCovers(ra: seq<Range>, rb: seq<Range>, n: nat)
    requires Listed(ra, Ours) && Listed(rb, Theirs) && (ra != [] || rb != [])
    requires Taken(ra, |ra|, n) && Taken(rb, |rb|, n)
    ensures var c := FirstCluster(ra, rb);
            && First(ra, rb).aStart <= c.end <= n && Taken(ra, c.ours, c.end) && Taken(rb, c.theirs, c.end)
            && (c.ours < |ra| ==> c.end <= ra[c.ours].aStart)
            && (c.theirs < |rb| ==> c.end <= rb[c.theirs].aStart)
            && (ra != [] ==> First(ra, rb).aStart <= ra[0].aStart)
            && (rb != [] ==> First(ra, rb).aStart <= rb[0].aStart)
  {
    var r := First(ra, rb);
    var i, j := if OursNext(ra, rb, 0, 0) then 1 else 0, if OursNext(ra, rb, 0, 0) then 0 else 1;
    if ra != [] { ListedTail(ra, Ours); }
    if rb != [] { ListedTail(rb, Theirs); }
    GrowTakes(ra, rb, r.aStart, r.aEnd, i, j, n);
    GrowStops(ra, rb, r.aStart, r.aEnd, i, j);
  }

  lemma ConcatAssoc<T>(a: seq<T>, b: seq<T>, c: seq<T>)
    ensures a + (b + c) == (a + b) + c
  {
  }

  // ---- regions ----

  /** Aligned spans of base, ours and theirs. */
  datatype Region = Region(b0: int, b1: int, o0: int, o1: int, t0: int, t1: int)

  /** Where base position e falls on a side that is at y when the base is at s,
      after the first i ranges of its list. */
  function Image(rs: seq<Range>, i: nat, s: int, e: int, y: int): int
    requires i <= |rs|
  {
    if i == 0 then y + (e - s) else rs[i - 1].bEnd + (e - rs[i - 1].aEnd)
  }

  /** The stretch before the first cluster. */
  function GapRegion(ra: seq<Range>, rb: seq<Range>, x: int, o: int, t: int): Region
    requires ra != [] || rb != []
  {
    var s := First(ra, rb).aStart;
    Region(x, s, o, o + (s - x), t, t + (s - x))
  }

  function ClusterRegion(ra: seq<Range>, rb: seq<Range>, x: int, o: int, t: int): Region
    requires ra != [] || rb != []
  {
    var g, c := GapRegion(ra, rb, x, o, t), FirstCluster(ra, rb);
    Region(g.b1, c.end, g.o1, Image(ra, c.ours, g.b1, c.end, g.o1), g.t1, Image(rb, c.theirs, g.b1, c.end, g.t1))
  }

  /** The regions the merge visits from (x, o, t) on. */
  function Regions(ra: seq<Range>, rb: seq<Range>, x: int, o: int, t: int, end: Region): seq<Region>
    decreases |ra| + |rb|
  {
    if ra == [] && rb == [] then [Region(x, end.b1, o, end.o1, t, end.t1)]
    else
      var g, r, c := GapRegion(ra, rb, x, o, t), ClusterRegion(ra, rb, x, o, t), FirstCluster(ra, rb);
      [g, r] + Regions(ra[c.ours..], rb[c.theirs..], r.b1, r.o1, r.t1, end)
  }

  datatype Texts = Texts(base: seq<Line>, ours: seq<Line>, theirs: seq<Line>) {

    function Whole(): Region {
      Region(0, |base|, 0, |ours|, 0, |theirs|)
    }

    predicate In(r: Region) {
      0 <= r.b0 <= r.b1 <= |base| && 0 <= r.o0 <= r.o1 <= |ours| && 0 <= r.t0 <= r.t1 <= |theirs|
    }

    /** The three texts of a region. */
    function Of(r: Region): Texts
      requires In(r)
    {
      Texts(base[r.b0..r.b1], ours[r.o0..r.o1], theirs[r.t0..r.t1])
    }

    /** The regions are consecutive and cover all three texts from (x, o, t). */
    ghost predicate Tile(rs: seq<Region>, x: int, o: int, t: int)
      decreases |rs|
    {
      if rs == [] then x == |base| && o == |ours| && t == |theirs|
      else
        In(rs[0]) && rs[0].b0 == x && rs[0].o0 == o && rs[0].t0 == t && Tile(rs[1..], rs[0].b1, rs[0].o1, rs[0].t1)
    }

    predicate Conflict() {
      ours != base && theirs != base && ours != theirs
    }

    /** The diff3 rule for one region. */
    function Resolved(): seq<Line> {
      if ours == base then theirs
      else if theirs == base then ours
      else if ours == theirs then ours
      else Marked(ours, theirs)
    }

    predicate AllIn(rs: seq<Region>) {
      forall r :: r in rs ==> In(r)
    }

    /** The diff3 rule, region by region. */
    function Merged(rs: seq<Region>): seq<Line>
      requires AllIn(rs)
    {
      if rs == [] then [] else Of(rs[0]).Resolved() + Merged(rs[1..])
    }

    predicate Conflicted(rs: seq<Region>)
      requires AllIn(rs)
    {
      exists r :: r in rs && Of(r).Conflict()
    }

    lemma {:induction false} MergedAppend(rs: seq<Region>, r: Region)
      requires AllIn(rs) && In(r)
      ensures AllIn(rs + [r]) && Merged(rs + [r]) == Merged(rs) + Of(r).Resolved()
      ensures Conflicted(rs + [r]) == (Conflicted(rs) || Of(r).Conflict())
    {
      hide Resolved, Conflict;
      if rs == [] {
        assert rs + [r] == [r] && [r][1..] == [];
      } else {
        assert (rs + [r])[1..] == rs[1..] + [r] && (rs + [r])[0] == rs[0];
        MergedAppend(rs[1..], r);
        ConcatAssoc(Of(rs[0]).Resolved(), Merged(rs[1..]), Of(r).Resolved());
      }
      assert forall q :: q in rs + [r] <==> q in rs || q == r;
    }

    lemma {:induction false} TileIn(rs: seq<Region>, x: int, o: int, t: int)
      requires Tile(rs, x, o, t)
      ensures AllIn(rs)
      decreases |rs|
    {
      if rs != [] {
        TileIn(rs[1..], rs[0].b1, rs[0].o1, rs[0].t1);
        assert forall r :: r in rs ==> r == rs[0] || r in rs[1..];
      }
    }

    /** The texts of consecutive regions, put back together. */
    function Spliced(rs: seq<Region>): Texts
      requires AllIn(rs)
    {
      if rs == [] then Texts([], [], [])
      else
        var first, rest := Of(rs[0]), Spliced(rs[1..]);
        Texts(first.base + rest.base, first.ours + rest.ours, first.theirs + rest.theirs)
    }

    lemma {:induction false} TileSplices(rs: seq<Region>, x: int, o: int, t: int)
      requires Tile(rs, x, o, t) && AllIn(rs)
      ensures 0 <= x <= |base| && 0 <= o <= |ours| && 0 <= t <= |theirs|
      ensures Spliced(rs) == Texts(base[x..], ours[o..], theirs[t..])
      decreases |rs|
    {
      if rs != [] {
        TileSplices(rs[1..], rs[0].b1, rs[0].o1, rs[0].t1);
      }
    }

    /** The state of a merge that has reached (x, o, t). */
    ghost predicate At(ra: seq<Range>, rb: seq<Range>, x: int, o: int, t: int) {
      && Listed(ra, Ours) && Listed(rb, Theirs)
      && Changes(ra, base, ours, x, o) && Changes(rb, base, theirs, x, t)
    }
  }

  const MERGE_START := "<<<<<<< ours\n"
  const MERGE_MID := "=======\n"
  const MERGE_END := ">>>>>>> theirs\n"

  function WithNewline(lines: seq<Line>): seq<Line> {
    if lines == [] then [""]
    else
      var last := lines[|lines| - 1];
      if last != "" && last[|last| - 1] == '\n' then lines
      else lines[..|lines| - 1] + [last + "\n"]
  }

  function Marked(ours: seq<Line>, theirs: seq<Line>): seq<Line> {
    [MERGE_START] + WithNewline(ours) + [MERGE_MID] + WithNewline(theirs) + [MERGE_END]
  }

  lemma {:induction false} TakenAll(rs: seq<Range>, base: seq<Line>, side: seq<Line>, x: int, y: int)
    requires Aligned(rs, base, side, x, y)
    ensures Taken(rs, |rs|, |base|)
    decreases |rs|
  {
    if rs != [] {
      TakenAll(rs[1..], base, side, rs[0].aEnd, rs[0].bEnd);
      forall k | 0 <= k < |rs|
        ensures rs[k].aEnd <= |base|
      {
        assert k > 0 ==> rs[k] == rs[1..][k - 1];
      }
    }
  }

  lemma ListedFrom(rs: seq<Range>, side: Side, i: nat)
    requires Listed(rs, side) && i <= |rs|
    ensures Listed(rs[i..], side)
  {
    forall k | 0 < k < |rs[i..]|
      ensures rs[i..][k - 1].aEnd < rs[i..][k].aStart
    {
      assert rs[i + k - 1].aEnd < rs[i + k].aStart;
    }
  }

  /** After the first i ranges, a side is aligned again at the cluster's end. */
  lemma {:induction false} ChangesAfter(rs: seq<Range>, base: seq<Line>, side: seq<Line>, x: int, y: int, i: nat,
                                        e: int)
    requires Changes(rs, base, side, x, y) && i <= |rs|
    requires if i == 0 then x <= e else rs[i - 1].aEnd <= e
    requires e <= if i < |rs| then rs[i].aStart else |base|
    ensures Changes(rs[i..], base, side, e, Image(rs, i, x, e, y))
    ensures x <= e && y <= Image(rs, i, x, e, y) <= |side|
    decreases i
  {
    hide Changes;
    ChangesBounds(rs, base, side, x, y);
    if i == 0 {
      assert rs[0..] == rs;
      ChangesCut(rs, base, side, x, y, e);
    } else {
      var r, rest := rs[0], rs[1..];
      ChangesNext(rs, base, side, x, y);
      assert rest[i - 1..] == rs[i..];
      ChangesAfter(rest, base, side, r.aEnd, r.bEnd, i - 1, e);
    }
  }

  lemma ChangesBounds(rs: seq<Range>, base: seq<Line>, side: seq<Line>, x: int, y: int)
    requires Changes(rs, base, side, x, y)
    ensures 0 <= x <= |base| && 0 <= y <= |side|
    ensures rs != [] ==> x <= rs[0].aStart <= rs[0].aEnd <= |base| && y <= rs[0].bStart <= rs[0].bEnd <= |side|
    ensures rs == [] ==> base[x..] == side[y..]
  {
  }

  /** One side of a cluster that spans base[s..e]: its text is the base's
      exactly when none of its ranges is in the cluster, and it is aligned
      again at the cluster's end. */
  ghost predicate SideStep(rs: seq<Range>, side: Side, base: seq<Line>, lines: seq<Line>, x: int, y: int, s: int,
                           i: nat, e: int)
    requires i <= |rs|
  {
    var y' := y + (s - x);
    var z := Image(rs, i, s, e, y');
    && 0 <= x <= s <= e <= |base| && 0 <= y <= y' <= z <= |lines|
    && base[x..s] == lines[y..y']
    && (base[s..e] == lines[y'..z] <==> i == 0)
    && Changes(rs[i..], base, lines, e, z) && Listed(rs[i..], side)
  }

  lemma SideOfCluster(rs: seq<Range>, side: Side, base: seq<Line>, lines: seq<Line>, x: int, y: int, s: int, i: nat,
                      e: int)
    requires Changes(rs, base, lines, x, y) && Listed(rs, side) && i <= |rs|
    requires x <= s <= e <= |base| && (rs != [] ==> s <= rs[0].aStart)
    requires Taken(rs, i, e) && (i < |rs| ==> e <= rs[i].aStart)
    ensures SideStep(rs, side, base, lines, x, y, s, i, e)
  {
    hide Changes, Listed, Aligned;
    ChangesBounds(rs, base, lines, x, y);
    ChangesCut(rs, base, lines, x, y, s);
    var y' := y + (s - x);
    var z := Image(rs, i, s, e, y');
    assert i > 0 ==> rs[i - 1].aEnd <= e;
    ChangesAfter(rs, base, lines, s, y', i, e);
    ListedFrom(rs, side, i);
    if i == 0 {
      ChangesCut(rs, base, lines, s, y', e);
    } else {
      ChangesAligned(rs[i..], base, lines, e, z);
      TouchedMeansChanged(rs, base, lines, s, y', i, e, z);
    }
  }

  lemma ChangesAligned(rs: seq<Range>, base: seq<Line>, side: seq<Line>, x: int, y: int)
    requires Changes(rs, base, side, x, y)
    ensures Aligned(rs, base, side, x, y) && Taken(rs, |rs|, |base|)
  {
    TakenAll(rs, base, side, x, y);
  }

  lemma ClusterSides(m: Texts, ra: seq<Range>, rb: seq<Range>, x: int, o: int, t: int)
    requires m.At(ra, rb, x, o, t) && (ra != [] || rb != [])
    ensures var s, c := First(ra, rb).aStart, FirstCluster(ra, rb);
            && SideStep(ra, Ours, m.base, m.ours, x, o, s, c.ours, c.end)
            && SideStep(rb, Theirs, m.base, m.theirs, x, t, s, c.theirs, c.end)
  {
    hide Changes, Listed, FirstCluster, SideStep;
    var s, c := First(ra, rb).aStart, FirstCluster(ra, rb);
    ChangesAligned(ra, m.base, m.ours, x, o);
    ChangesAligned(rb, m.base, m.theirs, x, t);
    ChangesBounds(ra, m.base, m.ours, x, o);
    ChangesBounds(rb, m.base, m.theirs, x, t);
    FirstClusterCovers(ra, rb, |m.base|);
    SideOfCluster(ra, Ours, m.base, m.ours, x, o, s, c.ours, c.end);
    SideOfCluster(rb, Theirs, m.base, m.theirs, x, t, s, c.theirs, c.end);
  }

  /** One round of the merge: the gap before the cluster reads the same on all
      sides, and a side differs from the base in the cluster exactly when the
      cluster holds one of its changes. */
  lemma ClusterStep(m: Texts, ra: seq<Range>, rb: seq<Range>, x: int, o: int, t: int)
    requires m.At(ra, rb, x, o, t) && (ra != [] || rb != [])
    ensures var g, r, c := GapRegion(ra, rb, x, o, t), ClusterRegion(ra, rb, x, o, t), FirstCluster(ra, rb);
            && m.In(g) && m.In(r)
            && m.Of(g).ours == m.Of(g).theirs == m.Of(g).base
            && (m.Of(r).ours == m.Of(r).base <==> c.ours == 0)
            && (m.Of(r).theirs == m.Of(r).base <==> c.theirs == 0)
            && m.At(ra[c.ours..], rb[c.theirs..], r.b1, r.o1, r.t1)
  {
    hide Changes, Listed, FirstCluster;
    ClusterSides(m, ra, rb, x, o, t);
  }

  lemma RegionsStep(ra: seq<Range>, rb: seq<Range>, x: int, o: int, t: int, end: Region)
    requires ra != [] || rb != []
    ensures var g, r, c := GapRegion(ra, rb, x, o, t), ClusterRegion(ra, rb, x, o, t), FirstCluster(ra, rb);
            var rest := Regions(ra[c.ours..], rb[c.theirs..], r.b1, r.o1, r.t1, end);
            Regions(ra, rb, x, o, t, end) == [g] + ([r] + rest)
    ensures FirstCluster(ra, rb).ours + FirstCluster(ra, rb).theirs > 0
  {
    hide FirstCluster, ClusterRegion, GapRegion;
  }

  /** The regions are consecutive and cover base, ours and theirs completely. */
  lemma {:induction false} RegionsTile(m: Texts, ra: seq<Range>, rb: seq<Range>, x: int, o: int, t: int)
    requires m.At(ra, rb, x, o, t)
    ensures m.Tile(Regions(ra, rb, x, o, t, m.Whole()), x, o, t)
    decreases |ra| + |rb|
  {
    hide FirstCluster, Texts.At, Changes, Listed, Regions;
    if ra == [] && rb == [] {
      LastTile(m, ra, rb, x, o, t);
    } else {
      var g, r, c := GapRegion(ra, rb, x, o, t), ClusterRegion(ra, rb, x, o, t), FirstCluster(ra, rb);
      ClusterStep(m, ra, rb, x, o, t);
      RegionsStep(ra, rb, x, o, t, m.Whole());
      var rest := Regions(ra[c.ours..], rb[c.theirs..], r.b1, r.o1, r.t1, m.Whole());
      RegionsTile(m, ra[c.ours..], rb[c.theirs..], r.b1, r.o1, r.t1);
      assert ([g] + ([r] + rest))[1..] == [r] + rest && ([r] + rest)[1..] == rest;
    }
  }

  lemma LastTile(m: Texts, ra: seq<Range>, rb: seq<Range>, x: int, o: int, t: int)
    requires m.At(ra, rb, x, o, t) && ra == [] && rb == []
    ensures m.Tile(Regions(ra, rb, x, o, t, m.Whole()), x, o, t)
    ensures m.base[x..] == m.ours[o..] == m.theirs[t..]
  {
    ChangesBounds(ra, m.base, m.ours, x, o);
    ChangesBounds(rb, m.base, m.theirs, x, t);
  }

  // ---- the algorithm ----

  function Only(cluster: seq<Range>, side: Side): seq<Range> {
    if cluster == [] then []
    else (if cluster[0].side == side then [cluster[0]] else []) + Only(cluster[1..], side)
  }

  function IfOn(r: Range, side: Side): seq<Range> {
    if r.side == side then [r] else []
  }

  lemma OnlyFirst(s: seq<Range>, side: Side)
    ensures s == [] ==> Only(s, side) == []
    ensures s != [] ==> Only(s, side) == IfOn(s[0], side) + Only(s[1..], side)
  {
  }

  lemma RangesAssoc(a: seq<Range>, b: seq<Range>, c: seq<Range>)
    ensures a + (b + c) == (a + b) + c
  {
  }

  lemma {:induction false} OnlyAppend(s: seq<Range>, r: Range, side: Side)
    ensures Only(s + [r], side) == Only(s, side) + IfOn(r, side)
  {
    hide Only, IfOn;
    OnlyFirst(s, side);
    OnlyFirst(s + [r], side);
    if s == [] {
      assert s + [r] == [r] && [r][1..] == [];
      OnlyFirst([], side);
    } else {
      assert (s + [r])[1..] == s[1..] + [r] && (s + [r])[0] == s[0];
      OnlyAppend(s[1..], r, side);
      RangesAssoc(IfOn(s[0], side), Only(s[1..], side), IfOn(r, side));
    }
  }

  /** The head of the sorted ranges is the smaller of the two heads. */
  lemma InterleaveHead(ra: seq<Range>, rb: seq<Range>, i: nat, j: nat)
    requires i <= |ra| && j <= |rb| && i + j < |ra| + |rb|
    ensures var all := Interleave(ra[i..], rb[j..]);
            && all != []
            && (OursNext(ra, rb, i, j) ==> all[0] == ra[i] && all[1..] == Interleave(ra[i + 1..], rb[j..]))
            && (!OursNext(ra, rb, i, j) ==> j < |rb| && all[0] == rb[j] && all[1..] == Interleave(ra[i..], rb[j + 1..]))
  {
    assert i < |ra| ==> ra[i..][1..] == ra[i + 1..];
    assert j < |rb| ==> rb[j..][1..] == rb[j + 1..];
    assert j + 1 == |rb| && i == |ra| ==> Interleave(ra[i..], rb[j + 1..]) == [];
    assert j == |rb| && i < |ra| ==> Interleave(ra[i + 1..], rb[j..]) == ra[i + 1..];
  }

  lemma InterleaveNone(ra: seq<Range>, rb: seq<Range>, i: nat, j: nat)
    requires i == |ra| && j == |rb|
    ensures Interleave(ra[i..], rb[j..]) == []
  {
  }

  /** Finds the end of the cluster that starts at `all[start]`. */
  method NextCluster(all: seq<Range>, start: nat, ghost ra: seq<Range>, ghost rb: seq<Range>)
    returns (cStart: nat, cEnd: nat, j: nat)
    requires start < |all| && all[start..] == Interleave(ra, rb)
    requires Listed(ra, Ours) && Listed(rb, Theirs) && (ra != [] || rb != [])
    ensures var c := FirstCluster(ra, rb);
            && cStart == First(ra, rb).aStart && cEnd == c.end && start < j <= |all|
            && Only(all[start..j], Ours) == ra[..c.ours] && Only(all[start..j], Theirs) == rb[..c.theirs]
            && all[j..] == Interleave(ra[c.ours..], rb[c.theirs..])
  {
    hide Interleave, Listed, Only, Intersects, Taking, FirstCluster, First, Grow;
    ghost var i, k := if OursNext(ra, rb, 0, 0) then 1 else 0, if OursNext(ra, rb, 0, 0) then 0 else 1;
    TakingFirst(all, start, ra, rb);
    cStart, cEnd := all[start].aStart, all[start].aEnd;
    j := start + 1;
    while j < |all| && Intersects(cStart, cEnd, all[j])
      invariant start < j <= |all| && cStart == First(ra, rb).aStart
      invariant Taking(all, start, j, ra, rb, i, k, cStart, cEnd)
    {
      TakingNext(all, start, j, ra, rb, i, k, cStart, cEnd);
      var r := all[j];
      if r.aStart < cStart {
        cStart := r.aStart;
      }
      if r.aEnd > cEnd {
        cEnd := r.aEnd;
      }
      if OursNext(ra, rb, i, k) { i := i + 1; } else { k := k + 1; }
      j := j + 1;
    }
    TakingDone(all, start, j, ra, rb, i, k, cStart, cEnd);
  }

  /** all[start..j] are the first i ranges of ours and the first k of theirs, and
      the cluster they make up so far reaches from s to e. */
  ghost predicate Taking(all: seq<Range>, start: nat, j: nat, ra: seq<Range>, rb: seq<Range>, i: nat, k: nat, s: nat,
                         e: nat) {
    && start < j <= |all| && i <= |ra| && k <= |rb| && s <= e && (ra != [] || rb != [])
    && Grow(ra, rb, s, e, i, k) == FirstCluster(ra, rb)
    && all[j..] == Interleave(ra[i..], rb[k..])
    && Only(all[start..j], Ours) == ra[..i] && Only(all[start..j], Theirs) == rb[..k]
    && Follows(ra, i, s, e) && Follows(rb, k, s, e)
  }

  lemma TakingFirst(all: seq<Range>, start: nat, ra: seq<Range>, rb: seq<Range>)
    requires start < |all| && all[start..] == Interleave(ra, rb)
    requires Listed(ra, Ours) && Listed(rb, Theirs) && (ra != [] || rb != [])
    ensures all[start] == First(ra, rb)
    ensures var i, k := if OursNext(ra, rb, 0, 0) then 1 else 0, if OursNext(ra, rb, 0, 0) then 0 else 1;
            Taking(all, start, start + 1, ra, rb, i, k, all[start].aStart, all[start].aEnd)
  {
    hide Interleave, Listed, Only, Grow;
    assert ra[0..] == ra && rb[0..] == rb;
    InterleaveHead(ra, rb, 0, 0);
    FirstFollows(ra, rb);
    assert all[start] == all[start..][0];
    FirstOnly(all[start], ra, rb);
    assert all[start..start + 1] == [all[start]] && all[start..][1..] == all[start + 1..];
  }

  lemma GrowOne(ra: seq<Range>, rb: seq<Range>, s: nat, e: nat, i: nat, j: nat)
    requires i <= |ra| && j <= |rb| && (i < |ra| || j < |rb|)
    ensures OursNext(ra, rb, i, j) ==>
      Grow(ra, rb, s, e, i, j) ==
      if Intersects(s, e, ra[i]) then Grow(ra, rb, s, Max(e, ra[i].aEnd), i + 1, j) else Cluster(i, j, e)
    ensures !OursNext(ra, rb, i, j) ==> j < |rb|
    ensures !OursNext(ra, rb, i, j) ==>
      Grow(ra, rb, s, e, i, j) ==
      if Intersects(s, e, rb[j]) then Grow(ra, rb, s, Max(e, rb[j].aEnd), i, j + 1) else Cluster(i, j, e)
  {
    hide Intersects, Before;
  }

  lemma GrowNone(ra: seq<Range>, rb: seq<Range>, s: nat, e: nat)
    ensures Grow(ra, rb, s, e, |ra|, |rb|) == Cluster(|ra|, |rb|, e)
  {
  }

  /** A range still to come is the next of ours or of theirs. */
  lemma SomeLeft(all: seq<Range>, j: nat, ra: seq<Range>, rb: seq<Range>, i: nat, k: nat)
    requires j < |all| && i <= |ra| && k <= |rb| && all[j..] == Interleave(ra[i..], rb[k..])
    ensures i + k < |ra| + |rb|
    ensures if OursNext(ra, rb, i, k) then all[j] == ra[i] && all[j + 1..] == Interleave(ra[i + 1..], rb[k..])
            else k < |rb| && all[j] == rb[k] && all[j + 1..] == Interleave(ra[i..], rb[k + 1..])
  {
    hide Interleave, Before;
    if i == |ra| && k == |rb| {
      InterleaveNone(ra, rb, i, k);
    } else {
      InterleaveHead(ra, rb, i, k);
      assert all[j..][0] == all[j] && all[j..][1..] == all[j + 1..];
    }
  }

  lemma TakingNext(all: seq<Range>, start: nat, j: nat, ra: seq<Range>, rb: seq<Range>, i: nat, k: nat, s: nat, e: nat)
    requires Listed(ra, Ours) && Listed(rb, Theirs)
    requires Taking(all, start, j, ra, rb, i, k, s, e) && j < |all| && Intersects(s, e, all[j])
    ensures all[j].aStart >= s
    ensures var ours := OursNext(ra, rb, i, k);
            Taking(all, start, j + 1, ra, rb, if ours then i + 1 else i, if ours then k else k + 1, s,
                   Max(e, all[j].aEnd))
  {
    hide Interleave, Listed, Only, Intersects, Grow, FirstCluster, Before;
    SomeLeft(all, j, ra, rb, i, k);
    GrowOne(ra, rb, s, e, i, k);
    assert all[start..j + 1] == all[start..j] + [all[j]];
    OnlyAppend(all[start..j], all[j], Ours);
    OnlyAppend(all[start..j], all[j], Theirs);
    if OursNext(ra, rb, i, k) {
      FollowsNext(ra, Ours, i, s, e);
      SideAt(ra, Ours, i);
    } else {
      FollowsNext(rb, Theirs, k, s, e);
      SideAt(rb, Theirs, k);
    }
  }

  lemma TakingDone(all: seq<Range>, start: nat, j: nat, ra: seq<Range>, rb: seq<Range>, i: nat, k: nat, s: nat, e: nat)
    requires Taking(all, start, j, ra, rb, i, k, s, e) && (j < |all| ==> !Intersects(s, e, all[j]))
    ensures FirstCluster(ra, rb) == Cluster(i, k, e) && start < j <= |all|
    ensures Only(all[start..j], Ours) == ra[..i] && Only(all[start..j], Theirs) == rb[..k]
    ensures all[j..] == Interleave(ra[i..], rb[k..])
  {
    hide Interleave, Only, Intersects, Grow, FirstCluster, Before;
    if j < |all| {
      SomeLeft(all, j, ra, rb, i, k);
      GrowOne(ra, rb, s, e, i, k);
    } else {
      NoneLeft(ra, rb, i, k);
      GrowNone(ra, rb, s, e);
    }
  }

  lemma NoneLeft(ra: seq<Range>, rb: seq<Range>, i: nat, k: nat)
    requires i <= |ra| && k <= |rb| && Interleave(ra[i..], rb[k..]) == []
    ensures i == |ra| && k == |rb|
  {
    hide Interleave;
    if i + k < |ra| + |rb| {
      InterleaveHead(ra, rb, i, k);
    }
  }

  lemma SideAt(rs: seq<Range>, side: Side, i: nat)
    requires Listed(rs, side) && i < |rs|
    ensures rs[i].side == side && rs[..i + 1] == rs[..i] + [rs[i]]
  {
  }

  lemma FirstFollows(ra: seq<Range>, rb: seq<Range>)
    requires Listed(ra, Ours) && Listed(rb, Theirs) && (ra != [] || rb != [])
    ensures var r := First(ra, rb);
            var i, j := if OursNext(ra, rb, 0, 0) then 1 else 0, if OursNext(ra, rb, 0, 0) then 0 else 1;
            r.aStart <= r.aEnd && Follows(ra, i, r.aStart, r.aEnd) && Follows(rb, j, r.aStart, r.aEnd)
  {
    if ra != [] { ListedTail(ra, Ours); }
    if rb != [] { ListedTail(rb, Theirs); }
  }

  lemma FirstOnly(r: Range, ra: seq<Range>, rb: seq<Range>)
    requires Listed(ra, Ours) && Listed(rb, Theirs) && (ra != [] || rb != []) && r == First(ra, rb)
    ensures Only([r], Ours) == if OursNext(ra, rb, 0, 0) then ra[..1] else ra[..0]
    ensures Only([r], Theirs) == if OursNext(ra, rb, 0, 0) then rb[..0] else rb[..1]
  {
    assert [r][1..] == [];
  }

  /** One side's view of the cluster span: kept base lines where the side did
      not change them, the side's own lines where it did. */
  method SideView(cluster: seq<Range>, side: Side, base: seq<Line>, lines: seq<Line>, cStart: nat, cEnd: nat,
                  ghost rs: seq<Range>, ghost i: nat, ghost y: nat)
    returns (out: seq<Line>)
    requires i <= |rs| && Only(cluster, side) == rs[..i] && Aligned(rs, base, lines, cStart, y)
    requires cStart <= cEnd <= |base| && Taken(rs, i, cEnd) && (i < |rs| ==> cEnd <= rs[i].aStart)
    ensures var z := Image(rs, i, cStart, cEnd, y); y <= z <= |lines| && out == lines[y..z]
  {
    hide Aligned, Only;
    out := [];
    var pos := cStart;
    ghost var n, cur := 0, y;
    assert rs[0..] == rs && cluster[0..] == cluster;
    AlignedBounds(rs, base, lines, cStart, y);
    var k := 0;
    while k < |cluster|
      invariant 0 <= k <= |cluster| && 0 <= n <= i
      invariant Only(cluster[k..], side) == rs[n..i]
      invariant pos <= cEnd && (n == 0 ==> pos == cStart && cur == y)
      invariant n > 0 ==> pos == rs[n - 1].aEnd && cur == rs[n - 1].bEnd
      invariant Aligned(rs[n..], base, lines, pos, cur) && y <= cur <= |lines|
      invariant out == lines[y..cur]
    {
      var r := cluster[k];
      OnlyStep(cluster, side, k, rs, n, i);
      if r.side == side {
        out, pos, cur := CopyRange(r, base, lines, out, pos, rs[n..], cur, y);
        n := n + 1;
        if pos > cEnd {
          pos := cEnd;
        }
      }
      k := k + 1;
    }
    OnlyNothing(cluster[k..], side);
    AlignedBounds(rs[n..], base, lines, pos, cur);
    AlignedCut(rs[n..], base, lines, pos, cur, cEnd);
    out := CopyBase(base, out, pos, cEnd);
  }

  lemma OnlyStep(cluster: seq<Range>, side: Side, k: nat, rs: seq<Range>, n: nat, i: nat)
    requires k < |cluster| && n <= i <= |rs| && Only(cluster[k..], side) == rs[n..i]
    ensures cluster[k].side != side ==> Only(cluster[k + 1..], side) == rs[n..i]
    ensures cluster[k].side == side ==> n < i && rs[n..][0] == cluster[k] && rs[n..][1..] == rs[n + 1..]
    ensures cluster[k].side == side ==> Only(cluster[k + 1..], side) == rs[n + 1..i]
  {
    assert cluster[k..][1..] == cluster[k + 1..];
    if cluster[k].side == side {
      assert rs[n..i][0] == cluster[k] && rs[n..i][1..] == rs[n + 1..i];
    }
  }

  lemma OnlyNothing(cluster: seq<Range>, side: Side)
    requires cluster == []
    ensures Only(cluster, side) == []
  {
  }

  /** Copies the base lines before a range, then the side's lines for it. */
  method CopyRange(r: Range, base: seq<Line>, lines: seq<Line>, before: seq<Line>, start: nat,
                   ghost rs: seq<Range>, ghost at: int, ghost y: nat)
    returns (out: seq<Line>, pos: nat, ghost cur: int)
    requires rs != [] && rs[0] == r && Aligned(rs, base, lines, start, at)
    requires y <= at && before == lines[y..at]
    ensures pos == r.aEnd && cur == r.bEnd && y <= cur <= |lines| && out == lines[y..cur]
    ensures Aligned(rs[1..], base, lines, pos, cur)
  {
    out := CopyBase(base, before, start, r.aStart);
    out := out + lines[r.bStart..r.bEnd];
    pos, cur := r.aEnd, r.bEnd;
  }

  method CopyBase(base: seq<Line>, before: seq<Line>, start: nat, stop: nat) returns (out: seq<Line>)
    requires start <= stop <= |base|
    ensures out == before + base[start..stop]
  {
    out := before;
    var pos := start;
    while pos < stop
      invariant start <= pos <= stop && out == before + base[start..pos]
    {
      out := out + [base[pos]];
      pos := pos + 1;
    }
  }

  /** The merged lines of one cluster. */
  method MergeCluster(cluster: seq<Range>, base: seq<Line>, ours: seq<Line>, theirs: seq<Line>, cStart: nat, cEnd: nat,
                      ghost ra: seq<Range>, ghost rb: seq<Range>, ghost x: int, ghost o: int, ghost t: int)
    returns (out: seq<Line>, conflicted: bool)
    requires Texts(base, ours, theirs).At(ra, rb, x, o, t) && (ra != [] || rb != [])
    requires var c := FirstCluster(ra, rb);
             && cStart == First(ra, rb).aStart && cEnd == c.end
             && Only(cluster, Ours) == ra[..c.ours] && Only(cluster, Theirs) == rb[..c.theirs]
    ensures var m, r := Texts(base, ours, theirs), ClusterRegion(ra, rb, x, o, t);
            m.In(r) && out == m.Of(r).Resolved() && conflicted == m.Of(r).Conflict()
  {
    hide Changes, Listed, FirstCluster, Only;
    ghost var m, g, r, c := Texts(base, ours, theirs), GapRegion(ra, rb, x, o, t), ClusterRegion(ra, rb, x, o, t),
      FirstCluster(ra, rb);
    ClusterStep(m, ra, rb, x, o, t);
    ViewReady(m, ra, rb, x, o, t);
    var hasA, hasB := HasSides(cluster);
    conflicted := false;
    if hasA && hasB {
      var ourView := SideView(cluster, Ours, base, ours, cStart, cEnd, ra, c.ours, g.o1);
      var theirView := SideView(cluster, Theirs, base, theirs, cStart, cEnd, rb, c.theirs, g.t1);
      if ourView == theirView {
        out := ourView;
      } else {
        out := Marked(ourView, theirView);
        conflicted := true;
      }
    } else if hasA {
      out := SideView(cluster, Ours, base, ours, cStart, cEnd, ra, c.ours, g.o1);
    } else {
      out := SideView(cluster, Theirs, base, theirs, cStart, cEnd, rb, c.theirs, g.t1);
    }
  }

  lemma ViewReady(m: Texts, ra: seq<Range>, rb: seq<Range>, x: int, o: int, t: int)
    requires m.At(ra, rb, x, o, t) && (ra != [] || rb != [])
    ensures var g, c := GapRegion(ra, rb, x, o, t), FirstCluster(ra, rb);
            && g.o1 >= 0 && Aligned(ra, m.base, m.ours, g.b1, g.o1)
            && g.t1 >= 0 && Aligned(rb, m.base, m.theirs, g.b1, g.t1)
            && g.b1 <= c.end <= |m.base| && Taken(ra, c.ours, c.end) && Taken(rb, c.theirs, c.end)
            && (c.ours < |ra| ==> c.end <= ra[c.ours].aStart)
            && (c.theirs < |rb| ==> c.end <= rb[c.theirs].aStart)
  {
    hide Texts.At, FirstCluster, Aligned, First, Taken, GapRegion;
    var s := First(ra, rb).aStart;
    GapIs(ra, rb, x, o, t);
    AtFirst(m, ra, rb, x, o, t);
    SideReady(ra, m.base, m.ours, x, o, s);
    SideReady(rb, m.base, m.theirs, x, t, s);
    FirstClusterCovers(ra, rb, |m.base|);
  }

  lemma GapIs(ra: seq<Range>, rb: seq<Range>, x: int, o: int, t: int)
    requires ra != [] || rb != []
    ensures var g, s := GapRegion(ra, rb, x, o, t), First(ra, rb).aStart;
            g.b1 == s && g.o1 == o + (s - x) && g.t1 == t + (s - x)
  {
    hide First;
  }

  /** Both sides are aligned up to the first change, which lies ahead. */
  lemma AtFirst(m: Texts, ra: seq<Range>, rb: seq<Range>, x: int, o: int, t: int)
    requires m.At(ra, rb, x, o, t) && (ra != [] || rb != [])
    ensures Listed(ra, Ours) && Listed(rb, Theirs)
    ensures Changes(ra, m.base, m.ours, x, o) && Changes(rb, m.base, m.theirs, x, t)
    ensures Taken(ra, |ra|, |m.base|) && Taken(rb, |rb|, |m.base|)
    ensures var s := First(ra, rb).aStart;
            x <= s <= |m.base| && (ra != [] ==> s <= ra[0].aStart) && (rb != [] ==> s <= rb[0].aStart)
  {
    hide Changes, Listed, Aligned, Taken, FirstCluster;
    ChangesAligned(ra, m.base, m.ours, x, o);
    ChangesAligned(rb, m.base, m.theirs, x, t);
    ChangesBounds(ra, m.base, m.ours, x, o);
    ChangesBounds(rb, m.base, m.theirs, x, t);
    FirstIsOne(ra, rb);
    FirstClusterCovers(ra, rb, |m.base|);
  }

  lemma FirstIsOne(ra: seq<Range>, rb: seq<Range>)
    requires ra != [] || rb != []
    ensures (ra != [] && First(ra, rb) == ra[0]) || (rb != [] && First(ra, rb) == rb[0])
  {
  }

  lemma SideReady(rs: seq<Range>, base: seq<Line>, side: seq<Line>, x: int, y: int, s: int)
    requires Changes(rs, base, side, x, y) && x <= s <= |base| && (rs != [] ==> s <= rs[0].aStart)
    ensures 0 <= y && 0 <= x && y + (s - x) >= 0 && Aligned(rs, base, side, s, y + (s - x))
  {
    hide Changes, Aligned, Taken;
    ChangesAligned(rs, base, side, x, y);
    ChangesBounds(rs, base, side, x, y);
    AlignedCut(rs, base, side, x, y, s);
  }

  method HasSides(cluster: seq<Range>) returns (hasA: bool, hasB: bool)
    ensures hasA == (Only(cluster, Ours) != []) && hasB == (Only(cluster, Theirs) != [])
  {
    hasA, hasB := false, false;
    var k := 0;
    while k < |cluster|
      invariant 0 <= k <= |cluster|
      invariant (hasA || Only(cluster[k..], Ours) != []) == (Only(cluster, Ours) != [])
      invariant (hasB || Only(cluster[k..], Theirs) != []) == (Only(cluster, Theirs) != [])
    {
      assert cluster[k..][1..] == cluster[k + 1..];
      match cluster[k].side {
        case Ours => hasA := true;
        case Theirs => hasB := true;
      }
      k := k + 1;
    }
  }

  // ---- the merge of whole texts ----

  ghost function OurChanges(m: Texts): seq<Range> {
    ChangeList(m.base, m.ours, Ours)
  }

  ghost function TheirChanges(m: Texts): seq<Range> {
    ChangeList(m.base, m.theirs, Theirs)
  }

  /** The regions of a merge. An empty base has a single one. */
  ghost function MergeRegions(m: Texts): (rs: seq<Region>)
    ensures m.Tile(rs, 0, 0, 0) && m.AllIn(rs)
  {
    MergeRegionsTile(m);
    if m.base == [] then [m.Whole()] else Regions(OurChanges(m), TheirChanges(m), 0, 0, 0, m.Whole())
  }

  lemma Start(m: Texts)
    ensures m.At(OurChanges(m), TheirChanges(m), 0, 0, 0)
  {
    hide ChangeList;
    ChangeListIsChanges(m.base, m.ours, Ours);
    ChangeListIsChanges(m.base, m.theirs, Theirs);
    ChangesListed(OurChanges(m), Ours, m.base, m.ours, 0, 0);
    ChangesListed(TheirChanges(m), Theirs, m.base, m.theirs, 0, 0);
  }

  lemma {:induction false} ChangesListed(rs: seq<Range>, side: Side, base: seq<Line>, lines: seq<Line>, x: int, y: int)
    requires Aligned(rs, base, lines, x, y) && Separated(rs) && forall r :: r in rs ==> r.side == side
    ensures Listed(rs, side)
    decreases |rs|
  {
    if rs != [] {
      forall i | 0 < i < |rs[1..]|
        ensures rs[1..][i - 1].aEnd < rs[1..][i].aStart
      {
        assert rs[i + 1 - 1].aEnd < rs[i + 1].aStart;
      }
      ChangesListed(rs[1..], side, base, lines, rs[0].aEnd, rs[0].bEnd);
      assert forall r :: r in rs ==> r == rs[0] || r in rs[1..];
    }
  }

  lemma MergeRegionsTile(m: Texts)
    ensures var rs := if m.base == [] then [m.Whole()] else Regions(OurChanges(m), TheirChanges(m), 0, 0, 0, m.Whole());
            m.Tile(rs, 0, 0, 0) && m.AllIn(rs)
  {
    hide ChangeList, Regions, Texts.At;
    if m.base == [] {
      assert [m.Whole()][1..] == [];
    } else {
      Start(m);
      RegionsTile(m, OurChanges(m), TheirChanges(m), 0, 0, 0);
      m.TileIn(Regions(OurChanges(m), TheirChanges(m), 0, 0, 0, m.Whole()), 0, 0, 0);
    }
  }

  /** No line of base, ours or theirs is lost or used twice: the regions put
      back together are the three inputs. */
  lemma RegionsCover(m: Texts)
    ensures m.Spliced(MergeRegions(m)) == m
  {
    hide Regions, ChangeList;
    m.TileSplices(MergeRegions(m), 0, 0, 0);
    assert m.base[0..] == m.base && m.ours[0..] == m.ours && m.theirs[0..] == m.theirs;
  }

  /** The whole merge: the result is the diff3 rule applied region by region. */
  method MergeLines(base: seq<Line>, ours: seq<Line>, theirs: seq<Line>) returns (out: seq<Line>, conflicted: bool)
    ensures var m := Texts(base, ours, theirs);
            out == m.Merged(MergeRegions(m)) && conflicted == m.Conflicted(MergeRegions(m))
  {
    ghost var m := Texts(base, ours, theirs);
    hide ChangeList, Regions, Changes, Listed, Interleave, Texts.Tile, FirstCluster, Texts.Merged, Texts.Conflicted;
    if |base| == 0 {
      EmptyBase(m);
      if |ours| == 0 {
        return theirs, false;
      } else if |theirs| == 0 {
        return ours, false;
      } else if ours == theirs {
        return ours, false;
      } else {
        return Marked(ours, theirs), true;
      }
    }
    var cA := ChangeRanges(base, ours, Ours);
    var cB := ChangeRanges(base, theirs, Theirs);
    var all := Sort(cA + cB);
    Start(m);
    SortInterleaves(cA, cB);
    out, conflicted := [], false;
    var pos, i := 0, 0;
    ghost var ra, rb, o, t := cA, cB, 0, 0;
    ghost var done: seq<Region> := [];
    assert all[0..] == all;
    NothingMerged(m);
    while i < |all|
      invariant 0 <= i <= |all| && 0 <= pos <= |base|
      invariant m.At(ra, rb, pos, o, t) && all[i..] == Interleave(ra, rb)
      invariant done + Regions(ra, rb, pos, o, t, m.Whole()) == MergeRegions(m)
      invariant m.AllIn(done) && out == m.Merged(done) && conflicted == m.Conflicted(done)
      decreases |all| - i
    {
      NotDone(ra, rb, all[i..]);
      ghost var g, r, c := GapRegion(ra, rb, pos, o, t), ClusterRegion(ra, rb, pos, o, t), FirstCluster(ra, rb);
      ClusterStep(m, ra, rb, pos, o, t);
      RegionsStep(ra, rb, pos, o, t, m.Whole());
      var cStart, cEnd, j := NextCluster(all, i, ra, rb);
      out := CopyBase(base, out, pos, cStart);
      m.MergedAppend(done, g);
      var lines, clash := MergeCluster(all[i..j], base, ours, theirs, cStart, cEnd, ra, rb, pos, o, t);
      m.MergedAppend(done + [g], r);
      out := out + lines;
      conflicted := conflicted || clash;
      ghost var rest := Regions(ra[c.ours..], rb[c.theirs..], r.b1, r.o1, r.t1, m.Whole());
      ConcatAssoc(done, [g], [r] + rest);
      ConcatAssoc(done + [g], [r], rest);
      done, ra, rb, o, t := done + [g] + [r], ra[c.ours..], rb[c.theirs..], r.o1, r.t1;
      pos, i := cEnd, j;
    }
    Done(ra, rb, all[i..]);
    LastRegion(m, ra, rb, pos, o, t);
    ghost var last := Region(pos, |base|, o, |ours|, t, |theirs|);
    m.MergedAppend(done, last);
    out := CopyBase(base, out, pos, |base|);
  }

  lemma NothingMerged(m: Texts)
    ensures m.Merged([]) == [] && !m.Conflicted([])
  {
  }

  lemma NotDone(ra: seq<Range>, rb: seq<Range>, all: seq<Range>)
    requires all == Interleave(ra, rb) && all != []
    ensures ra != [] || rb != []
  {
  }

  lemma Done(ra: seq<Range>, rb: seq<Range>, all: seq<Range>)
    requires all == Interleave(ra, rb) && all == []
    ensures ra == [] && rb == []
  {
  }

  lemma LastRegion(m: Texts, ra: seq<Range>, rb: seq<Range>, x: int, o: int, t: int)
    requires m.At(ra, rb, x, o, t) && ra == [] && rb == []
    ensures var last := Region(x, |m.base|, o, |m.ours|, t, |m.theirs|);
            && Regions(ra, rb, x, o, t, m.Whole()) == [last] && m.In(last)
            && m.Of(last).ours == m.Of(last).theirs == m.Of(last).base == m.base[x..]
  {
    LastTile(m, ra, rb, x, o, t);
    assert m.base[x..|m.base|] == m.base[x..] && m.ours[o..|m.ours|] == m.ours[o..] &&
           m.theirs[t..|m.theirs|] == m.theirs[t..];
  }

  lemma EmptyBase(m: Texts)
    requires m.base == []
    ensures MergeRegions(m) == [m.Whole()]
    ensures m.Merged(MergeRegions(m)) == m.Resolved() && m.Conflicted(MergeRegions(m)) == m.Conflict()
  {
    hide Regions, ChangeList;
    m.MergedAppend([], m.Whole());
    assert [] + [m.Whole()] == [m.Whole()];
    assert m.Of(m.Whole()) == m;
  }
}
