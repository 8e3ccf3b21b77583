/** Which changes of a merge are handled together: exactly those that are linked
    by a chain of meetings in the base. */
module Clusters {
  import opened Basics
  import opened ChangeLists
  import opened MergeText

  // ---- meeting ----

  predicate Covers(r: Range, n: int) {
    r.aStart <= n < r.aEnd
  }

  /** Nothing of the base is replaced; lines are put in before line aStart. */
  predicate IsInsertion(r: Range) {
    r.aStart == r.aEnd
  }

  ghost predicate SharesLine(r: Range, s: Range) {
    exists n :: Covers(r, n) && Covers(s, n)
  }

  /** Two changes meet: they replace a line of the base in common, one inserts in the
      middle of what the other replaces, or both insert at one point. */
  ghost predicate Meet(r: Range, s: Range) {
    || SharesLine(r, s)
    || (IsInsertion(r) && s.aStart < r.aStart < s.aEnd)
    || (IsInsertion(s) && r.aStart < s.aStart < r.aEnd)
    || (IsInsertion(r) && IsInsertion(s) && r.aStart == s.aStart)
  }

  lemma MeetIff(r: Range, s: Range)
    requires r.aStart <= r.aEnd && s.aStart <= s.aEnd
    ensures Intersects(r.aStart, r.aEnd, s) <==> Meet(r, s)
  {
    if !IsInsertion(r) && !IsInsertion(s) && Intersects(r.aStart, r.aEnd, s) {
      var n := Max(r.aStart, s.aStart);
      assert Covers(r, n) && Covers(s, n);
    }
  }

  lemma MeetFlip(r: Range, s: Range)
    requires Meet(r, s)
    ensures Meet(s, r)
  {
  }

  /** Changes that only touch do not meet, unless both insert. */
  lemma TouchingApart(r: Range, s: Range)
    requires r.aStart <= r.aEnd <= s.aStart <= s.aEnd && !(IsInsertion(r) && IsInsertion(s) && r.aStart == s.aStart)
    ensures !Meet(r, s)
  {
  }

  // ---- chains ----

  predicate InEither(ra: seq<Range>, rb: seq<Range>, r: Range) {
    r in ra || r in rb
  }

  ghost predicate Chain(ra: seq<Range>, rb: seq<Range>, path: seq<Range>) {
    && path != []
    && (forall i :: 0 <= i < |path| ==> InEither(ra, rb, path[i]))
    && (forall i :: 0 < i < |path| ==> Meet(path[i - 1], path[i]))
  }

  ghost predicate Linked(ra: seq<Range>, rb: seq<Range>, r: Range, s: Range) {
    exists path :: Chain(ra, rb, path) && path[0] == r && path[|path| - 1] == s
  }

  lemma LinkedSelf(ra: seq<Range>, rb: seq<Range>, r: Range)
    requires InEither(ra, rb, r)
    ensures Linked(ra, rb, r, r)
  {
    assert Chain(ra, rb, [r]);
  }

  lemma LinkedMore(ra: seq<Range>, rb: seq<Range>, r: Range, s: Range, t: Range)
    requires Linked(ra, rb, r, s) && InEither(ra, rb, t) && Meet(s, t)
    ensures Linked(ra, rb, r, t)
  {
    hide Meet;
    var path :| Chain(ra, rb, path) && path[0] == r && path[|path| - 1] == s;
    var longer := path + [t];
    forall i | 0 < i < |longer| ensures Meet(longer[i - 1], longer[i]) {
      if i < |path| {
        assert longer[i - 1] == path[i - 1] && longer[i] == path[i];
      }
    }
    assert Chain(ra, rb, longer);
  }

  lemma {:induction false} LinkedFrom(ra: seq<Range>, rb: seq<Range>, r: Range, path: seq<Range>)
    requires Chain(ra, rb, path) && Linked(ra, rb, r, path[0])
    ensures Linked(ra, rb, r, path[|path| - 1])
    decreases |path|
  {
    hide Meet, Linked;
    if |path| > 1 {
      var init := path[..|path| - 1];
      LinkedFrom(ra, rb, r, init);
      LinkedMore(ra, rb, r, init[|init| - 1], path[|path| - 1]);
    }
  }

  lemma LinkedTrans(ra: seq<Range>, rb: seq<Range>, r: Range, s: Range, t: Range)
    requires Linked(ra, rb, r, s) && Linked(ra, rb, s, t)
    ensures Linked(ra, rb, r, t)
  {
    hide Meet;
    var path :| Chain(ra, rb, path) && path[0] == s && path[|path| - 1] == t;
    LinkedFrom(ra, rb, r, path);
  }

  lemma {:induction false} LinkedBack(ra: seq<Range>, rb: seq<Range>, path: seq<Range>)
    requires Chain(ra, rb, path)
    ensures Linked(ra, rb, path[|path| - 1], path[0])
    decreases |path|
  {
    hide Meet, Linked;
    var last := path[|path| - 1];
    LinkedSelf(ra, rb, last);
    if |path| > 1 {
      var init := path[..|path| - 1];
      LinkedBack(ra, rb, init);
      MeetFlip(init[|init| - 1], last);
      LinkedMore(ra, rb, last, last, init[|init| - 1]);
      LinkedTrans(ra, rb, last, init[|init| - 1], path[0]);
    }
  }

  lemma LinkedFlip(ra: seq<Range>, rb: seq<Range>, r: Range, s: Range)
    requires Linked(ra, rb, r, s)
    ensures Linked(ra, rb, s, r)
  {
    hide Meet;
    var path :| Chain(ra, rb, path) && path[0] == r && path[|path| - 1] == s;
    LinkedBack(ra, rb, path);
  }

  // ---- clusters ----

  /** The ranges that one cluster takes from each list. */
  datatype Group = Group(ours: seq<Range>, theirs: seq<Range>)

  function Groups(ra: seq<Range>, rb: seq<Range>): seq<Group>
    decreases |ra| + |rb|
  {
    if ra == [] && rb == [] then []
    else
      var c := FirstCluster(ra, rb);
      [Group(ra[..c.ours], rb[..c.theirs])] + Groups(ra[c.ours..], rb[c.theirs..])
  }

  ghost predicate Together(gs: seq<Group>, r: Range, s: Range) {
    exists g :: g in gs && InEither(g.ours, g.theirs, r) && InEither(g.ours, g.theirs, s)
  }

  lemma GroupsStep(ra: seq<Range>, rb: seq<Range>)
    requires ra != [] || rb != []
    ensures var c := FirstCluster(ra, rb);
            Groups(ra, rb) == [Group(ra[..c.ours], rb[..c.theirs])] + Groups(ra[c.ours..], rb[c.theirs..])
  {
    hide FirstCluster;
  }

  // ---- what a cluster takes is linked ----

  /** y is the range that reaches furthest, and the next ranges come after it. */
  ghost predicate Reaches(ra: seq<Range>, rb: seq<Range>, s: nat, e: nat, i: nat, j: nat, y: Range)
    requires i <= |ra| && j <= |rb|
  {
    && InEither(ra[..i], rb[..j], y) && s <= y.aStart <= y.aEnd == e && (s < e ==> y.aStart < y.aEnd)
    && (i < |ra| ==> !Before(ra[i], y)) && (j < |rb| ==> !Before(rb[j], y))
    && (forall r :: InEither(ra[..i], rb[..j], r) ==> Linked(ra, rb, r, y))
  }

  lemma ReachMeets(s: nat, e: nat, x: Range, y: Range)
    requires Intersects(s, e, x) && x.aStart <= x.aEnd && s <= y.aStart <= y.aEnd == e
    requires (s < e ==> y.aStart < y.aEnd) && !Before(x, y)
    ensures Meet(y, x) && (x.aEnd > e ==> s < e && x.aStart < x.aEnd)
  {
    if s < e && !IsInsertion(x) {
      assert Covers(x, x.aStart) && Covers(y, x.aStart);
    }
  }

  /** The range that reaches furthest once x has been taken. */
  function Further(y: Range, x: Range, e: nat): Range {
    if x.aEnd > e then x else y
  }

  lemma TakenOurs(ra: seq<Range>, rb: seq<Range>, i: nat, j: nat, r: Range)
    requires i < |ra| && j <= |rb|
    ensures InEither(ra[..i + 1], rb[..j], r) <==> InEither(ra[..i], rb[..j], r) || r == ra[i]
  {
    assert ra[..i + 1] == ra[..i] + [ra[i]];
  }

  lemma TakenTheirs(ra: seq<Range>, rb: seq<Range>, i: nat, j: nat, r: Range)
    requires i <= |ra| && j < |rb|
    ensures InEither(ra[..i], rb[..j + 1], r) <==> InEither(ra[..i], rb[..j], r) || r == rb[j]
  {
    assert rb[..j + 1] == rb[..j] + [rb[j]];
  }

  /** Taking x keeps everything linked to what reaches furthest. */
  lemma LinkNext(ra: seq<Range>, rb: seq<Range>, r: Range, y: Range, x: Range, e: nat)
    requires InEither(ra, rb, x) && InEither(ra, rb, y) && Meet(y, x) && (r == x || Linked(ra, rb, r, y))
    ensures Linked(ra, rb, r, Further(y, x, e))
  {
    hide Linked, Meet;
    if r == x {
      LinkedSelf(ra, rb, x);
      MeetFlip(y, x);
      LinkedMore(ra, rb, x, x, y);
    } else {
      LinkedMore(ra, rb, r, y, x);
    }
  }

  lemma NotBeforeNext(rs: seq<Range>, side: Side, i: nat, y: Range)
    requires Listed(rs, side) && i < |rs| && !Before(rs[i], y)
    ensures i + 1 < |rs| ==> !Before(rs[i + 1], y) && !Before(rs[i + 1], rs[i])
  {
    if i + 1 < |rs| {
      assert rs[i + 1 - 1].aEnd < rs[i + 1].aStart && rs[i] in rs;
    }
  }

  lemma ReachOurs(ra: seq<Range>, rb: seq<Range>, s: nat, e: nat, i: nat, j: nat, y: Range)
    requires Listed(ra, Ours) && Listed(rb, Theirs) && i < |ra| && j <= |rb| && OursNext(ra, rb, i, j)
    requires Reaches(ra, rb, s, e, i, j, y) && Intersects(s, e, ra[i])
    ensures Reaches(ra, rb, s, Max(e, ra[i].aEnd), i + 1, j, Further(y, ra[i], e))
  {
    hide Linked, Meet, Intersects, Listed;
    var x := ra[i];
    Proper(ra, Ours, i);
    ReachMeets(s, e, x, y);
    NotBeforeNext(ra, Ours, i, y);
    forall r | InEither(ra[..i + 1], rb[..j], r) ensures Linked(ra, rb, r, Further(y, x, e)) {
      TakenOurs(ra, rb, i, j, r);
      LinkNext(ra, rb, r, y, x, e);
    }
    TakenOurs(ra, rb, i, j, x);
    TakenOurs(ra, rb, i, j, y);
    if j < |rb| {
      Sides(ra, rb, i, j);
    }
  }

  lemma ReachTheirs(ra: seq<Range>, rb: seq<Range>, s: nat, e: nat, i: nat, j: nat, y: Range)
    requires Listed(ra, Ours) && Listed(rb, Theirs) && i <= |ra| && j < |rb| && !OursNext(ra, rb, i, j)
    requires Reaches(ra, rb, s, e, i, j, y) && Intersects(s, e, rb[j])
    ensures Reaches(ra, rb, s, Max(e, rb[j].aEnd), i, j + 1, Further(y, rb[j], e))
  {
    hide Linked, Meet, Intersects, Listed;
    var x := rb[j];
    Proper(rb, Theirs, j);
    ReachMeets(s, e, x, y);
    NotBeforeNext(rb, Theirs, j, y);
    forall r | InEither(ra[..i], rb[..j + 1], r) ensures Linked(ra, rb, r, Further(y, x, e)) {
      TakenTheirs(ra, rb, i, j, r);
      LinkNext(ra, rb, r, y, x, e);
    }
    TakenTheirs(ra, rb, i, j, x);
    TakenTheirs(ra, rb, i, j, y);
  }

  lemma Proper(rs: seq<Range>, side: Side, i: nat)
    requires Listed(rs, side) && i < |rs|
    ensures rs[i] in rs && rs[i].aStart <= rs[i].aEnd && rs[i].side == side
  {
  }

  lemma Sides(ra: seq<Range>, rb: seq<Range>, i: nat, j: nat)
    requires i < |ra| && j < |rb| && Before(ra[i], rb[j])
    ensures !Before(rb[j], ra[i])
  {
  }

  lemma {:induction false} GrowLinked(ra: seq<Range>, rb: seq<Range>, s: nat, e: nat, i: nat, j: nat, y: Range)
    returns (z: Range)
    requires Listed(ra, Ours) && Listed(rb, Theirs) && i <= |ra| && j <= |rb| && Reaches(ra, rb, s, e, i, j, y)
    ensures var c := Grow(ra, rb, s, e, i, j);
            forall r :: InEither(ra[..c.ours], rb[..c.theirs], r) ==> Linked(ra, rb, r, z)
    decreases |ra| - i + |rb| - j
  {
    hide Linked, Intersects, Listed, Before;
    z := y;
    if OursNext(ra, rb, i, j) {
      if Intersects(s, e, ra[i]) {
        ReachOurs(ra, rb, s, e, i, j, y);
        z := GrowLinked(ra, rb, s, Max(e, ra[i].aEnd), i + 1, j, Further(y, ra[i], e));
      }
    } else if j < |rb| && Intersects(s, e, rb[j]) {
      ReachTheirs(ra, rb, s, e, i, j, y);
      z := GrowLinked(ra, rb, s, Max(e, rb[j].aEnd), i, j + 1, Further(y, rb[j], e));
    }
  }

  lemma FirstReaches(ra: seq<Range>, rb: seq<Range>)
    requires Listed(ra, Ours) && Listed(rb, Theirs) && (ra != [] || rb != [])
    ensures var y := First(ra, rb);
            var i, j := if OursNext(ra, rb, 0, 0) then 1 else 0, if OursNext(ra, rb, 0, 0) then 0 else 1;
            Reaches(ra, rb, y.aStart, y.aEnd, i, j, y)
  {
    hide Linked, Listed;
    var y := First(ra, rb);
    LinkedSelf(ra, rb, y);
    if OursNext(ra, rb, 0, 0) {
      Proper(ra, Ours, 0);
      NotBeforeNext(ra, Ours, 0, y);
      if rb != [] {
        Sides(ra, rb, 0, 0);
      }
      assert ra[..1] == [y] && rb[..0] == [];
    } else {
      Proper(rb, Theirs, 0);
      NotBeforeNext(rb, Theirs, 0, y);
      assert rb[..1] == [y] && ra[..0] == [];
    }
  }

  /** All that the first cluster takes is linked. */
  lemma FirstLinked(ra: seq<Range>, rb: seq<Range>, r: Range, t: Range)
    requires Listed(ra, Ours) && Listed(rb, Theirs) && (ra != [] || rb != [])
    requires var c := FirstCluster(ra, rb);
             InEither(ra[..c.ours], rb[..c.theirs], r) && InEither(ra[..c.ours], rb[..c.theirs], t)
    ensures Linked(ra, rb, r, t)
  {
    hide Linked, Listed, Before, Reaches;
    var y := First(ra, rb);
    var i, j := if OursNext(ra, rb, 0, 0) then 1 else 0, if OursNext(ra, rb, 0, 0) then 0 else 1;
    FirstReaches(ra, rb);
    var z := GrowLinked(ra, rb, y.aStart, y.aEnd, i, j, y);
    LinkedFlip(ra, rb, t, z);
    LinkedTrans(ra, rb, r, z, t);
  }

  // ---- what a cluster leaves does not meet it ----

  /** A cluster that spans lines ends past the start of all it takes. */
  ghost predicate StartsWithin(rs: seq<Range>, i: nat, s: nat, e: nat) {
    forall k :: 0 <= k < i <= |rs| ==> s <= rs[k].aStart && (s < e ==> rs[k].aStart < e)
  }

  ghost predicate NoInsertionAt(rs: seq<Range>, i: nat, s: nat) {
    i < |rs| ==> !(IsInsertion(rs[i]) && rs[i].aStart == s)
  }

  lemma {:induction false} GrowApart(ra: seq<Range>, rb: seq<Range>, s: nat, e: nat, i: nat, j: nat)
    requires Listed(ra, Ours) && Listed(rb, Theirs) && s <= e && i <= |ra| && j <= |rb|
    requires Follows(ra, i, s, e) && Follows(rb, j, s, e) && StartsWithin(ra, i, s, e) && StartsWithin(rb, j, s, e)
    ensures var c := Grow(ra, rb, s, e, i, j);
            && s <= c.end && StartsWithin(ra, c.ours, s, c.end) && StartsWithin(rb, c.theirs, s, c.end)
            && (c.end == s ==> NoInsertionAt(ra, c.ours, s) && NoInsertionAt(rb, c.theirs, s))
    decreases |ra| - i + |rb| - j
  {
    hide Listed;
    if OursNext(ra, rb, i, j) {
      if Intersects(s, e, ra[i]) {
        FollowsNext(ra, Ours, i, s, e);
        GrowApart(ra, rb, s, Max(e, ra[i].aEnd), i + 1, j);
      } else {
        StopsApart(ra, rb, s, e, i, j);
      }
    } else if j < |rb| {
      if Intersects(s, e, rb[j]) {
        FollowsNext(rb, Theirs, j, s, e);
        GrowApart(ra, rb, s, Max(e, rb[j].aEnd), i, j + 1);
      } else {
        StopsApart(ra, rb, s, e, i, j);
      }
    }
  }

  /** When the next range does not belong, no insertion at the start is left. */
  lemma StopsApart(ra: seq<Range>, rb: seq<Range>, s: nat, e: nat, i: nat, j: nat)
    requires i <= |ra| && j <= |rb| && (i < |ra| || j < |rb|)
    requires Follows(ra, i, s, e) && Follows(rb, j, s, e)
    requires if OursNext(ra, rb, i, j) then !Intersects(s, e, ra[i]) else j < |rb| && !Intersects(s, e, rb[j])
    ensures e == s ==> NoInsertionAt(ra, i, s) && NoInsertionAt(rb, j, s)
  {
  }

  lemma FirstApart(ra: seq<Range>, rb: seq<Range>)
    requires Listed(ra, Ours) && Listed(rb, Theirs) && (ra != [] || rb != [])
    ensures var s, c := First(ra, rb).aStart, FirstCluster(ra, rb);
            && s <= c.end && StartsWithin(ra, c.ours, s, c.end) && StartsWithin(rb, c.theirs, s, c.end)
            && (c.end == s ==> NoInsertionAt(ra, c.ours, s) && NoInsertionAt(rb, c.theirs, s))
  {
    var r := First(ra, rb);
    var i, j := if OursNext(ra, rb, 0, 0) then 1 else 0, if OursNext(ra, rb, 0, 0) then 0 else 1;
    if ra != [] {
      ListedTail(ra, Ours);
      Proper(ra, Ours, 0);
      Second(ra, Ours);
    }
    if rb != [] {
      ListedTail(rb, Theirs);
      Proper(rb, Theirs, 0);
      Second(rb, Theirs);
    }
    GrowApart(ra, rb, r.aStart, r.aEnd, i, j);
  }

  lemma Second(rs: seq<Range>, side: Side)
    requires Listed(rs, side)
    ensures |rs| > 1 ==> rs[1].aStart <= rs[1].aEnd
  {
    if |rs| > 1 {
      Proper(rs, side, 1);
    }
  }

  /** Later ranges of a list start later. */
  lemma {:induction false} StartsRise(rs: seq<Range>, side: Side, i: nat, k: nat)
    requires Listed(rs, side) && i <= k < |rs|
    ensures rs[i].aStart <= rs[k].aStart && (i < k ==> rs[i].aEnd < rs[k].aStart)
  {
    Proper(rs, side, i);
    if i < k {
      StartsRise(rs, side, i, k - 1);
      Proper(rs, side, k - 1);
      assert rs[k - 1].aEnd < rs[k].aStart;
    }
  }

  /** A range left by the first cluster does not meet one that it took. */
  lemma LeftApart(ra: seq<Range>, rb: seq<Range>, rs: seq<Range>, side: Side, n: nat, k: nat, s: nat, e: nat, r: Range)
    requires Listed(rs, side) && n <= k < |rs| && e <= rs[n].aStart && s <= e
    requires e == s ==> NoInsertionAt(rs, n, s)
    requires r.aStart <= r.aEnd <= e && s <= r.aStart && (s < e ==> r.aStart < e)
    ensures !Meet(r, rs[k])
  {
    Proper(rs, side, n);
    Proper(rs, side, k);
    StartsRise(rs, side, n, k);
    TouchingApart(r, rs[k]);
  }

  lemma TakenPart(rs: seq<Range>, side: Side, n: nat, s: nat, e: nat, r: Range)
    requires Listed(rs, side) && n <= |rs| && Taken(rs, n, e) && StartsWithin(rs, n, s, e) && r in rs[..n]
    ensures r in rs && r.aStart <= r.aEnd <= e && s <= r.aStart && (s < e ==> r.aStart < e)
  {
    var k :| 0 <= k < n && rs[k] == r;
    Proper(rs, side, k);
  }

  lemma AfterFirst(ra: seq<Range>, rb: seq<Range>, r: Range, t: Range)
    requires Listed(ra, Ours) && Listed(rb, Theirs) && (ra != [] || rb != [])
    requires var c := FirstCluster(ra, rb);
             InEither(ra[..c.ours], rb[..c.theirs], r) && InEither(ra[c.ours..], rb[c.theirs..], t)
    ensures !Meet(r, t)
  {
    hide Listed, Meet, FirstCluster, Taken, StartsWithin, NoInsertionAt;
    var s, c := First(ra, rb).aStart, FirstCluster(ra, rb);
    var n := Furthest(ra, rb);
    FirstClusterCovers(ra, rb, n);
    FirstApart(ra, rb);
    if r in ra[..c.ours] {
      TakenPart(ra, Ours, c.ours, s, c.end, r);
    } else {
      TakenPart(rb, Theirs, c.theirs, s, c.end, r);
    }
    if t in ra[c.ours..] {
      var k :| c.ours <= k < |ra| && ra[k] == t;
      LeftApart(ra, rb, ra, Ours, c.ours, k, s, c.end, r);
    } else {
      var k :| c.theirs <= k < |rb| && rb[k] == t;
      LeftApart(ra, rb, rb, Theirs, c.theirs, k, s, c.end, r);
    }
  }

  /** A position past all ranges. */
  lemma Furthest(ra: seq<Range>, rb: seq<Range>) returns (n: nat)
    ensures Taken(ra, |ra|, n) && Taken(rb, |rb|, n)
  {
    var a := Past(ra);
    var b := Past(rb);
    n := Max(a, b);
  }

  lemma {:induction false} Past(rs: seq<Range>) returns (n: nat)
    ensures Taken(rs, |rs|, n)
  {
    n := 0;
    if rs != [] {
      var init := rs[..|rs| - 1];
      n := Past(init);
      n := Max(n, rs[|rs| - 1].aEnd);
      assert forall k :: 0 <= k < |init| ==> rs[k] == init[k];
    }
  }

  // ---- clusters are chains of meetings ----

  lemma SplitEither(rs: seq<Range>, n: nat, r: Range)
    requires n <= |rs|
    ensures r in rs <==> r in rs[..n] || r in rs[n..]
  {
    assert rs == rs[..n] + rs[n..];
  }

  lemma InFirstOrRest(ra: seq<Range>, rb: seq<Range>, r: Range)
    requires ra != [] || rb != []
    ensures var c := FirstCluster(ra, rb);
            InEither(ra, rb, r) <==>
            InEither(ra[..c.ours], rb[..c.theirs], r) || InEither(ra[c.ours..], rb[c.theirs..], r)
  {
    hide FirstCluster;
    var c := FirstCluster(ra, rb);
    SplitEither(ra, c.ours, r);
    SplitEither(rb, c.theirs, r);
  }

  /** Ranges that meet are in one cluster. */
  lemma {:induction false} MeetTogether(ra: seq<Range>, rb: seq<Range>, r: Range, t: Range)
    requires Listed(ra, Ours) && Listed(rb, Theirs) && InEither(ra, rb, r) && InEither(ra, rb, t) && Meet(r, t)
    ensures Together(Groups(ra, rb), r, t)
    decreases |ra| + |rb|
  {
    hide Listed, Meet, FirstCluster, Groups;
    var c := FirstCluster(ra, rb);
    var g := Group(ra[..c.ours], rb[..c.theirs]);
    GroupsStep(ra, rb);
    InFirstOrRest(ra, rb, r);
    InFirstOrRest(ra, rb, t);
    if InEither(g.ours, g.theirs, r) {
      if InEither(ra[c.ours..], rb[c.theirs..], t) {
        AfterFirst(ra, rb, r, t);
      }
      assert g in Groups(ra, rb);
    } else if InEither(g.ours, g.theirs, t) {
      MeetFlip(r, t);
      AfterFirst(ra, rb, t, r);
    } else {
      ListedFrom(ra, Ours, c.ours);
      ListedFrom(rb, Theirs, c.theirs);
      MeetTogether(ra[c.ours..], rb[c.theirs..], r, t);
    }
  }

  /** A range is in one cluster. */
  lemma {:induction false} OneGroup(ra: seq<Range>, rb: seq<Range>, g: Group, h: Group, r: Range)
    requires Listed(ra, Ours) && Listed(rb, Theirs) && g in Groups(ra, rb) && h in Groups(ra, rb)
    requires InEither(g.ours, g.theirs, r) && InEither(h.ours, h.theirs, r)
    ensures g == h && InEither(ra, rb, r)
    decreases |ra| + |rb|
  {
    hide Listed, FirstCluster, Groups;
    if ra == [] && rb == [] {
      NoGroups();
    } else {
      var c := FirstCluster(ra, rb);
      var first, xs, ys := Group(ra[..c.ours], rb[..c.theirs]), ra[c.ours..], rb[c.theirs..];
      GroupsStep(ra, rb);
      ListedFrom(ra, Ours, c.ours);
      ListedFrom(rb, Theirs, c.theirs);
      InFirstOrRest(ra, rb, r);
      if g in Groups(xs, ys) {
        OneGroup(xs, ys, g, g, r);
      }
      if h in Groups(xs, ys) {
        OneGroup(xs, ys, h, h, r);
      }
      if InEither(first.ours, first.theirs, r) && InEither(xs, ys, r) {
        MeetSelf(ra, rb, r);
        AfterFirst(ra, rb, r, r);
      }
      if g != first && h != first {
        OneGroup(xs, ys, g, h, r);
      }
    }
  }

  lemma NoGroups()
    ensures Groups([], []) == []
  {
  }

  lemma MeetSelf(ra: seq<Range>, rb: seq<Range>, r: Range)
    requires Listed(ra, Ours) && Listed(rb, Theirs) && InEither(ra, rb, r)
    ensures Meet(r, r)
  {
    if !IsInsertion(r) {
      assert Covers(r, r.aStart);
    }
  }

  /** A chain stays in one cluster. */
  lemma {:induction false} ChainTogether(ra: seq<Range>, rb: seq<Range>, path: seq<Range>)
    requires Listed(ra, Ours) && Listed(rb, Theirs) && Chain(ra, rb, path)
    ensures Together(Groups(ra, rb), path[0], path[|path| - 1])
    decreases |path|
  {
    hide Listed, Meet, Groups;
    var last := path[|path| - 1];
    if |path| == 1 {
      MeetSelf(ra, rb, last);
      MeetTogether(ra, rb, last, last);
    } else {
      var init := path[..|path| - 1];
      var mid := init[|init| - 1];
      ChainTogether(ra, rb, init);
      MeetTogether(ra, rb, mid, last);
      var gs := Groups(ra, rb);
      var g :| g in gs && InEither(g.ours, g.theirs, path[0]) && InEither(g.ours, g.theirs, mid);
      var h :| h in gs && InEither(h.ours, h.theirs, mid) && InEither(h.ours, h.theirs, last);
      OneGroup(ra, rb, g, h, mid);
    }
  }

  lemma {:induction false} LinkedWider(ra: seq<Range>, rb: seq<Range>, xs: seq<Range>, ys: seq<Range>, r: Range,
                                       t: Range)
    requires Linked(xs, ys, r, t) && (forall u :: InEither(xs, ys, u) ==> InEither(ra, rb, u))
    ensures Linked(ra, rb, r, t)
  {
    hide Meet;
    var path :| Chain(xs, ys, path) && path[0] == r && path[|path| - 1] == t;
    assert Chain(ra, rb, path);
  }

  lemma {:induction false} TogetherLinked(ra: seq<Range>, rb: seq<Range>, g: Group, r: Range, t: Range)
    requires Listed(ra, Ours) && Listed(rb, Theirs) && g in Groups(ra, rb)
    requires InEither(g.ours, g.theirs, r) && InEither(g.ours, g.theirs, t)
    ensures Linked(ra, rb, r, t)
    decreases |ra| + |rb|
  {
    hide Listed, FirstCluster, Groups, Linked;
    if ra == [] && rb == [] {
      NoGroups();
    } else {
      var c := FirstCluster(ra, rb);
      var first, xs, ys := Group(ra[..c.ours], rb[..c.theirs]), ra[c.ours..], rb[c.theirs..];
      GroupsStep(ra, rb);
      if g == first {
        FirstLinked(ra, rb, r, t);
      } else {
        ListedFrom(ra, Ours, c.ours);
        ListedFrom(rb, Theirs, c.theirs);
        TogetherLinked(xs, ys, g, r, t);
        forall u | InEither(xs, ys, u) ensures InEither(ra, rb, u) {
          InFirstOrRest(ra, rb, u);
        }
        LinkedWider(ra, rb, xs, ys, r, t);
      }
    }
  }

  /** Two changes are handled together exactly when a chain of meetings links them. */
  lemma TogetherIffLinked(ra: seq<Range>, rb: seq<Range>, r: Range, t: Range)
    requires Listed(ra, Ours) && Listed(rb, Theirs)
    ensures Together(Groups(ra, rb), r, t) <==> Linked(ra, rb, r, t)
  {
    hide Listed, Groups, Meet;
    if Together(Groups(ra, rb), r, t) {
      var g :| g in Groups(ra, rb) && InEither(g.ours, g.theirs, r) && InEither(g.ours, g.theirs, t);
      TogetherLinked(ra, rb, g, r, t);
    }
    if Linked(ra, rb, r, t) {
      var path :| Chain(ra, rb, path) && path[0] == r && path[|path| - 1] == t;
      ChainTogether(ra, rb, path);
    }
  }
}
