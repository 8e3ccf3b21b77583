/** When a merge conflicts, and what the reader of a conflict gets: changes of both
    sides that meet, and both sides' lines between the markers. */
module Conflicts {
  import opened ChangeLists
  import opened TextLines
  import opened MergeText
  import opened Clusters

  // ---- where conflicts come from ----

  ghost predicate Within(g: Region, r: Range) {
    g.b0 <= r.aStart && r.aEnd <= g.b1
  }

  /** A change of each side meets in the region. */
  ghost predicate MeetIn(ra: seq<Range>, rb: seq<Range>, g: Region) {
    exists u, v :: u in ra && v in rb && Meet(u, v) && Within(g, u) && Within(g, v)
  }

  lemma OnSides(ra: seq<Range>, rb: seq<Range>, r: Range)
    requires Listed(ra, Ours) && Listed(rb, Theirs)
    ensures !(r in ra && r in rb)
  {
  }

  /** A chain from ours to theirs steps from one to the other. */
  lemma ChainCrosses(ra: seq<Range>, rb: seq<Range>, path: seq<Range>) returns (i: nat)
    requires Listed(ra, Ours) && Listed(rb, Theirs) && Chain(ra, rb, path)
    requires path[0] in ra && path[|path| - 1] in rb
    ensures 0 < i < |path| && path[i - 1] in ra && path[i] in rb
  {
    hide Listed, Meet;
    OnSides(ra, rb, path[0]);
    i := 0;
    while path[i] !in rb
      invariant 0 <= i < |path| && (i > 0 ==> path[i - 1] !in rb)
      decreases |path| - i
    {
      i := i + 1;
    }
    assert InEither(ra, rb, path[i - 1]);
  }

  lemma ChainPrefix(ra: seq<Range>, rb: seq<Range>, path: seq<Range>, n: nat)
    requires Chain(ra, rb, path) && 0 < n <= |path|
    ensures Chain(ra, rb, path[..n])
  {
    hide Meet;
  }

  /** What a chain from the first cluster reaches is in the first cluster. */
  lemma StaysInFirst(ra: seq<Range>, rb: seq<Range>, path: seq<Range>, g: Group)
    requires Listed(ra, Ours) && Listed(rb, Theirs) && Chain(ra, rb, path)
    requires g in Groups(ra, rb) && InEither(g.ours, g.theirs, path[0])
    ensures InEither(g.ours, g.theirs, path[|path| - 1])
  {
    hide Listed, Groups, Meet;
    ChainTogether(ra, rb, path);
    var h :| h in Groups(ra, rb) && InEither(h.ours, h.theirs, path[0]) && InEither(h.ours, h.theirs, path[|path| - 1]);
    OneGroup(ra, rb, g, h, path[0]);
  }

  lemma OfSide(ra: seq<Range>, rb: seq<Range>, n: nat, k: nat, r: Range)
    requires Listed(ra, Ours) && Listed(rb, Theirs) && n <= |ra| && k <= |rb| && InEither(ra[..n], rb[..k], r)
    ensures r in ra ==> r in ra[..n]
    ensures r in rb ==> r in rb[..k]
  {
    hide Listed;
    OnSides(ra, rb, r);
    SplitEither(ra, n, r);
    SplitEither(rb, k, r);
  }

  /** A cluster of both sides has a change of each that meet. */
  lemma FirstCrosses(ra: seq<Range>, rb: seq<Range>) returns (u: Range, v: Range)
    requires Listed(ra, Ours) && Listed(rb, Theirs) && (ra != [] || rb != [])
    requires var c := FirstCluster(ra, rb); c.ours > 0 && c.theirs > 0
    ensures var c := FirstCluster(ra, rb); u in ra[..c.ours] && v in rb[..c.theirs] && Meet(u, v)
  {
    hide Listed, FirstCluster, Groups, Meet;
    var c := FirstCluster(ra, rb);
    var g := Group(ra[..c.ours], rb[..c.theirs]);
    GroupsStep(ra, rb);
    assert g in Groups(ra, rb) && g.ours[0] in g.ours && g.theirs[0] in g.theirs;
    TogetherLinked(ra, rb, g, g.ours[0], g.theirs[0]);
    var path :| Chain(ra, rb, path) && path[0] == g.ours[0] && path[|path| - 1] == g.theirs[0];
    SplitEither(ra, c.ours, path[0]);
    SplitEither(rb, c.theirs, path[|path| - 1]);
    var i := ChainCrosses(ra, rb, path);
    u, v := path[i - 1], path[i];
    ChainPrefix(ra, rb, path, i);
    ChainPrefix(ra, rb, path, i + 1);
    StaysInFirst(ra, rb, path[..i], g);
    StaysInFirst(ra, rb, path[..i + 1], g);
    OfSide(ra, rb, c.ours, c.theirs, u);
    OfSide(ra, rb, c.ours, c.theirs, v);
  }

  lemma MeetInCluster(m: Texts, ra: seq<Range>, rb: seq<Range>, x: int, o: int, t: int)
    requires m.At(ra, rb, x, o, t) && (ra != [] || rb != [])
    requires var c := FirstCluster(ra, rb); c.ours > 0 && c.theirs > 0
    ensures MeetIn(ra, rb, ClusterRegion(ra, rb, x, o, t))
  {
    hide Listed, Changes, FirstCluster, Meet, Taken, StartsWithin, NoInsertionAt;
    var s, c := First(ra, rb).aStart, FirstCluster(ra, rb);
    var n := Furthest(ra, rb);
    FirstClusterCovers(ra, rb, n);
    FirstApart(ra, rb);
    var u, v := FirstCrosses(ra, rb);
    TakenPart(ra, Ours, c.ours, s, c.end, u);
    TakenPart(rb, Theirs, c.theirs, s, c.end, v);
  }

  lemma MeetInMore(ra: seq<Range>, rb: seq<Range>, i: nat, j: nat, g: Region)
    requires i <= |ra| && j <= |rb| && MeetIn(ra[i..], rb[j..], g)
    ensures MeetIn(ra, rb, g)
  {
    hide Meet;
    var u, v :| u in ra[i..] && v in rb[j..] && Meet(u, v) && Within(g, u) && Within(g, v);
    assert u in ra && v in rb;
  }

  lemma {:induction false} RegionConflicts(m: Texts, ra: seq<Range>, rb: seq<Range>, x: int, o: int, t: int, r: Region)
    requires m.At(ra, rb, x, o, t) && r in Regions(ra, rb, x, o, t, m.Whole()) && m.In(r)
    ensures m.Of(r).Conflict() ==> MeetIn(ra, rb, r)
    decreases |ra| + |rb|
  {
    hide Listed, Changes, FirstCluster, Regions, MeetIn;
    if ra == [] && rb == [] {
      LastRegion(m, ra, rb, x, o, t);
    } else {
      var g, h, c := GapRegion(ra, rb, x, o, t), ClusterRegion(ra, rb, x, o, t), FirstCluster(ra, rb);
      var rest := Regions(ra[c.ours..], rb[c.theirs..], h.b1, h.o1, h.t1, m.Whole());
      ClusterStep(m, ra, rb, x, o, t);
      RegionsStep(ra, rb, x, o, t, m.Whole());
      if c.ours > 0 && c.theirs > 0 {
        MeetInCluster(m, ra, rb, x, o, t);
      }
      assert r in [g] + ([h] + rest);
      if r in rest {
        RegionConflicts(m, ra[c.ours..], rb[c.theirs..], h.b1, h.o1, h.t1, r);
        if m.Of(r).Conflict() {
          MeetInMore(ra, rb, c.ours, c.theirs, r);
        }
      }
    }
  }

  /** A region conflicts only where a change of ours meets a change of theirs. */
  lemma ConflictsMeet(m: Texts, r: Region)
    requires r in MergeRegions(m) && m.Of(r).Conflict()
    ensures MeetIn(OurChanges(m), TheirChanges(m), r)
  {
    hide ChangeList, Regions, Changes, Listed, MeetIn;
    Start(m);
    if m.base == [] {
      EmptyMeets(m);
    } else {
      RegionConflicts(m, OurChanges(m), TheirChanges(m), 0, 0, 0, r);
    }
  }

  lemma EmptyMeets(m: Texts)
    requires m.base == []
    ensures m.Conflict() ==> MeetIn(OurChanges(m), TheirChanges(m), m.Whole())
    ensures MergeRegions(m) == [m.Whole()] && m.Of(m.Whole()) == m
  {
    hide ChangeList, Regions, Changes, Listed, SharesLine;
    Start(m);
    EmptyBase(m);
    var ra, rb := OurChanges(m), TheirChanges(m);
    ChangesBounds(ra, m.base, m.ours, 0, 0);
    ChangesBounds(rb, m.base, m.theirs, 0, 0);
    if m.Conflict() {
      assert ra[0] in ra && rb[0] in rb;
      assert Meet(ra[0], rb[0]) && Within(m.Whole(), ra[0]) && Within(m.Whole(), rb[0]);
    }
  }

  // ---- reading a conflict ----

  /** The position of the first such line, or the end. */
  function IndexOf(lines: seq<Line>, x: Line): (i: nat)
    ensures i <= |lines| && (i < |lines| ==> lines[i] == x)
    ensures forall k :: 0 <= k < i ==> lines[k] != x
  {
    if lines == [] || lines[0] == x then 0 else 1 + IndexOf(lines[1..], x)
  }

  /** The lines after the start marker, up to the middle one. */
  function ReadOurs(block: seq<Line>): seq<Line>
    requires block != []
  {
    block[1..][..IndexOf(block[1..], "=======\n")]
  }

  /** The lines after the middle marker, up to the end marker. */
  function ReadTheirs(block: seq<Line>): seq<Line> {
    var i := IndexOf(block, "=======\n");
    if i == |block| then [] else block[i + 1..][..IndexOf(block[i + 1..], ">>>>>>> theirs\n")]
  }

  predicate IsMarker(l: Line) {
    l == "<<<<<<< ours\n" || l == "=======\n" || l == ">>>>>>> theirs\n"
  }

  /** No line is a marker, even with a newline added. */
  ghost predicate Unmarked(lines: seq<Line>) {
    forall l :: l in lines ==> !IsMarker(l) && !IsMarker(l + "\n")
  }

  /** The same text, with a newline added at its end where it lacks one. */
  predicate UpToNewline(read: seq<Line>, side: seq<Line>) {
    Join(read) == Join(side) || Join(read) == Join(side) + "\n"
  }

  predicate EndsLine(s: string) {
    s == "" || s[|s| - 1] == '\n'
  }

  lemma NewlineReads(side: seq<Line>)
    ensures UpToNewline(WithNewline(side), side) && EndsLine(Join(WithNewline(side)))
  {
    if side == [] {
      assert [""][1..] == [];
    } else {
      var init, last := side[..|side| - 1], side[|side| - 1];
      assert side == init + [last];
      JoinLast(init, last);
      if !(last != "" && last[|last| - 1] == '\n') {
        JoinLast(init, last + "\n");
        assert Join(init) + (last + "\n") == (Join(init) + last) + "\n";
      }
    }
  }

  lemma JoinLast(init: seq<Line>, last: Line)
    ensures Join(init + [last]) == Join(init) + last
  {
    JoinConcat(init, [last]);
    assert [last][1..] == [];
  }

  lemma NewlineUnmarked(side: seq<Line>)
    requires Unmarked(side)
    ensures forall l :: l in WithNewline(side) ==> !IsMarker(l)
  {
    if side != [] {
      var init, last := side[..|side| - 1], side[|side| - 1];
      assert last in side && forall l :: l in init ==> l in side;
    }
  }

  lemma FirstAfter(s: seq<Line>, x: Line, t: seq<Line>)
    requires x !in s
    ensures IndexOf(s + [x] + t, x) == |s|
  {
    var all := s + [x] + t;
    var i := IndexOf(all, x);
    assert all[|s|] == x;
    forall k | 0 <= k < |s| ensures all[k] != x {
      assert all[k] == s[k];
    }
  }

  /** Both sides of a conflict can be read back from between its markers, and every
      marker starts a line. */
  lemma MarkedReadsBack(ours: seq<Line>, theirs: seq<Line>)
    requires Unmarked(ours) && Unmarked(theirs)
    ensures var block := Marked(ours, theirs);
            && |block| >= 3 && block[0] == "<<<<<<< ours\n" && block[|block| - 1] == ">>>>>>> theirs\n"
            && UpToNewline(ReadOurs(block), ours) && UpToNewline(ReadTheirs(block), theirs)
            && EndsLine(Join(ReadOurs(block))) && EndsLine(Join(ReadTheirs(block)))
            && block == [block[0]] + ReadOurs(block) + ["=======\n"] + ReadTheirs(block) + [block[|block| - 1]]
  {
    hide IndexOf, WithNewline, UpToNewline, EndsLine, Join;
    var o, t, block := WithNewline(ours), WithNewline(theirs), Marked(ours, theirs);
    NewlineReads(ours);
    NewlineReads(theirs);
    NewlineUnmarked(ours);
    NewlineUnmarked(theirs);
    BlockReads(o, t);
  }

  lemma BlockReads(o: seq<Line>, t: seq<Line>)
    requires (forall l :: l in o ==> !IsMarker(l)) && (forall l :: l in t ==> !IsMarker(l))
    ensures var block := ["<<<<<<< ours\n"] + o + ["=======\n"] + t + [">>>>>>> theirs\n"];
            ReadOurs(block) == o && ReadTheirs(block) == t
  {
    hide IndexOf;
    var start, mid, end := "<<<<<<< ours\n", "=======\n", ">>>>>>> theirs\n";
    var block := [start] + o + [mid] + t + [end];
    MarkersDiffer();
    assert block[1..] == o + [mid] + (t + [end]);
    FirstAfter(o, mid, t + [end]);
    assert block == ([start] + o) + [mid] + (t + [end]);
    FirstAfter([start] + o, mid, t + [end]);
    assert block[|o| + 2..] == t + [end] + [];
    FirstAfter(t, end, []);
  }

  lemma MarkersDiffer()
    ensures "<<<<<<< ours\n" != "=======\n" && "=======\n" != ">>>>>>> theirs\n"
  {
    assert "<<<<<<< ours\n"[0] == '<' && "=======\n"[0] == '=' && ">>>>>>> theirs\n"[0] == '>';
  }

  // ---- conflicts in the output ----

  /** The block stands in the output. */
  ghost predicate Contains(out: seq<Line>, block: seq<Line>) {
    exists i :: 0 <= i <= |out| - |block| && StandsAt(out, block, i)
  }

  ghost predicate StandsAt(out: seq<Line>, block: seq<Line>, i: nat)
    requires i + |block| <= |out|
  {
    out[i..i + |block|] == block
  }

  lemma StandsLater(first: seq<Line>, rest: seq<Line>, block: seq<Line>, i: nat)
    requires i + |block| <= |rest| && StandsAt(rest, block, i)
    ensures Contains(first + rest, block)
  {
    var k := |first| + i;
    assert (first + rest)[k..k + |block|] == rest[i..i + |block|];
    assert StandsAt(first + rest, block, k);
  }

  lemma StandsFirst(first: seq<Line>, rest: seq<Line>)
    ensures Contains(first + rest, first)
  {
    assert (first + rest)[0..0 + |first|] == first;
    assert StandsAt(first + rest, first, 0);
  }

  lemma {:induction false} RegionShown(m: Texts, rs: seq<Region>, r: Region)
    requires m.AllIn(rs) && r in rs
    ensures Contains(m.Merged(rs), m.Of(r).Resolved())
  {
    hide Texts.Resolved, StandsAt;
    var first, rest := m.Of(rs[0]).Resolved(), rs[1..];
    if r == rs[0] {
      StandsFirst(first, m.Merged(rest));
    } else {
      RegionShown(m, rest, r);
      var block := m.Of(r).Resolved();
      var i :| 0 <= i <= |m.Merged(rest)| - |block| && StandsAt(m.Merged(rest), block, i);
      StandsLater(first, m.Merged(rest), block, i);
    }
  }

  /** Where a merge conflicts, its output holds a block from which both sides of the
      region can be read back. */
  lemma ConflictShown(m: Texts, r: Region) returns (block: seq<Line>)
    requires r in MergeRegions(m) && m.Of(r).Conflict() && Unmarked(m.Of(r).ours) && Unmarked(m.Of(r).theirs)
    ensures Contains(m.Merged(MergeRegions(m)), block) && block != []
    ensures UpToNewline(ReadOurs(block), m.Of(r).ours) && UpToNewline(ReadTheirs(block), m.Of(r).theirs)
  {
    hide MergeRegions, Texts.Merged, Unmarked, UpToNewline, ReadOurs, ReadTheirs, Contains, Marked, Join;
    block := Marked(m.Of(r).ours, m.Of(r).theirs);
    RegionShown(m, MergeRegions(m), r);
    MarkedReadsBack(m.Of(r).ours, m.Of(r).theirs);
  }
}
