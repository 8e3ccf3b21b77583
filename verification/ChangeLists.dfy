/** Change lists: how one side of a merge differs from the base.

    A change list names the base ranges the side replaced, in order, with every
    line between them kept. The lists the merge works on are read off a minimal
    edit script, and minimality is what makes them meaningful: a stretch that
    contains a change cannot read the same as the base. */
module ChangeLists {
  import opened EditScript

  type Line = string

  datatype Side = Ours | Theirs

  /** Base lines [aStart, aEnd) are replaced by side lines [bStart, bEnd). */
  datatype Range = Range(aStart: nat, aEnd: nat, bStart: nat, bEnd: nat, side: Side)

  function Weight(rs: seq<Range>): int {
    if rs == [] then 0
    else (rs[0].aEnd - rs[0].aStart) + (rs[0].bEnd - rs[0].bStart) + Weight(rs[1..])
  }

  // ---- change lists ----

  /** The list turns base[x..] into side[y..]. */
  ghost predicate Aligned(rs: seq<Range>, base: seq<Line>, side: seq<Line>, x: int, y: int)
    decreases |rs|
  {
    && 0 <= x <= |base| && 0 <= y <= |side|
    && if rs == [] then base[x..] == side[y..]
       else
         && x <= rs[0].aStart <= rs[0].aEnd <= |base|
         && y <= rs[0].bStart <= rs[0].bEnd <= |side|
         && (rs[0].aStart < rs[0].aEnd || rs[0].bStart < rs[0].bEnd)
         && base[x..rs[0].aStart] == side[y..rs[0].bStart]
         && Aligned(rs[1..], base, side, rs[0].aEnd, rs[0].bEnd)
  }

  /** Consecutive ranges have a kept line between them. */
  ghost predicate Separated(rs: seq<Range>) {
    forall i :: 0 < i < |rs| ==> rs[i - 1].aEnd < rs[i].aStart
  }

  /** No list for the same text changes fewer lines. */
  ghost predicate Tight(rs: seq<Range>, base: seq<Line>, side: seq<Line>, x: int, y: int) {
    forall other :: Aligned(other, base, side, x, y) ==> Weight(rs) <= Weight(other)
  }

  ghost predicate Changes(rs: seq<Range>, base: seq<Line>, side: seq<Line>, x: int, y: int) {
    Aligned(rs, base, side, x, y) && Separated(rs) && Tight(rs, base, side, x, y)
  }

  lemma {:induction false} WeightPositive(rs: seq<Range>, base: seq<Line>, side: seq<Line>, x: int, y: int)
    requires Aligned(rs, base, side, x, y)
    ensures Weight(rs) >= |rs|
    decreases |rs|
  {
    if rs != [] {
      WeightPositive(rs[1..], base, side, rs[0].aEnd, rs[0].bEnd);
    }
  }

  /** Moving the start of a list into its first kept stretch. */
  lemma AlignedFrom(rs: seq<Range>, base: seq<Line>, side: seq<Line>, x: int, y: int, s: int)
    requires 0 <= x <= s <= |base| && 0 <= y <= y + (s - x) <= |side|
    requires base[x..s] == side[y..y + (s - x)]
    requires Aligned(rs, base, side, s, y + (s - x))
    ensures Aligned(rs, base, side, x, y)
  {
    var t := y + (s - x);
    if rs == [] {
      assert base[x..] == base[x..s] + base[s..];
      assert side[y..] == side[y..t] + side[t..];
    } else {
      var r := rs[0];
      assert base[x..r.aStart] == base[x..s] + base[s..r.aStart];
      assert side[y..r.bStart] == side[y..t] + side[t..r.bStart];
    }
  }

  lemma AlignedCut(rs: seq<Range>, base: seq<Line>, side: seq<Line>, x: int, y: int, s: int)
    requires Aligned(rs, base, side, x, y)
    requires x <= s <= if rs == [] then |base| else rs[0].aStart
    ensures y + (s - x) <= |side| && base[x..s] == side[y..y + (s - x)]
    ensures Aligned(rs, base, side, s, y + (s - x))
  {
    var t := y + (s - x);
    var p, q := if rs == [] then |base| else rs[0].aStart, if rs == [] then |side| else rs[0].bStart;
    assert base[x..p] == side[y..q] by {
      assert base[x..|base|] == base[x..] && side[y..|side|] == side[y..];
    }
    SplitEqual(base, side, x, p, y, q, s);
    assert base[s..|base|] == base[s..] && side[t..|side|] == side[t..];
  }

  lemma SplitEqual(a: seq<Line>, b: seq<Line>, x: int, p: int, y: int, q: int, s: int)
    requires 0 <= x <= s <= p <= |a| && 0 <= y <= q <= |b| && a[x..p] == b[y..q]
    ensures y + (s - x) <= q
    ensures a[x..s] == b[y..y + (s - x)] && a[s..p] == b[y + (s - x)..q]
  {
    var u, v := a[x..p], b[y..q];
    assert |u| == |v|;
    assert a[x..s] == u[..s - x] && b[y..y + (s - x)] == v[..s - x];
    assert a[s..p] == u[s - x..] && b[y + (s - x)..q] == v[s - x..];
  }

  lemma ChangesCut(rs: seq<Range>, base: seq<Line>, side: seq<Line>, x: int, y: int, s: int)
    requires Changes(rs, base, side, x, y)
    requires x <= s <= if rs == [] then |base| else rs[0].aStart
    ensures y + (s - x) <= |side| && base[x..s] == side[y..y + (s - x)]
    ensures Changes(rs, base, side, s, y + (s - x))
  {
    hide Aligned;
    AlignedBounds(rs, base, side, x, y);
    AlignedCut(rs, base, side, x, y, s);
    forall other | Aligned(other, base, side, s, y + (s - x))
      ensures Weight(rs) <= Weight(other)
    {
      AlignedFrom(other, base, side, x, y, s);
    }
  }

  lemma AlignedBounds(rs: seq<Range>, base: seq<Line>, side: seq<Line>, x: int, y: int)
    requires Aligned(rs, base, side, x, y)
    ensures 0 <= x <= |base| && 0 <= y <= |side|
    ensures rs != [] ==> x <= rs[0].aStart <= rs[0].aEnd <= |base| && y <= rs[0].bStart <= rs[0].bEnd <= |side|
  {
  }

  lemma ChangesNext(rs: seq<Range>, base: seq<Line>, side: seq<Line>, x: int, y: int)
    requires Changes(rs, base, side, x, y) && rs != []
    ensures Changes(rs[1..], base, side, rs[0].aEnd, rs[0].bEnd)
  {
    var x', y' := rs[0].aEnd, rs[0].bEnd;
    forall other | Aligned(other, base, side, x', y')
      ensures Weight(rs[1..]) <= Weight(other)
    {
      assert ([rs[0]] + other)[1..] == other;
      assert Aligned([rs[0]] + other, base, side, x, y);
    }
  }

  /** A side whose change list touches a stretch really changed its text: had it
      ended up with the base's own lines, a smaller script would exist. */
  lemma TouchedMeansChanged(rs: seq<Range>, base: seq<Line>, side: seq<Line>, x: int, y: int, i: nat, e: int, f: int)
    requires Changes(rs, base, side, x, y)
    requires 0 < i <= |rs| && x <= e <= |base| && y <= f <= |side|
    requires Aligned(rs[i..], base, side, e, f)
    ensures base[x..e] != side[y..f]
  {
    if base[x..e] == side[y..f] {
      AlignedFrom(rs[i..], base, side, x, y, e);
      assert Weight(rs) <= Weight(rs[i..]);
      WeightSplit(rs, i);
      AlignedPrefixPositive(rs, base, side, x, y, i);
    }
  }

  lemma {:induction false} WeightSplit(rs: seq<Range>, i: nat)
    requires i <= |rs|
    ensures Weight(rs) == Weight(rs[..i]) + Weight(rs[i..])
  {
    if i == 0 {
      assert rs[0..] == rs;
    } else {
      assert rs[1..][..i - 1] == rs[..i][1..] && rs[1..][i - 1..] == rs[i..];
      WeightSplit(rs[1..], i - 1);
    }
  }

  lemma {:induction false} AlignedPrefixPositive(rs: seq<Range>, base: seq<Line>, side: seq<Line>, x: int, y: int,
                                                 i: nat)
    requires Aligned(rs, base, side, x, y) && i <= |rs|
    ensures Weight(rs[..i]) >= i
    decreases i
  {
    if i > 0 {
      assert rs[1..][..i - 1] == rs[..i][1..];
      AlignedPrefixPositive(rs[1..], base, side, rs[0].aEnd, rs[0].bEnd, i - 1);
    }
  }

  // ---- change lists from edit scripts ----

  /** The number of operations before the next kept line. */
  function EditRun(ops: seq<Op<Line>>): (n: nat)
    ensures n <= |ops| && (n < |ops| ==> ops[n].kind.Equal?)
  {
    if ops == [] || ops[0].kind.Equal? then 0 else 1 + EditRun(ops[1..])
  }

  function Ranges(ops: seq<Op<Line>>, x: nat, y: nat, side: Side): seq<Range>
    decreases |ops|
  {
    if ops == [] then []
    else if ops[0].kind.Equal? then Ranges(ops[1..], ops[0].posA + 1, ops[0].posB + 1, side)
    else
      var n := EditRun(ops);
      var x', y' := x + Count(ops[..n], Removed), y + Count(ops[..n], Added);
      [Range(x, x', y, y', side)] + Ranges(ops[n..], x', y', side)
  }

  function LineGrid(base: seq<Line>, side: seq<Line>): Grid<Line> {
    Grid(base, side, Exact)
  }

  ghost function ChangeList(base: seq<Line>, lines: seq<Line>, side: Side): seq<Range> {
    Ranges(LineGrid(base, lines).Diff(), 0, 0, side)
  }

  /** The first operation of a script and the script after it. */
  lemma ScriptStep(base: seq<Line>, lines: seq<Line>, ops: seq<Op<Line>>, x: nat, y: nat)
    requires LineGrid(base, lines).Script(ops, x, y) && ops != []
    ensures ops[0].posA == x && ops[0].posB == y
    ensures var g := LineGrid(base, lines);
            match ops[0].kind
            case Equal => g.Match(x - y, x) && g.Script(ops[1..], x + 1, y + 1)
            case Removed => g.Script(ops[1..], x + 1, y)
            case Added => g.Script(ops[1..], x, y + 1)
  {
  }

  lemma CountStep(ops: seq<Op<Line>>, kind: Kind)
    requires ops != []
    ensures Count(ops, kind) == (if ops[0].kind == kind then 1 else 0) + Count(ops[1..], kind)
  {
  }

  lemma CountNone(kind: Kind)
    ensures Count<Line>([], kind) == 0
  {
  }

  lemma EditRunStep(ops: seq<Op<Line>>)
    ensures EditRun(ops) == if ops == [] || ops[0].kind.Equal? then 0 else 1 + EditRun(ops[1..])
  {
  }

  lemma RunSlices(ops: seq<Op<Line>>, n: nat)
    requires 0 < n <= |ops|
    ensures ops[1..][..n - 1] == ops[..n][1..] && ops[1..][n - 1..] == ops[n..] && ops[..n][0] == ops[0]
  {
  }

  lemma {:induction false} ScriptAfterRun(base: seq<Line>, lines: seq<Line>, ops: seq<Op<Line>>, x: nat, y: nat)
    requires LineGrid(base, lines).Script(ops, x, y)
    ensures var n := EditRun(ops);
            && LineGrid(base, lines).Script(ops[n..], x + Count(ops[..n], Removed), y + Count(ops[..n], Added))
            && Cost(ops[..n]) == n && Cost(ops) == n + Cost(ops[n..])
    decreases |ops|
  {
    hide Grid.Script, Grid.Match, Count, EditRun;
    var n := EditRun(ops);
    EditRunStep(ops);
    if n == 0 {
      assert ops[0..] == ops && ops[..0] == [];
      CountNone(Removed);
      CountNone(Added);
    } else {
      var rest, run := ops[1..], ops[..n];
      RunSlices(ops, n);
      ScriptStep(base, lines, ops, x, y);
      CountStep(run, Removed);
      CountStep(run, Added);
      CountStep(ops, Removed);
      CountStep(ops, Added);
      if ops[0].kind.Removed? {
        ScriptAfterRun(base, lines, rest, x + 1, y);
      } else {
        ScriptAfterRun(base, lines, rest, x, y + 1);
      }
    }
  }

  lemma RangesStep(ops: seq<Op<Line>>, x: nat, y: nat, side: Side)
    requires ops != []
    ensures ops[0].kind.Equal? ==> Ranges(ops, x, y, side) == Ranges(ops[1..], ops[0].posA + 1, ops[0].posB + 1, side)
    ensures !ops[0].kind.Equal? ==>
      var n := EditRun(ops);
      var x', y' := x + Count(ops[..n], Removed), y + Count(ops[..n], Added);
      Ranges(ops, x, y, side) == [Range(x, x', y, y', side)] + Ranges(ops[n..], x', y', side)
  {
  }

  lemma {:induction false} RangesSide(ops: seq<Op<Line>>, x: nat, y: nat, side: Side)
    ensures forall r :: r in Ranges(ops, x, y, side) ==> r.side == side
    decreases |ops|
  {
    if ops != [] {
      RangesStep(ops, x, y, side);
      if ops[0].kind.Equal? {
        RangesSide(ops[1..], ops[0].posA + 1, ops[0].posB + 1, side);
      } else {
        var n := EditRun(ops);
        RangesSide(ops[n..], x + Count(ops[..n], Removed), y + Count(ops[..n], Added), side);
      }
    }
  }

  /** `rs` is the change list of the script `ops`. */
  ghost predicate Lists(rs: seq<Range>, base: seq<Line>, lines: seq<Line>, ops: seq<Op<Line>>, x: nat, y: nat) {
    && Aligned(rs, base, lines, x, y) && Separated(rs) && Weight(rs) == Cost(ops)
    && (ops != [] && ops[0].kind.Equal? && rs != [] ==> rs[0].aStart > x)
  }

  lemma {:induction false} RangesAligned(base: seq<Line>, lines: seq<Line>, ops: seq<Op<Line>>, x: nat, y: nat,
                                         side: Side)
    requires LineGrid(base, lines).Script(ops, x, y)
    ensures Lists(Ranges(ops, x, y, side), base, lines, ops, x, y)
    decreases |ops|
  {
    hide Lists, Ranges, Aligned, Weight, Grid.Script, Count, EditRun, Cost;
    if ops == [] {
      ScriptEnds(base, lines, x, y);
      ListsNothing(base, lines, x, y, side);
      return;
    }
    RangesStep(ops, x, y, side);
    EditRunStep(ops);
    if ops[0].kind.Equal? {
      ScriptStep(base, lines, ops, x, y);
      RangesAligned(base, lines, ops[1..], x + 1, y + 1, side);
      ListsKeep(Ranges(ops, x, y, side), base, lines, ops, x, y);
    } else {
      var n := EditRun(ops);
      var x', y' := x + Count(ops[..n], Removed), y + Count(ops[..n], Added);
      ScriptAfterRun(base, lines, ops, x, y);
      CostIs(ops[..n]);
      RangesAligned(base, lines, ops[n..], x', y', side);
      ListsCons(Range(x, x', y, y', side), Ranges(ops[n..], x', y', side), base, lines, ops, n);
    }
  }

  lemma ScriptEnds(base: seq<Line>, lines: seq<Line>, x: nat, y: nat)
    requires LineGrid(base, lines).Script([], x, y)
    ensures x == |base| && y == |lines|
  {
  }

  lemma CostIs(ops: seq<Op<Line>>)
    ensures Cost(ops) == Count(ops, Removed) + Count(ops, Added)
  {
  }

  lemma ListsNothing(base: seq<Line>, lines: seq<Line>, x: nat, y: nat, side: Side)
    requires x == |base| && y == |lines|
    ensures Lists(Ranges([], x, y, side), base, lines, [], x, y)
  {
  }

  lemma ListsKeep(rs: seq<Range>, base: seq<Line>, lines: seq<Line>, ops: seq<Op<Line>>, x: nat, y: nat)
    requires ops != [] && ops[0].kind.Equal? && LineGrid(base, lines).Match(x - y, x)
    requires Lists(rs, base, lines, ops[1..], x + 1, y + 1)
    ensures Lists(rs, base, lines, ops, x, y)
  {
    AlignedBounds(rs, base, lines, x + 1, y + 1);
    assert base[x..x + 1] == lines[y..y + 1];
    AlignedFrom(rs, base, lines, x, y, x + 1);
  }

  lemma ListsCons(r: Range, rest: seq<Range>, base: seq<Line>, lines: seq<Line>, ops: seq<Op<Line>>, n: nat)
    requires 0 < n <= |ops| && !ops[0].kind.Equal? && (n < |ops| ==> ops[n].kind.Equal?)
    requires r.aStart <= r.aEnd && r.bStart <= r.bEnd && (r.aEnd - r.aStart) + (r.bEnd - r.bStart) == n
    requires Cost(ops) == n + Cost(ops[n..])
    requires Lists(rest, base, lines, ops[n..], r.aEnd, r.bEnd)
    ensures Lists([r] + rest, base, lines, ops, r.aStart, r.bStart)
  {
    hide Aligned, Weight, Cost;
    if n == |ops| {
      assert rest == [] by {
        assert Cost(ops[n..]) == 0 by { NoCost(ops[n..]); }
        WeightPositive(rest, base, lines, r.aEnd, r.bEnd);
      }
    }
    AlignedCons(r, rest, base, lines);
  }

  lemma NoCost(ops: seq<Op<Line>>)
    requires ops == []
    ensures Cost(ops) == 0
  {
  }

  lemma AlignedCons(r: Range, rest: seq<Range>, base: seq<Line>, lines: seq<Line>)
    requires r.aStart <= r.aEnd && r.bStart <= r.bEnd && (r.aStart < r.aEnd || r.bStart < r.bEnd)
    requires Aligned(rest, base, lines, r.aEnd, r.bEnd) && Separated(rest)
    requires rest != [] ==> r.aEnd < rest[0].aStart
    ensures Aligned([r] + rest, base, lines, r.aStart, r.bStart) && Separated([r] + rest)
    ensures Weight([r] + rest) == (r.aEnd - r.aStart) + (r.bEnd - r.bStart) + Weight(rest)
  {
    assert ([r] + rest)[1..] == rest;
  }

  /** Every change list can be written as a script of the same cost. */
  lemma {:induction false} ScriptOf(rs: seq<Range>, base: seq<Line>, lines: seq<Line>, x: nat, y: nat)
    returns (ops: seq<Op<Line>>)
    requires Aligned(rs, base, lines, x, y)
    ensures LineGrid(base, lines).Script(ops, x, y) && Cost(ops) == Weight(rs)
    decreases |rs|
  {
    var g := LineGrid(base, lines);
    if rs == [] {
      ops := KeepScript(base, lines, x, y, |base|, []);
    } else {
      var r := rs[0];
      ops := ScriptOf(rs[1..], base, lines, r.aEnd, r.bEnd);
      ops := ReplaceScript(base, lines, r.aStart, r.aEnd, r.bStart, r.bEnd, ops);
      ops := KeepScript(base, lines, x, y, r.aStart, ops);
    }
  }

  lemma KeepScript(base: seq<Line>, lines: seq<Line>, x: nat, y: nat, s: nat, rest: seq<Op<Line>>)
    returns (ops: seq<Op<Line>>)
    requires x <= s <= |base| && y + (s - x) <= |lines| && base[x..s] == lines[y..y + (s - x)]
    requires LineGrid(base, lines).Script(rest, s, y + (s - x))
    ensures LineGrid(base, lines).Script(ops, x, y) && Cost(ops) == Cost(rest)
  {
    var g := LineGrid(base, lines);
    var k := x - y;
    forall i | x <= i < s
      ensures g.Match(k, i)
    {
      assert base[i] == base[x..s][i - x];
      assert lines[i - k] == lines[y..y + (s - x)][i - x];
    }
    g.KeepsScript(x - y, x, s, rest);
    ops := g.Keeps(x - y, x, s) + rest;
  }

  lemma {:induction false} ReplaceScript(base: seq<Line>, lines: seq<Line>, x: nat, x': nat, y: nat, y': nat,
                                         rest: seq<Op<Line>>)
    returns (ops: seq<Op<Line>>)
    requires x <= x' <= |base| && y <= y' <= |lines| && LineGrid(base, lines).Script(rest, x', y')
    ensures LineGrid(base, lines).Script(ops, x, y) && Cost(ops) == Cost(rest) + (x' - x) + (y' - y)
    decreases x' - x, y' - y
  {
    if x < x' {
      ops := ReplaceScript(base, lines, x + 1, x', y, y', rest);
      ops := Prepend(Op(Removed, base[x], x, y), ops);
    } else if y < y' {
      ops := ReplaceScript(base, lines, x, x', y + 1, y', rest);
      ops := Prepend(Op(Added, lines[y], x, y), ops);
    } else {
      ops := rest;
    }
  }

  lemma Prepend(op: Op<Line>, rest: seq<Op<Line>>) returns (ops: seq<Op<Line>>)
    requires !op.kind.Equal?
    ensures ops == [op] + rest && ops[0] == op && ops[1..] == rest && Cost(ops) == 1 + Cost(rest)
  {
    ops := [op] + rest;
    assert ops[1..] == rest;
  }

  /** The ranges of a diff are a change list, and a least one. */
  lemma ChangeListIsChanges(base: seq<Line>, lines: seq<Line>, side: Side)
    ensures Changes(ChangeList(base, lines, side), base, lines, 0, 0)
    ensures forall r :: r in ChangeList(base, lines, side) ==> r.side == side
  {
    var g := LineGrid(base, lines);
    g.DiffIsMinimal();
    RangesAligned(base, lines, g.Diff(), 0, 0, side);
    RangesSide(g.Diff(), 0, 0, side);
    hide Ranges, Aligned, Grid.Diff, Grid.Script;
    forall other | Aligned(other, base, lines, 0, 0)
      ensures Weight(ChangeList(base, lines, side)) <= Weight(other)
    {
      var ops := ScriptOf(other, base, lines, 0, 0);
    }
  }

  method ChangeRanges(base: seq<Line>, lines: seq<Line>, side: Side) returns (out: seq<Range>)
    ensures out == ChangeList(base, lines, side)
  {
    var ops := LinesWith(base, lines, Exact);
    hide Grid.Diff, Ranges, Count, EditRun;
    out := [];
    var aPos, bPos, i := 0, 0, 0;
    assert ops[0..] == ops;
    while i < |ops|
      invariant 0 <= i <= |ops| && 0 <= aPos && 0 <= bPos
      invariant out + Ranges(ops[i..], aPos, bPos, side) == ChangeList(base, lines, side)
    {
      RangesStep(ops[i..], aPos, bPos, side);
      if ops[i].kind == Equal {
        aPos, bPos := ops[i].posA + 1, ops[i].posB + 1;
        assert ops[i..][1..] == ops[i + 1..];
        i := i + 1;
        continue;
      }
      var n, removed, added := ReadRun(ops, i);
      assert ops[i..][n..] == ops[i + n..];
      out := out + [Range(aPos, aPos + removed, bPos, bPos + added, side)];
      i, aPos, bPos := i + n, aPos + removed, bPos + added;
    }
    assert ops[|ops|..] == [];
    assert Ranges([], aPos, bPos, side) == [] by { NoRanges(aPos, bPos, side); }
  }

  lemma NoRanges(x: nat, y: nat, side: Side)
    ensures Ranges([], x, y, side) == []
  {
  }

  /** Reads the edits up to the next kept line. */
  method ReadRun(ops: seq<Op<Line>>, start: nat) returns (n: nat, removed: nat, added: nat)
    requires start <= |ops|
    ensures n == EditRun(ops[start..])
    ensures removed == Count(ops[start..][..n], Removed) && added == Count(ops[start..][..n], Added)
  {
    ghost var run := ops[start..];
    n, removed, added := 0, 0, 0;
    while start + n < |ops| && ops[start + n].kind != Equal
      invariant n <= |run| && EditRun(run) == n + EditRun(run[n..])
      invariant removed == Count(run[..n], Removed) && added == Count(run[..n], Added)
    {
      RunStep(run, n, Removed);
      RunStep(run, n, Added);
      assert run[n..][1..] == run[n + 1..];
      if ops[start + n].kind == Removed {
        removed := removed + 1;
      } else {
        added := added + 1;
      }
      n := n + 1;
    }
  }

  lemma RunStep(run: seq<Op<Line>>, n: nat, kind: Kind)
    requires n < |run|
    ensures Count(run[..n + 1], kind) == Count(run[..n], kind) + (if run[n].kind == kind then 1 else 0)
  {
    assert run[..n + 1] == run[..n] + [run[n]];
    CountConcat(run[..n], [run[n]], kind);
  }
}
