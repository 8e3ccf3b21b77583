/** Myers' greedy line diff, as computed by `LinesWith`.

    The specification is the edit grid: a script is a path from (0, 0) to
    (|a|, |b|), and its cost is the number of removed and added lines.
    `Far(p, q)` is what the search keeps in its `v` array at diagonal p - q
    after round p + q: how far p removals and q additions can get. Like the
    search, it lets points step past either end of the input. */
module EditScript {
  import opened Basics

  datatype Kind = Equal | Removed | Added

  /** One edit operation. `posA` and `posB` are the positions reached in a and b
      before the operation. */
  datatype Op<T> = Op(kind: Kind, line: T, posA: nat, posB: nat)

  predicate Exact<T(==)>(x: T, y: T) {
    x == y
  }

  function Count<T>(ops: seq<Op<T>>, kind: Kind): nat {
    if ops == [] then 0
    else (if ops[0].kind == kind then 1 else 0) + Count(ops[1..], kind)
  }

  /** The number of operations that are not kept lines. */
  function Cost<T>(ops: seq<Op<T>>): nat {
    Count(ops, Removed) + Count(ops, Added)
  }

  lemma {:induction false} CountConcat<T>(s: seq<Op<T>>, t: seq<Op<T>>, kind: Kind)
    ensures Count(s + t, kind) == Count(s, kind) + Count(t, kind)
  {
    if s == [] {
      assert s + t == t;
    } else {
      assert (s + t)[1..] == s[1..] + t;
      CountConcat(s[1..], t, kind);
    }
  }

  /** No added line stands right before a removed one. */
  ghost predicate RemovalsLead<T>(ops: seq<Op<T>>) {
    forall i :: 0 < i < |ops| ==> !(ops[i - 1].kind == Added && ops[i].kind == Removed)
  }

  datatype Grid<!T> = Grid(a: seq<T>, b: seq<T>, eq: (T, T) -> bool) {

    /** The cell of diagonal k in column x is a match. */
    predicate Match(k: int, x: int) {
      0 <= x < |a| && 0 <= x - k < |b| && eq(a[x], b[x - k])
    }

    ghost predicate Run(k: int, lo: int, hi: int) {
      forall i :: lo <= i < hi ==> Match(k, i)
    }

    /** `ops` edits a[x..] into b[y..], with every position recorded. */
    ghost predicate Script(ops: seq<Op<T>>, x: nat, y: nat)
      decreases |ops|
    {
      if ops == [] then x == |a| && y == |b|
      else
        ops[0].posA == x && ops[0].posB == y &&
        match ops[0].kind
        case Equal => Match(x - y, x) && ops[0].line == a[x] && Script(ops[1..], x + 1, y + 1)
        case Removed => x < |a| && ops[0].line == a[x] && Script(ops[1..], x + 1, y)
        case Added => y < |b| && ops[0].line == b[y] && Script(ops[1..], x, y + 1)
    }

    /** The end of the run of matches on diagonal k that starts at x. */
    function Slide(k: int, x: nat): (r: nat)
      ensures x <= r
      decreases |a| - x
    {
      if Match(k, x) then Slide(k, x + 1) else x
    }

    lemma SlideRuns(k: int, x: nat)
      ensures Run(k, x, Slide(k, x)) && !Match(k, Slide(k, x))
      decreases |a| - x
    {
      if Match(k, x) {
        SlideRuns(k, x + 1);
      }
    }

    /** Whether the last edit before the final slide is an added line. */
    ghost predicate Down(p: nat, q: nat)
      requires p + q > 0
      decreases p + q, 0
    {
      p == 0 || (q != 0 && Far(p - 1, q) < Far(p, q - 1))
    }

    /** Where the last edit lands on diagonal p - q, before sliding. */
    ghost function Entry(p: nat, q: nat): (x: int)
      requires p + q > 0
      ensures x >= 0 && x >= p - q
      decreases p + q, 1
    {
      if Down(p, q) then Far(p, q - 1) else Far(p - 1, q) + 1
    }

    ghost function Far(p: nat, q: nat): (x: int)
      ensures x >= 0 && x >= p - q
      decreases p + q, 2
    {
      if p + q == 0 then Slide(0, 0) else Slide(p - q, Entry(p, q))
    }

    lemma FarStops(p: nat, q: nat)
      ensures !Match(p - q, Far(p, q))
      ensures Run(p - q, if p + q == 0 then 0 else Entry(p, q), Far(p, q))
    {
      SlideRuns(p - q, if p + q == 0 then 0 else Entry(p, q));
    }

    lemma FarGrows(p: nat, q: nat)
      ensures Far(p, q) + 1 <= Far(p + 1, q)
      ensures Far(p, q) <= Far(p, q + 1)
    {
      assert Entry(p + 1, q) >= Far(p, q) + 1;
      assert Entry(p, q + 1) >= Far(p, q);
    }

    lemma SlidesOn(p: nat, q: nat, x: nat)
      requires x <= Far(p, q) && Match(p - q, x)
      ensures x + 1 <= Far(p, q)
    {
      hide Far;
      FarStops(p, q);
    }

    /** Far bounds every path: whatever script continues from a point no
        further than Far ends no further than Far. */
    lemma {:induction false} FarCovers(ops: seq<Op<T>>, p: nat, q: nat, x: nat, y: nat)
      requires Script(ops, x, y) && x - y == p - q && x <= Far(p, q)
      ensures p + Count(ops, Removed) - (q + Count(ops, Added)) == |a| - |b|
      ensures |a| <= Far(p + Count(ops, Removed), q + Count(ops, Added))
      decreases |ops|
    {
      hide Far, Match;
      if ops == [] {
        return;
      }
      FarGrows(p, q);
      var rest := ops[1..];
      if ops[0].kind == Equal {
        SlidesOn(p, q, x);
        FarCovers(rest, p, q, x + 1, y + 1);
      } else if ops[0].kind == Removed {
        FarCovers(rest, p + 1, q, x + 1, y);
      } else {
        FarCovers(rest, p, q + 1, x, y + 1);
      }
    }

    /** How the last edit leads to Far(p, q). */
    lemma LastEdit(p: nat, q: nat) returns (down: bool, s: int)
      requires p + q > 0
      ensures down ==> q > 0 && s == Far(p, q - 1)
      ensures !down ==> p > 0 && s == Far(p - 1, q) + 1
      ensures s <= Far(p, q) && Run(p - q, s, Far(p, q))
    {
      FarStops(p, q);
      down, s := Down(p, q), Entry(p, q);
    }

    lemma FarStart()
      ensures Far(0, 0) <= |a| && Far(0, 0) <= |b| && Run(0, 0, Far(0, 0))
    {
      FarStops(0, 0);
      assert Far(0, 0) > 0 ==> Match(0, Far(0, 0) - 1);
    }

    /** (x, y) pulled back into the grid by undoing the steps beyond it is
        covered with that many edits fewer than p removals and q additions. */
    ghost predicate Covered(p: nat, q: nat, x: int, y: int) {
      var p', q' := p - (x - Min(x, |a|)), q - (y - Min(y, |b|));
      p' >= 0 && q' >= 0 && Min(x, |a|) <= Far(p', q')
    }

    lemma CoveredStep(p: nat, q: nat, x: int, y: int)
      requires Covered(p, q, x, y)
      ensures Covered(p + 1, q, x + 1, y) && Covered(p, q + 1, x, y + 1)
    {
      hide Far;
      FarGrows(p - (x - Min(x, |a|)), q - (y - Min(y, |b|)));
    }

    /** A point that stepped off the grid wasted edits: pulling it back gives a
        point that was already covered that many edits earlier. */
    lemma {:induction false} Clamped(p: nat, q: nat)
      ensures Covered(p, q, Far(p, q), Far(p, q) - (p - q))
      decreases p + q
    {
      hide Far;
      if p + q == 0 {
        FarStart();
        return;
      }
      var x := Far(p, q);
      var down, s := LastEdit(p, q);
      if x > s {
        assert Match(p - q, s) && Match(p - q, x - 1);
      } else if down {
        Clamped(p, q - 1);
        CoveredStep(p, q - 1, s, s - (p - q) - 1);
      } else {
        Clamped(p - 1, q);
        CoveredStep(p - 1, q, s - 1, s - (p - q));
      }
    }

    /** The search reaches the end point with p removals and q additions. */
    ghost predicate Solved(p: nat, q: nat) {
      p - q == |a| - |b| && Far(p, q) >= |a|
    }

    /** The search stops at any point at or beyond the end. In the first round
        that has one, it is the end point itself. */
    lemma FirstHitIsTheEnd(p: nat, q: nat)
      requires Far(p, q) >= |a| && Far(p, q) - (p - q) >= |b|
      requires forall p': nat, q': nat :: p' + q' < p + q ==> !Solved(p', q')
      ensures Solved(p, q) && Far(p, q) == |a|
    {
      hide Far;
      Clamped(p, q);
      var x := Far(p, q);
      assert Solved(p - (x - |a|), q - (x - (p - q) - |b|));
    }

    // ---- the least number of edits ----

    function Replace(x: nat, y: nat): seq<Op<T>>
      requires x <= |a| && y <= |b|
      decreases |a| - x, |b| - y
    {
      if x < |a| then [Op(Removed, a[x], x, y)] + Replace(x + 1, y)
      else if y < |b| then [Op(Added, b[y], x, y)] + Replace(x, y + 1)
      else []
    }

    lemma ReplaceFirst(x: nat, y: nat)
      requires x <= |a| && y <= |b|
      ensures x < |a| ==> Replace(x, y) == [Op(Removed, a[x], x, y)] + Replace(x + 1, y)
      ensures x == |a| && y < |b| ==> Replace(x, y) == [Op(Added, b[y], x, y)] + Replace(x, y + 1)
      ensures x == |a| && y == |b| ==> Replace(x, y) == []
    {
    }

    /** Removing everything and adding everything is always a script. */
    lemma {:induction false} ReplaceIsScript(x: nat, y: nat)
      requires x <= |a| && y <= |b|
      ensures Script(Replace(x, y), x, y)
      ensures Count(Replace(x, y), Removed) == |a| - x && Count(Replace(x, y), Added) == |b| - y
      decreases |a| - x, |b| - y
    {
      if x < |a| {
        ReplaceIsScript(x + 1, y);
      } else if y < |b| {
        ReplaceIsScript(x, y + 1);
      }
    }

    /** The search always succeeds by round |a| + |b|. */
    lemma AlwaysSolved()
      ensures Solved(|a|, |b|)
    {
      ReplaceIsScript(0, 0);
      FarCovers(Replace(0, 0), 0, 0, 0, 0);
    }

    ghost predicate SolvedWith(p: nat) {
      |a| - |b| <= p && Solved(p, p - (|a| - |b|))
    }

    /** The removals of the first round that reaches the end, from p on. */
    ghost function Goal(p: nat): (g: nat)
      requires |a| - |b| <= p <= |a|
      ensures p <= g <= |a| && SolvedWith(g)
      ensures forall i :: p <= i < g ==> !SolvedWith(i)
      decreases |a| - p
    {
      assert SolvedWith(|a|) by { AlwaysSolved(); }
      if SolvedWith(p) then p else Goal(p + 1)
    }

    ghost function Removals(): (p: nat)
      ensures p <= |a| && SolvedWith(p)
      ensures forall i: nat :: i < p ==> !SolvedWith(i)
    {
      Goal(if |a| < |b| then 0 else |a| - |b|)
    }

    ghost function Additions(): nat {
      Removals() - (|a| - |b|)
    }

    // ---- the script read back from the search ----

    function Keeps(k: int, lo: nat, hi: nat): seq<Op<T>>
      requires k <= lo <= hi <= |a|
    {
      seq(hi - lo, i requires 0 <= i < hi - lo => Op(Equal, a[lo + i], lo + i, lo + i - k))
    }

    lemma KeepsFirst(k: int, lo: nat, hi: nat)
      requires k <= lo < hi <= |a|
      ensures Keeps(k, lo, hi) == [Op(Equal, a[lo], lo, lo - k)] + Keeps(k, lo + 1, hi)
    {
    }

    lemma {:induction false} KeepsScript(k: int, lo: nat, hi: nat, rest: seq<Op<T>>)
      requires k <= lo <= hi <= |a| && Run(k, lo, hi) && Script(rest, hi, hi - k)
      ensures Script(Keeps(k, lo, hi) + rest, lo, lo - k)
      ensures Count(Keeps(k, lo, hi) + rest, Removed) == Count(rest, Removed)
      ensures Count(Keeps(k, lo, hi) + rest, Added) == Count(rest, Added)
      decreases hi - lo
    {
      hide Script, Count;
      if lo == hi {
        assert Keeps(k, lo, hi) + rest == rest;
      } else {
        KeepsScript(k, lo + 1, hi, rest);
        assert Match(k, lo);
        KeepsFirst(k, lo, hi);
        ConcatThree([Op(Equal, a[lo], lo, lo - k)], Keeps(k, lo + 1, hi), rest);
        EqualFirst(Keeps(k, lo + 1, hi) + rest, lo, lo - k);
      }
    }

    lemma EqualFirst(kept: seq<Op<T>>, x: nat, y: nat)
      requires Match(x - y, x) && Script(kept, x + 1, y + 1)
      ensures var ops := [Op(Equal, a[x], x, y)] + kept;
              Script(ops, x, y) && Count(ops, Removed) == Count(kept, Removed) &&
              Count(ops, Added) == Count(kept, Added)
    {
      assert ([Op(Equal, a[x], x, y)] + kept)[1..] == kept;
    }

    ghost predicate InGrid(p: nat, q: nat) {
      Far(p, q) <= |a| && Far(p, q) - (p - q) <= |b|
    }

    ghost predicate InGridBefore(p: nat, q: nat)
      requires p + q > 0
    {
      && (if Down(p, q) then q > 0 && Entry(p, q) == Far(p, q - 1) && InGrid(p, q - 1)
          else p > 0 && Entry(p, q) == Far(p - 1, q) + 1 && InGrid(p - 1, q))
      && p - q <= Entry(p, q) <= Far(p, q) && Run(p - q, Entry(p, q), Far(p, q))
    }

    lemma InGridBack(p: nat, q: nat)
      requires p + q > 0 && InGrid(p, q)
      ensures InGridBefore(p, q)
    {
      FarStops(p, q);
    }

    /** The edit of round p + q. */
    ghost function LastOp(p: nat, q: nat): Op<T>
      requires p + q > 0 && InGrid(p, q) && InGridBefore(p, q)
    {
      var s := Entry(p, q);
      if Down(p, q) then Op(Added, b[s - (p - q) - 1], s, s - (p - q) - 1)
      else Op(Removed, a[s - 1], s - 1, s - (p - q))
    }

    /** The operations of round p + q: one edit, then the lines kept by sliding. */
    ghost function LastOps(p: nat, q: nat): seq<Op<T>>
      requires p + q > 0 && InGrid(p, q) && InGridBefore(p, q)
    {
      [LastOp(p, q)] + Keeps(p - q, Entry(p, q), Far(p, q))
    }

    lemma LastOpsIs(p: nat, q: nat)
      requires p + q > 0 && InGrid(p, q) && InGridBefore(p, q)
      ensures var s := Entry(p, q);
              LastOps(p, q) ==
                [if Down(p, q) then Op(Added, b[s - (p - q) - 1], s, s - (p - q) - 1)
                 else Op(Removed, a[s - 1], s - 1, s - (p - q))]
                + Keeps(p - q, s, Far(p, q))
    {
      hide Far, Entry, Down, Keeps, Run, InGrid;
    }

    lemma LastOpsScript(p: nat, q: nat, rest: seq<Op<T>>)
      requires p + q > 0 && InGrid(p, q) && Script(rest, Far(p, q), Far(p, q) - (p - q))
      requires InGridBefore(p, q)
      ensures var (p', q') := if Down(p, q) then (p, q - 1) else (p - 1, q);
              var ops := LastOps(p, q) + rest;
              && Script(ops, Far(p', q'), Far(p', q') - (p' - q'))
              && Count(ops, Removed) == Count(rest, Removed) + (p - p')
              && Count(ops, Added) == Count(rest, Added) + (q - q')
    {
      hide Far, Entry, Down, Script, Count, Keeps;
      var s, k := Entry(p, q), p - q;
      var kept := Keeps(k, s, Far(p, q)) + rest;
      KeepsScript(k, s, Far(p, q), rest);
      if Down(p, q) {
        AddedFirst(kept, s, s - k - 1);
        ConcatThree([Op(Added, b[s - k - 1], s, s - k - 1)], Keeps(k, s, Far(p, q)), rest);
      } else {
        RemovedFirst(kept, s - 1, s - k);
        ConcatThree([Op(Removed, a[s - 1], s - 1, s - k)], Keeps(k, s, Far(p, q)), rest);
      }
    }

    lemma AddedFirst(kept: seq<Op<T>>, x: nat, y: nat)
      requires y < |b| && Script(kept, x, y + 1)
      ensures var ops := [Op(Added, b[y], x, y)] + kept;
              Script(ops, x, y) && Count(ops, Removed) == Count(kept, Removed) &&
              Count(ops, Added) == Count(kept, Added) + 1
    {
      hide Match;
      assert ([Op(Added, b[y], x, y)] + kept)[1..] == kept;
    }

    lemma RemovedFirst(kept: seq<Op<T>>, x: nat, y: nat)
      requires x < |a| && Script(kept, x + 1, y)
      ensures var ops := [Op(Removed, a[x], x, y)] + kept;
              Script(ops, x, y) && Count(ops, Removed) == Count(kept, Removed) + 1 &&
              Count(ops, Added) == Count(kept, Added)
    {
      hide Match;
      assert ([Op(Removed, a[x], x, y)] + kept)[1..] == kept;
    }

    lemma ConcatThree(u: seq<Op<T>>, v: seq<Op<T>>, w: seq<Op<T>>)
      ensures (u + v) + w == u + (v + w)
    {
    }

    /** The operations that lead to the point Far(p, q). */
    ghost function Trail(p: nat, q: nat): seq<Op<T>>
      requires InGrid(p, q)
      decreases p + q
    {
      if p + q == 0 then Keeps(0, 0, Far(0, 0))
      else
        assert InGridBefore(p, q) by { InGridBack(p, q); }
        (if Down(p, q) then Trail(p, q - 1) else Trail(p - 1, q)) + LastOps(p, q)
    }

    lemma TrailIs(p: nat, q: nat)
      requires InGrid(p, q)
      ensures p + q == 0 ==> Trail(p, q) == Keeps(0, 0, Far(0, 0))
      ensures p + q > 0 ==> InGridBefore(p, q)
      ensures p + q > 0 ==> Trail(p, q) == (if Down(p, q) then Trail(p, q - 1) else Trail(p - 1, q)) + LastOps(p, q)
    {
      hide Far;
      if p + q > 0 {
        InGridBack(p, q);
      }
    }

    lemma {:induction false} TrailScript(p: nat, q: nat, rest: seq<Op<T>>)
      requires InGrid(p, q) && Script(rest, Far(p, q), Far(p, q) - (p - q))
      ensures Script(Trail(p, q) + rest, 0, 0)
      ensures Count(Trail(p, q) + rest, Removed) == p + Count(rest, Removed)
      ensures Count(Trail(p, q) + rest, Added) == q + Count(rest, Added)
      decreases p + q
    {
      hide Far, LastOps, Trail, Down, Entry, Script, Count;
      TrailIs(p, q);
      if p + q == 0 {
        FarStart();
        KeepsScript(0, 0, Far(0, 0), rest);
      } else {
        LastOpsScript(p, q, rest);
        var ops := LastOps(p, q) + rest;
        if Down(p, q) {
          TrailScript(p, q - 1, ops);
          assert Trail(p, q) + rest == Trail(p, q - 1) + ops;
        } else {
          TrailScript(p - 1, q, ops);
          assert Trail(p, q) + rest == Trail(p - 1, q) + ops;
        }
      }
    }

    /** The recurrence behind one cell of the `v` array. */
    lemma FarIs(p: nat, q: nat)
      ensures p + q == 0 ==> Far(p, q) == Slide(0, 0)
      ensures p + q > 0 ==> Far(p, q) == Slide(p - q, Entry(p, q)) &&
                            Down(p, q) == (p == 0 || (q != 0 && Far(p - 1, q) < Far(p, q - 1))) &&
                            Entry(p, q) == if Down(p, q) then Far(p, q - 1) else Far(p - 1, q) + 1
    {
    }

    lemma FirstSolved(d: nat)
      requires exists p: nat, q: nat :: p + q == d && Solved(p, q)
      requires forall p: nat, q: nat :: p + q < d ==> !Solved(p, q)
      ensures Additions() >= 0 && d == Removals() + Additions()
    {
      hide Far;
      var p: nat, q: nat :| p + q == d && Solved(p, q);
      assert SolvedWith(p);
      GoalReached();
      assert Solved(Removals(), Additions());
    }

    lemma GoalReached()
      ensures Additions() >= 0 && Solved(Removals(), Additions())
      ensures Far(Removals(), Additions()) == |a| && InGrid(Removals(), Additions())
    {
      hide Far;
      var p, q := Removals(), Additions();
      assert SolvedWith(p);
      forall p': nat, q': nat | p' + q' < p + q
        ensures !Solved(p', q')
      {
        assert !SolvedWith(p') || p' - q' != |a| - |b|;
      }
      FirstHitIsTheEnd(p, q);
    }

    /** The script `LinesWith` returns. */
    ghost function Diff(): seq<Op<T>> {
      if |a| == 0 || |b| == 0 then Replace(0, 0)
      else
        GoalReached();
        Trail(Removals(), Additions())
    }

    lemma DiffCounts()
      ensures Script(Diff(), 0, 0)
      ensures |a| == 0 || |b| == 0 ==> Diff() == Replace(0, 0) && Cost(Diff()) == |a| + |b|
      ensures |a| > 0 && |b| > 0 ==> Cost(Diff()) == Removals() + Additions()
    {
      hide Far, Script, Count, Trail, Replace, Removals;
      if |a| == 0 || |b| == 0 {
        ReplaceIsScript(0, 0);
      } else {
        GoalReached();
        var diff := Trail(Removals(), Additions());
        NothingLeft();
        TrailScript(Removals(), Additions(), []);
        assert diff + [] == diff;
      }
    }

    // ---- removed lines come first ----

    lemma KeepsEqual(k: int, lo: nat, hi: nat)
      requires k <= lo <= hi <= |a|
      ensures |Keeps(k, lo, hi)| == hi - lo
      ensures forall i :: 0 <= i < |Keeps(k, lo, hi)| ==> Keeps(k, lo, hi)[i].kind == Equal
    {
    }

    /** A trail that ends in an added line slid nowhere after it. */
    lemma EndsAdded(p: nat, q: nat)
      requires InGrid(p, q) && Trail(p, q) != [] && Trail(p, q)[|Trail(p, q)| - 1].kind == Added
      ensures p + q > 0 && Down(p, q) && Far(p, q) == Entry(p, q)
    {
      hide Far, Entry, Down, Keeps, Trail, LastOps;
      TrailIs(p, q);
      if p + q == 0 {
        FarStart();
        KeepsEqual(0, 0, Far(0, 0));
      } else {
        LastOpsIs(p, q);
        KeepsEqual(p - q, Entry(p, q), Far(p, q));
      }
    }

    /** The search takes a removal before an addition where it can. */
    lemma RemovalBefore(p: nat, q: nat)
      requires p > 0 && p - 1 + q > 0 && Down(p - 1, q) && Far(p - 1, q) == Entry(p - 1, q)
      ensures Down(p, q)
    {
      assert q > 0 && Far(p - 1, q) == Far(p - 1, q - 1);
      FarGrows(p - 1, q - 1);
    }

    lemma JoinLeads(s: seq<Op<T>>, t: seq<Op<T>>)
      requires RemovalsLead(s) && RemovalsLead(t)
      requires s != [] && t != [] ==> !(s[|s| - 1].kind == Added && t[0].kind == Removed)
      ensures RemovalsLead(s + t)
    {
      var u := s + t;
      forall i | 0 < i < |u| ensures !(u[i - 1].kind == Added && u[i].kind == Removed) {
        if i < |s| {
          assert u[i - 1] == s[i - 1] && u[i] == s[i];
        } else if i > |s| {
          var k := i - |s|;
          assert u[i - 1] == t[k - 1] && u[i] == t[k];
        }
      }
    }

    lemma LastOpsLead(p: nat, q: nat)
      requires p + q > 0 && InGrid(p, q) && InGridBefore(p, q)
      ensures LastOps(p, q) != [] && RemovalsLead(LastOps(p, q))
      ensures LastOps(p, q)[0].kind == if Down(p, q) then Added else Removed
    {
      hide Far, Entry, Down, Keeps, LastOps;
      LastOpsIs(p, q);
      KeepsEqual(p - q, Entry(p, q), Far(p, q));
    }

    lemma {:induction false} TrailLeads(p: nat, q: nat)
      requires InGrid(p, q)
      ensures RemovalsLead(Trail(p, q))
      decreases p + q
    {
      hide Far, Entry, Down, Keeps, Trail, LastOps, RemovalsLead;
      TrailIs(p, q);
      if p + q == 0 {
        FarStart();
        KeepsEqual(0, 0, Far(0, 0));
        EqualLead(Keeps(0, 0, Far(0, 0)));
      } else {
        LastOpsLead(p, q);
        if Down(p, q) {
          TrailLeads(p, q - 1);
          JoinLeads(Trail(p, q - 1), LastOps(p, q));
        } else {
          var before := Trail(p - 1, q);
          TrailLeads(p - 1, q);
          if before != [] && before[|before| - 1].kind == Added {
            EndsAdded(p - 1, q);
            RemovalBefore(p, q);
          }
          JoinLeads(before, LastOps(p, q));
        }
      }
    }

    lemma EqualLead(ops: seq<Op<T>>)
      requires forall i :: 0 <= i < |ops| ==> ops[i].kind == Equal
      ensures RemovalsLead(ops)
    {
    }

    lemma {:induction false} ReplaceLeads(x: nat, y: nat)
      requires x <= |a| && y <= |b|
      ensures RemovalsLead(Replace(x, y))
      ensures x == |a| ==> forall i :: 0 <= i < |Replace(x, y)| ==> Replace(x, y)[i].kind == Added
      decreases |a| - x, |b| - y
    {
      hide Replace;
      ReplaceFirst(x, y);
      if x < |a| {
        ReplaceLeads(x + 1, y);
      } else if y < |b| {
        ReplaceLeads(x, y + 1);
      }
    }

    /** In every run of edits the removed lines come before the added ones. */
    lemma DiffLeads()
      ensures RemovalsLead(Diff())
    {
      hide Far, Trail, Replace, Removals, RemovalsLead;
      if |a| == 0 || |b| == 0 {
        ReplaceLeads(0, 0);
      } else {
        GoalReached();
        TrailLeads(Removals(), Additions());
      }
    }

    lemma NothingLeft()
      ensures Script([], |a|, |b|) && Count<T>([], Removed) == 0 && Count<T>([], Added) == 0
    {
    }

    lemma NoneCheaper(ops: seq<Op<T>>)
      requires Script(ops, 0, 0)
      ensures Cost(Diff()) <= Cost(ops)
    {
      hide Far, Script, Count, Diff;
      DiffCounts();
      StartsAtZero();
      FarCovers(ops, 0, 0, 0, 0);
      var p := Count(ops, Removed);
      assert SolvedWith(p);
    }

    lemma StartsAtZero()
      ensures 0 <= Far(0, 0)
    {
    }

    /** The script is a script, and no script for the same input is cheaper. */
    lemma DiffIsMinimal()
      ensures Script(Diff(), 0, 0)
      ensures forall ops :: Script(ops, 0, 0) ==> Cost(Diff()) <= Cost(ops)
    {
      hide Far, Script, Diff;
      DiffCounts();
      forall ops | Script(ops, 0, 0)
        ensures Cost(Diff()) <= Cost(ops)
      {
        NoneCheaper(ops);
      }
    }

    /** The lines of a are the kept and removed lines, in order. */
    lemma {:induction false} OldSide(ops: seq<Op<T>>, x: nat, y: nat)
      requires Script(ops, x, y)
      ensures x <= |a| && Lines(ops, Added) == a[x..]
      decreases |ops|
    {
      if ops != [] {
        var dx, dy := if ops[0].kind.Added? then 0 else 1, if ops[0].kind.Removed? then 0 else 1;
        OldSide(ops[1..], x + dx, y + dy);
      }
    }

    /** The lines of b are the kept and added lines, in order; a kept line is
        a's version of it. */
    lemma {:induction false} NewSide(ops: seq<Op<T>>, x: nat, y: nat)
      requires Script(ops, x, y)
      ensures y <= |b| && |Lines(ops, Removed)| == |b| - y
      ensures forall j :: 0 <= j < |b| - y ==>
        Lines(ops, Removed)[j] == b[y + j] || eq(Lines(ops, Removed)[j], b[y + j])
      decreases |ops|
    {
      if ops != [] {
        var dx, dy := if ops[0].kind.Added? then 0 else 1, if ops[0].kind.Removed? then 0 else 1;
        NewSide(ops[1..], x + dx, y + dy);
      }
    }
  }

  /** The lines of the operations of every kind but one. */
  function Lines<T>(ops: seq<Op<T>>, except: Kind): seq<T> {
    if ops == [] then []
    else (if ops[0].kind == except then [] else [ops[0].line]) + Lines(ops[1..], except)
  }

  // ---- the algorithm ----

  function Reversed<T>(s: seq<T>): seq<T> {
    if s == [] then [] else Reversed(s[1..]) + [s[0]]
  }

  lemma {:induction false} ReversedAt<T>(s: seq<T>)
    ensures |Reversed(s)| == |s|
    ensures forall i :: 0 <= i < |s| ==> Reversed(s)[i] == s[|s| - 1 - i]
  {
    if s != [] {
      ReversedAt(s[1..]);
    }
  }

  lemma {:induction false} ReversedConcat<T>(s: seq<T>, t: seq<T>)
    ensures Reversed(s + t) == Reversed(t) + Reversed(s)
  {
    if s == [] {
      assert s + t == t;
    } else {
      assert (s + t)[1..] == s[1..] + t;
      ReversedConcat(s[1..], t);
    }
  }

  lemma ReversedAppend<T>(s: seq<T>, x: T)
    ensures Reversed(s + [x]) == [x] + Reversed(s)
  {
    ReversedConcat(s, [x]);
    assert Reversed([x]) == [x];
  }

  /** The row holds the furthest points of the first `count` diagonals of
      round d. */
  ghost predicate Row<T>(g: Grid<T>, row: seq<int>, d: nat, count: int) {
    var max := |g.a| + |g.b|;
    && |row| == 2 * max + 1
    && forall p: nat, q: nat :: p + q == d <= max && p < count ==> row[p - q + max] == g.Far(p, q)
  }

  method LinesWith<T>(a: seq<T>, b: seq<T>, eq: (T, T) -> bool) returns (ops: seq<Op<T>>)
    ensures ops == Grid(a, b, eq).Diff()
    ensures Grid(a, b, eq).Script(ops, 0, 0)
    ensures forall other :: Grid(a, b, eq).Script(other, 0, 0) ==> Cost(ops) <= Cost(other)
  {
    hide Grid.Diff, Grid.Script, Grid.Replace, Grid.Removals, Grid.Additions, Row, Reversed;
    ghost var g := Grid(a, b, eq);
    g.DiffCounts();
    if |a| == 0 {
      ops := AddAll(b, a, eq);
    } else if |b| == 0 {
      ops := RemoveAll(a, b, eq);
    } else {
      var d, trace := Search(a, b, eq);
      ops := Backtrack(a, b, eq, d, trace);
      ops := Reverse(ops);
    }
    g.DiffIsMinimal();
  }

  /** All lines of b added to nothing. */
  method AddAll<T>(b: seq<T>, ghost a: seq<T>, ghost eq: (T, T) -> bool) returns (ops: seq<Op<T>>)
    requires |a| == 0
    ensures ops == Grid(a, b, eq).Replace(0, 0)
  {
    hide Grid.Replace;
    ghost var g := Grid(a, b, eq);
    ops := [];
    var y := 0;
    while y < |b|
      invariant 0 <= y <= |b| && ops + g.Replace(0, y) == g.Replace(0, 0)
    {
      g.ReplaceFirst(0, y);
      g.ConcatThree(ops, [Op(Added, b[y], 0, y)], g.Replace(0, y + 1));
      ops := ops + [Op(Added, b[y], 0, y)];
      y := y + 1;
    }
    g.ReplaceFirst(0, y);
  }

  /** All lines of a removed. */
  method RemoveAll<T>(a: seq<T>, ghost b: seq<T>, ghost eq: (T, T) -> bool) returns (ops: seq<Op<T>>)
    requires |b| == 0
    ensures ops == Grid(a, b, eq).Replace(0, 0)
  {
    hide Grid.Replace;
    ghost var g := Grid(a, b, eq);
    ops := [];
    var x := 0;
    while x < |a|
      invariant 0 <= x <= |a| && ops + g.Replace(x, 0) == g.Replace(0, 0)
    {
      g.ReplaceFirst(x, 0);
      g.ConcatThree(ops, [Op(Removed, a[x], x, 0)], g.Replace(x + 1, 0));
      ops := ops + [Op(Removed, a[x], x, 0)];
      x := x + 1;
    }
    g.ReplaceFirst(x, 0);
  }

  /** The rounds of the search, with the `v` array saved after each. */
  method Search<T>(a: seq<T>, b: seq<T>, eq: (T, T) -> bool) returns (d: nat, trace: seq<seq<int>>)
    requires |a| > 0 && |b| > 0
    ensures var g := Grid(a, b, eq);
            && g.Additions() >= 0
            && d == g.Removals() + g.Additions() < |trace|
            && forall e :: 0 <= e < d ==> Row(g, trace[e], e, e + 1)
  {
    ghost var g := Grid(a, b, eq);
    hide Grid.Far;
    var max := |a| + |b|;
    var v := new int[2 * max + 1](_ => 0);
    trace := [];
    d := 0;
    while d <= max
      invariant 0 <= d <= max + 1 && |trace| == d && v.Length == 2 * max + 1
      invariant forall e :: 0 <= e < d ==> Row(g, trace[e], e, e + 1)
      invariant if d == 0 then v[1 + max] == 0 else Row(g, v[..], d - 1, d)
      invariant forall p: nat, q: nat :: p + q < d ==> !g.Solved(p, q)
    {
      var found := Round(a, b, eq, v, d);
      trace := trace + [v[..]];
      if found {
        g.FirstSolved(d);
        return;
      }
      d := d + 1;
    }
    g.AlwaysSolved();
    assert false;
  }

  /** One round: every diagonal k of round d, stopping at the end point. */
  method Round<T>(a: seq<T>, b: seq<T>, eq: (T, T) -> bool, v: array<int>, d: int) returns (found: bool)
    requires 0 <= d <= |a| + |b| && v.Length == 2 * (|a| + |b|) + 1
    requires |a| > 0 && |b| > 0
    requires if d == 0 then v[1 + |a| + |b|] == 0 else Row(Grid(a, b, eq), v[..], d - 1, d)
    requires forall p: nat, q: nat :: p + q < d ==> !Grid(a, b, eq).Solved(p, q)
    modifies v
    ensures found ==> exists p: nat, q: nat :: p + q == d && Grid(a, b, eq).Solved(p, q)
    ensures !found ==> Row(Grid(a, b, eq), v[..], d, d + 1)
    ensures !found ==> forall p: nat, q: nat :: p + q == d ==> !Grid(a, b, eq).Solved(p, q)
  {
    ghost var g := Grid(a, b, eq);
    hide Grid.Far;
    var n, m := |a|, |b|;
    var max := n + m;
    var k := -d;
    ghost var p := 0;
    while k <= d
      invariant 0 <= p <= d + 1 && k == 2 * p - d
      invariant d == 0 && p == 0 ==> v[1 + max] == 0
      invariant d > 0 ==> Row(g, v[..], d - 1, d)
      invariant Row(g, v[..], d, p)
      invariant forall p': nat, q': nat :: p' < p && p' + q' == d ==> !g.Solved(p', q')
    {
      var x := Diagonal(a, b, eq, v, d, k, p, d - p);
      v[k + max] := x;
      if x >= n && x - k >= m {
        g.FirstHitIsTheEnd(p, d - p);
        return true;
      }
      k, p := k + 2, p + 1;
    }
    return false;
  }

  /** The furthest point of one diagonal from those of the round before. */
  method Diagonal<T>(a: seq<T>, b: seq<T>, eq: (T, T) -> bool, v: array<int>, d: int, k: int,
                      ghost p: nat, ghost q: nat)
    returns (x: int)
    requires d == p + q <= |a| + |b| && k == p - q && v.Length == 2 * (|a| + |b|) + 1
    requires |a| > 0 && |b| > 0
    requires if d == 0 then v[1 + |a| + |b|] == 0 else Row(Grid(a, b, eq), v[..], d - 1, d)
    ensures x == Grid(a, b, eq).Far(p, q)
  {
    hide Grid.Far, Grid.Entry, Grid.Down, Grid.Slide, Row;
    ghost var g := Grid(a, b, eq);
    g.FarIs(p, q);
    var max := |a| + |b|;
    if d > 0 {
      RowNeighbours(g, v[..], p, q);
    }
    if k == -d || (k != d && v[k - 1 + max] < v[k + 1 + max]) {
      x := v[k + 1 + max];
    } else {
      x := v[k - 1 + max] + 1;
    }
    x := SlideFrom(a, b, eq, k, x);
  }

  /** The cells of the round before that lead to diagonal p - q. */
  lemma RowNeighbours<T>(g: Grid<T>, row: seq<int>, p: nat, q: nat)
    requires 0 < p + q <= |g.a| + |g.b| && Row(g, row, p + q - 1, p + q)
    ensures |row| == 2 * (|g.a| + |g.b|) + 1
    ensures p > 0 ==> row[p - q - 1 + |g.a| + |g.b|] == g.Far(p - 1, q)
    ensures q > 0 ==> row[p - q + 1 + |g.a| + |g.b|] == g.Far(p, q - 1)
  {
    hide Grid.Far;
  }

  /** Follows the matching lines of a diagonal. */
  method SlideFrom<T>(a: seq<T>, b: seq<T>, eq: (T, T) -> bool, k: int, start: int) returns (x: int)
    requires start >= 0 && start >= k
    ensures x == Grid(a, b, eq).Slide(k, start)
  {
    x := start;
    var y := x - k;
    while x < |a| && y < |b| && eq(a[x], b[y])
      invariant x >= 0 && y == x - k >= 0 && Grid(a, b, eq).Slide(k, x) == Grid(a, b, eq).Slide(k, start)
    {
      x, y := x + 1, y + 1;
    }
  }

  /** Walks the saved rounds back from the end point, last operation first. */
  method Backtrack<T>(a: seq<T>, b: seq<T>, eq: (T, T) -> bool, rounds: nat, trace: seq<seq<int>>)
    returns (ops: seq<Op<T>>)
    requires |a| > 0 && |b| > 0 && rounds <= |trace|
    requires var g := Grid(a, b, eq);
             && g.Additions() >= 0 && rounds == g.Removals() + g.Additions()
             && forall e :: 0 <= e < rounds ==> Row(g, trace[e], e, e + 1)
    ensures Reversed(ops) == Grid(a, b, eq).Diff()
  {
    ghost var g := Grid(a, b, eq);
    g.GoalReached();
    hide Grid.Far, Grid.Trail, Grid.LastOps, Grid.Entry, Grid.Down, Grid.Keeps, Row;
    var x: int, y: int, d: int := |a|, |b|, rounds;
    ops := [];
    ghost var p, q := g.Removals(), g.Additions();
    while d > 0
      invariant 0 <= p && 0 <= q && d == p + q <= rounds
      invariant g.InGrid(p, q) && x == g.Far(p, q) && y == x - (p - q)
      invariant g.Trail(p, q) + Reversed(ops) == g.Diff()
    {
      g.TrailIs(p, q);
      var round;
      round, x, y := BackOneRound(a, b, eq, trace[d - 1], d, x, y, p, q);
      ReversedConcat(ops, round);
      ops := ops + round;
      d := d - 1;
      if g.Down(p, q) { q := q - 1; } else { p := p - 1; }
    }
    g.TrailIs(0, 0);
    var round := BackToStart(a, b, eq, x, y);
    ReversedConcat(ops, round);
    ops := ops + round;
  }

  /** The lines kept before the first edit, last operation first. */
  method BackToStart<T>(a: seq<T>, b: seq<T>, eq: (T, T) -> bool, fromX: int, fromY: int)
    returns (ops: seq<Op<T>>)
    requires var g := Grid(a, b, eq); g.InGrid(0, 0) && fromX == fromY == g.Far(0, 0)
    ensures Reversed(ops) == Grid(a, b, eq).Keeps(0, 0, fromX)
  {
    ghost var g := Grid(a, b, eq);
    g.FarStart();
    hide Grid.Far;
    ops := [];
    var x, y := fromX, fromY;
    while x > 0 && y > 0 && eq(a[x - 1], b[y - 1])
      invariant 0 <= x == y <= fromX
      invariant Reversed(ops) == g.Keeps(0, x, fromX)
    {
      var op := Op(Equal, a[x - 1], x - 1, y - 1);
      ReversedAppend(ops, op);
      g.KeepsFirst(0, x - 1, fromX);
      ops := ops + [op];
      x, y := x - 1, y - 1;
    }
    assert x > 0 ==> g.Match(0, x - 1);
  }

  /** The kept lines and the edit of round d, last operation first. */
  method BackOneRound<T>(a: seq<T>, b: seq<T>, eq: (T, T) -> bool, prevV: seq<int>, d: int, fromX: int, fromY: int,
                         ghost p: nat, ghost q: nat)
    returns (ops: seq<Op<T>>, x: int, y: int)
    requires |a| > 0 && |b| > 0
    requires 0 < d == p + q <= |a| + |b| && Row(Grid(a, b, eq), prevV, d - 1, d)
    requires var g := Grid(a, b, eq);
             g.InGrid(p, q) && fromX == g.Far(p, q) && fromY == fromX - (p - q)
    ensures var g := Grid(a, b, eq);
            && g.InGridBefore(p, q) && Reversed(ops) == g.LastOps(p, q)
            && x == (if g.Down(p, q) then g.Far(p, q - 1) else g.Far(p - 1, q))
            && y == x - (if g.Down(p, q) then p - (q - 1) else p - 1 - q)
  {
    hide Grid.Far, Grid.Entry, Grid.Down, Grid.Keeps, Grid.LastOps, Grid.Match, Reversed, Row;
    ghost var g := Grid(a, b, eq);
    g.InGridBack(p, q);
    x, y := fromX, fromY;
    ops := [];
    var k := x - y;
    var prevX, prevY := Predecessor(a, b, eq, prevV, d, k, p, q);
    ops, x, y := BackOverKept(a, b, eq, x, y, prevX, prevY);
    var op;
    if x == prevX {
      op := Op(Added, b[y - 1], x, y - 1);
      y := y - 1;
    } else {
      op := Op(Removed, a[x - 1], x - 1, y);
      x := x - 1;
    }
    g.LastOpsIs(p, q);
    ReversedAppend(ops, op);
    ops := ops + [op];
  }

  /** The lines kept since the point (prevX, prevY), last operation first. */
  method BackOverKept<T>(a: seq<T>, ghost b: seq<T>, ghost eq: (T, T) -> bool,
                         fromX: int, fromY: int, prevX: int, prevY: int)
    returns (ops: seq<Op<T>>, x: int, y: int)
    requires 0 <= prevX <= fromX <= |a| && 0 <= prevY <= fromY
    ensures var kept := Min(fromX - prevX, fromY - prevY);
            && x == fromX - kept && y == fromY - kept
            && Reversed(ops) == Grid(a, b, eq).Keeps(x - y, x, fromX)
  {
    ops := [];
    x, y := fromX, fromY;
    while x > prevX && y > prevY
      invariant prevX <= x <= fromX && prevY <= y == x - (fromX - fromY)
      invariant Reversed(ops) == Grid(a, b, eq).Keeps(x - y, x, fromX)
    {
      var op := Op(Equal, a[x - 1], x - 1, y - 1);
      ReversedAppend(ops, op);
      Grid(a, b, eq).KeepsFirst(x - y, x - 1, fromX);
      ops := ops + [op];
      x, y := x - 1, y - 1;
    }
  }

  /** The point round d - 1 left from to reach diagonal k. */
  method Predecessor<T>(a: seq<T>, b: seq<T>, ghost eq: (T, T) -> bool, prevV: seq<int>, d: int, k: int,
                        ghost p: nat, ghost q: nat)
    returns (prevX: int, prevY: int)
    requires |a| > 0 && |b| > 0
    requires 0 < d == p + q <= |a| + |b| && k == p - q && Row(Grid(a, b, eq), prevV, d - 1, d)
    ensures var g := Grid(a, b, eq);
            && prevX == (if g.Down(p, q) then g.Far(p, q - 1) else g.Far(p - 1, q))
            && prevY == prevX - (if g.Down(p, q) then k + 1 else k - 1)
  {
    hide Grid.Far, Grid.Entry, Grid.Down, Row;
    Grid(a, b, eq).FarIs(p, q);
    RowNeighbours(Grid(a, b, eq), prevV, p, q);
    var max := |a| + |b|;
    var prevK;
    if k == -d || (k != d && prevV[k - 1 + max] < prevV[k + 1 + max]) {
      prevK := k + 1;
    } else {
      prevK := k - 1;
    }
    prevX := prevV[prevK + max];
    prevY := prevX - prevK;
  }

  /** Reverses by swapping from both ends. */
  method Reverse<T>(s: seq<T>) returns (r: seq<T>)
    ensures r == Reversed(s)
  {
    r := s;
    var i, j := 0, |r| - 1;
    while i < j
      invariant |r| == |s| && 0 <= i <= j + 2 && j == |s| - 1 - i
      invariant forall k :: i <= k <= j ==> r[k] == s[k]
      invariant forall k :: 0 <= k < i ==> r[k] == s[|s| - 1 - k]
      invariant forall k :: j < k < |s| ==> r[k] == s[|s| - 1 - k]
    {
      r := r[i := r[j]][j := r[i]];
      i, j := i + 1, j - 1;
    }
    ReversedAt(s);
  }
}
