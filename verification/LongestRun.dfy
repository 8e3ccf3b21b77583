/** Patience sorting: a longest strictly increasing subsequence. */
module LongestRun {

  /** The positions ascend and so do the values at them. */
  ghost predicate Rising(vals: seq<int>, q: seq<int>) {
    && (forall i :: 0 <= i < |q| ==> 0 <= q[i] < |vals|)
    && (forall i, j :: 0 <= i < j < |q| ==> q[i] < q[j] && vals[q[i]] < vals[q[j]])
  }

  /** The values at the positions of `tails` ascend. */
  ghost predicate Ascending(vals: seq<int>, tails: seq<int>) {
    && (forall x :: 0 <= x < |tails| ==> 0 <= tails[x] < |vals|)
    && (forall x, y :: 0 <= x < y < |tails| ==> vals[tails[x]] < vals[tails[y]])
  }

  /** The first position whose value is not below v. */
  method Search(vals: seq<int>, tails: seq<int>, v: int) returns (k: nat)
    requires Ascending(vals, tails)
    ensures k <= |tails|
    ensures forall x :: 0 <= x < k ==> vals[tails[x]] < v
    ensures forall x :: k <= x < |tails| ==> vals[tails[x]] >= v
  {
    var i, j := 0, |tails|;
    while i < j
      invariant 0 <= i <= j <= |tails|
      invariant forall x :: 0 <= x < i ==> vals[tails[x]] < v
      invariant forall x :: j <= x < |tails| ==> vals[tails[x]] >= v
    {
      var h := (i + j) / 2;
      if vals[tails[h]] < v {
        i := h + 1;
      } else {
        j := h;
      }
    }
    k := i;
  }

  /** Among the first n positions, a rising sequence of any length ends no lower
      than the tail kept for that length. */
  ghost predicate Best(vals: seq<int>, tails: seq<int>, n: nat)
    requires Ascending(vals, tails)
  {
    forall q :: Rising(vals, q) && q != [] && q[|q| - 1] < n ==>
      |q| <= |tails| && vals[tails[|q| - 1]] <= vals[q[|q| - 1]]
  }

  /** Each position knows its predecessor in a rising sequence of its rank. */
  ghost predicate Linked(vals: seq<int>, prev: seq<int>, rank: seq<nat>) {
    && |prev| == |rank| <= |vals|
    && (forall n :: 0 <= n < |prev| ==> LinkedAt(vals, prev, rank, n))
  }

  ghost predicate LinkedAt(vals: seq<int>, prev: seq<int>, rank: seq<nat>, n: nat)
    requires n < |prev| == |rank| <= |vals|
  {
    if rank[n] == 0 then prev[n] == -1
    else 0 <= prev[n] < n && rank[prev[n]] == rank[n] - 1 && vals[prev[n]] < vals[n]
  }

  ghost predicate Ranked(tails: seq<int>, rank: seq<nat>) {
    forall x :: 0 <= x < |tails| ==> 0 <= tails[x] < |rank| && rank[tails[x]] == x
  }

  function Place(tails: seq<int>, k: nat, n: int): seq<int>
    requires k <= |tails|
  {
    if k == |tails| then tails + [n] else tails[k := n]
  }

  lemma PlaceAscends(vals: seq<int>, tails: seq<int>, k: nat, n: nat)
    requires Ascending(vals, tails) && k <= |tails| && n < |vals|
    requires forall x :: 0 <= x < k ==> vals[tails[x]] < vals[n]
    requires forall x :: k <= x < |tails| ==> vals[tails[x]] >= vals[n]
    ensures Ascending(vals, Place(tails, k, n))
  {
  }

  lemma PlaceIsBest(vals: seq<int>, tails: seq<int>, k: nat, n: nat)
    requires Ascending(vals, tails) && k <= |tails| && n < |vals| && Best(vals, tails, n)
    requires forall x :: 0 <= x < k ==> vals[tails[x]] < vals[n]
    requires forall x :: k <= x < |tails| ==> vals[tails[x]] >= vals[n]
    requires Ascending(vals, Place(tails, k, n))
    ensures Best(vals, Place(tails, k, n), n + 1)
  {
    var next := Place(tails, k, n);
    forall q | Rising(vals, q) && q != [] && q[|q| - 1] < n + 1
      ensures |q| <= |next| && vals[next[|q| - 1]] <= vals[q[|q| - 1]]
    {
      var last := q[|q| - 1];
      if last == n && |q| > 1 {
        var init := q[..|q| - 1];
        assert Rising(vals, init) && init[|init| - 1] == q[|q| - 2] < n;
      }
    }
  }

  lemma LinkMore(vals: seq<int>, prev: seq<int>, rank: seq<nat>, tails: seq<int>, k: nat)
    requires Linked(vals, prev, rank) && |prev| < |vals| && Ascending(vals, tails) && Ranked(tails, rank)
    requires k <= |tails|
    requires forall x :: 0 <= x < k ==> vals[tails[x]] < vals[|prev|]
    ensures var p := if k > 0 then tails[k - 1] else -1;
      Linked(vals, prev + [p], rank + [k]) && Ranked(Place(tails, k, |prev|), rank + [k])
  {
    var n := |prev|;
    var p := if k > 0 then tails[k - 1] else -1;
    var prev', rank' := prev + [p], rank + [k];
    forall m | 0 <= m < |prev'| ensures LinkedAt(vals, prev', rank', m) {
      if m < n {
        assert LinkedAt(vals, prev, rank, m);
      }
    }
  }

  /** The tails and links of all values. */
  method Tails(vals: seq<int>) returns (tails: seq<int>, prev: seq<int>, ghost rank: seq<nat>)
    ensures Ascending(vals, tails) && Best(vals, tails, |vals|)
    ensures Linked(vals, prev, rank) && |prev| == |vals| && Ranked(tails, rank)
  {
    hide Ascending, Best, Linked, Ranked;
    tails, prev, rank := [], [], [];
    Start(vals);
    var n := 0;
    while n < |vals|
      invariant 0 <= n <= |vals| && |prev| == n
      invariant Ascending(vals, tails) && Best(vals, tails, n)
      invariant Linked(vals, prev, rank) && Ranked(tails, rank)
    {
      AscendingRange(vals, tails);
      var k := Search(vals, tails, vals[n]);
      PlaceAscends(vals, tails, k, n);
      PlaceIsBest(vals, tails, k, n);
      LinkMore(vals, prev, rank, tails, k);
      prev := prev + [if k > 0 then tails[k - 1] else -1];
      rank := rank + [k];
      tails := Place(tails, k, n);
      n := n + 1;
    }
  }

  lemma Start(vals: seq<int>)
    ensures Ascending(vals, []) && Best(vals, [], 0) && Linked(vals, [], []) && Ranked([], [])
  {
  }

  lemma AscendingRange(vals: seq<int>, tails: seq<int>)
    requires Ascending(vals, tails)
    ensures forall x :: 0 <= x < |tails| ==> 0 <= tails[x] < |vals|
  {
  }

  /** Following the links back from the last tail. */
  method Trace(vals: seq<int>, tails: seq<int>, prev: seq<int>, ghost rank: seq<nat>) returns (q: seq<int>)
    requires Linked(vals, prev, rank) && |prev| == |vals| && Ranked(tails, rank)
    ensures Rising(vals, q) && |q| == |tails|
  {
    q := [];
    var k := -1;
    var n := |tails| - 1;
    while n >= 0
      invariant -1 <= n < |tails| && |q| == |tails| - 1 - n
      invariant q == [] <==> k == -1
      invariant q != [] ==> 0 <= k < |vals| && rank[k] == n + 1 && q[0] == k
      invariant Rising(vals, q)
    {
      if k == -1 {
        k := tails[|tails| - 1];
      } else {
        assert LinkedAt(vals, prev, rank, k);
        k := prev[k];
      }
      q := [k] + q;
      n := n - 1;
    }
  }

  /** The positions of a longest rising subsequence. */
  method LongestIncreasing(vals: seq<int>) returns (q: seq<int>)
    ensures Rising(vals, q)
    ensures forall p :: Rising(vals, p) ==> |p| <= |q|
  {
    var tails, prev, rank := Tails(vals);
    q := Trace(vals, tails, prev, rank);
    forall p | Rising(vals, p) ensures |p| <= |q| {
      if p != [] {
        assert p[|p| - 1] < |vals|;
      }
    }
  }
}
