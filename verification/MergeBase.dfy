/** Finding a merge base by walking back from both commits in turn, and the
    fast-forward test built on it. */
module MergeBase {
  import opened Basics
  import opened CommitGraph

  datatype Base = Base(id: Id) | NoBase | Missing(id: Id)

  /** One side of the search: everything seen is an ancestor of x, and only the
      commits in the queue may have parents that are not seen yet. */
  ghost predicate Side(g: Graph, x: Id, seen: set<Id>, queue: seq<Id>) {
    && x in seen
    && (forall c :: c in seen ==> Ancestor(g, x, c))
    && (forall c :: c in queue ==> c in seen)
    && (forall c, p :: c in seen && c !in queue && p in Parents(g, c) ==> p in seen)
  }

  function Universe(g: Graph): set<Id> {
    g.Keys + (set c, p | c in g && p in Parents(g, c) :: p)
  }

  datatype Step = Hit(id: Id) | Lost(id: Id) | Advanced(seen: set<Id>, next: seq<Id>)

  // ---- the order of the search ----

  /** What is not seen yet, each once, in order. */
  function Fresh(ps: seq<Id>, seen: set<Id>): seq<Id> {
    if ps == [] then []
    else
      var before, p := Fresh(ps[..|ps| - 1], seen), ps[|ps| - 1];
      if p in seen || p in before then before else before + [p]
  }

  /** The parents of the queue in the order in which a round looks at them. */
  function Scan(g: Graph, queue: seq<Id>): seq<Id> {
    if queue == [] then [] else Scan(g, queue[..|queue| - 1]) + Parents(g, queue[|queue| - 1])
  }

  /** p is the first of the list that is in the set. */
  ghost predicate FirstIn(ps: seq<Id>, other: set<Id>, p: Id) {
    exists i :: 0 <= i < |ps| && ps[i] == p && FoundAt(ps, other, i)
  }

  ghost predicate FoundAt(ps: seq<Id>, other: set<Id>, i: nat)
    requires i < |ps|
  {
    ps[i] in other && Avoids(ps[..i], other)
  }

  /** None of the list is in the set. */
  ghost predicate Avoids(ps: seq<Id>, other: set<Id>) {
    forall p :: p in ps ==> p !in other
  }

  lemma {:induction false} InFresh(ps: seq<Id>, seen: set<Id>, p: Id)
    ensures p in Fresh(ps, seen) <==> p in ps && p !in seen
  {
    if ps != [] {
      InFresh(ps[..|ps| - 1], seen, p);
      assert ps == ps[..|ps| - 1] + [ps[|ps| - 1]];
    }
  }

  lemma FreshStep(ps: seq<Id>, p: Id, seen: set<Id>)
    ensures Fresh(ps + [p], seen) ==
            if p in seen || p in Fresh(ps, seen) then Fresh(ps, seen) else Fresh(ps, seen) + [p]
  {
    assert (ps + [p])[..|ps|] == ps;
  }

  lemma IdAssoc(s: seq<Id>, t: seq<Id>, u: seq<Id>)
    ensures (s + t) + u == s + (t + u)
  {
  }

  lemma {:induction false} FreshConcat(s: seq<Id>, t: seq<Id>, seen: set<Id>)
    ensures Fresh(s + t, seen) == Fresh(s, seen) + Fresh(t, seen + Elements(Fresh(s, seen)))
  {
    if t == [] {
      assert s + t == s;
    } else {
      hide Fresh;
      var init, p := t[..|t| - 1], t[|t| - 1];
      var first := Fresh(s, seen);
      FreshConcat(s, init, seen);
      assert t == init + [p];
      IdAssoc(s, init, [p]);
      FreshStep(s + init, p, seen);
      FreshStep(init, p, seen + Elements(first));
      IdAssoc(first, Fresh(init, seen + Elements(first)), [p]);
    }
  }

  lemma ScanStep(g: Graph, queue: seq<Id>, c: Id)
    ensures Scan(g, queue + [c]) == Scan(g, queue) + Parents(g, c)
  {
    assert (queue + [c])[..|queue|] == queue;
  }

  /** What is found while scanning the front of the queue is found in the whole scan. */
  lemma {:induction false} ScanPrefix(g: Graph, queue: seq<Id>, i: nat)
    requires i <= |queue|
    ensures Scan(g, queue[..i]) <= Scan(g, queue)
  {
    if i < |queue| {
      hide Parents;
      var init := queue[..|queue| - 1];
      ScanPrefix(g, init, i);
      assert init[..i] == queue[..i];
    } else {
      assert queue[..i] == queue;
    }
  }

  lemma FoundLater(s: seq<Id>, t: seq<Id>, whole: seq<Id>, other: set<Id>, p: Id)
    requires Avoids(s, other) && FirstIn(t, other, p) && s + t <= whole
    ensures FirstIn(whole, other, p)
  {
    var i :| 0 <= i < |t| && t[i] == p && FoundAt(t, other, i);
    var k := |s| + i;
    assert whole[k] == (s + t)[k] == p && whole[..k] == (s + t)[..k] == s + t[..i];
    assert FoundAt(whole, other, k);
  }

  lemma {:induction false} InScan(g: Graph, queue: seq<Id>, p: Id)
    ensures p in Scan(g, queue) <==> exists c :: c in queue && p in Parents(g, c)
  {
    if queue != [] {
      hide Parents, Scan;
      var init, last := queue[..|queue| - 1], queue[|queue| - 1];
      InScan(g, init, p);
      assert queue == init + [last];
      ScanStep(g, init, last);
      assert forall c :: c in queue <==> c in init || c == last;
    }
  }

  /** The parents of one commit: the first that the other side has seen, or all of
      them added. */
  method AdvanceOne(parents: seq<Id>, seen: set<Id>, next: seq<Id>, other: set<Id>) returns (step: Step)
    requires seen !! other
    ensures !step.Lost? && (step.Hit? ==> step.id in other && step.id in parents)
    ensures step.Advanced? ==>
      && step.seen !! other && next <= step.next
      && (forall p :: p in step.seen <==> p in seen || p in step.next[|next|..])
      && (forall p :: p in step.next[|next|..] ==> p !in seen && p in parents)
      && (forall p :: p in parents ==> p in step.seen)
    ensures step.Hit? ==> FirstIn(parents, other, step.id)
    ensures step.Advanced? ==> Avoids(parents, other) && step.next == next + Fresh(parents, seen)
  {
    hide Fresh;
    FreshNone(seen);
    var now, more := seen, [];
    var j := 0;
    while j < |parents|
      invariant 0 <= j <= |parents| && now !! other
      invariant forall p :: p in now <==> p in seen || p in more
      invariant forall p :: p in more ==> p !in seen && p in parents
      invariant forall k :: 0 <= k < j ==> parents[k] in now
      invariant Avoids(parents[..j], other) && more == Fresh(parents[..j], seen)
    {
      var p := parents[j];
      if p in other {
        assert FoundAt(parents, other, j);
        return Hit(p);
      }
      FreshStep(parents[..j], p, seen);
      assert parents[..j + 1] == parents[..j] + [p];
      if p !in now {
        now := now + {p};
        more := more + [p];
      }
      j := j + 1;
    }
    assert parents[..j] == parents;
    assert (next + more)[|next|..] == more;
    step := Advanced(now, next + more);
  }

  lemma FreshNone(seen: set<Id>)
    ensures Fresh([], seen) == []
  {
  }

  /** What a round has done with the first i commits of the queue. */
  ghost predicate Advancing(g: Graph, queue: seq<Id>, i: nat, seen: set<Id>, other: set<Id>, now: set<Id>,
                            next: seq<Id>)
    requires i <= |queue|
  {
    && now !! other && (forall k :: 0 <= k < i ==> queue[k] in g)
    && (forall p :: p in now <==> p in seen || p in next)
    && (forall p :: p in next ==> p !in seen && exists c :: c in queue && p in Parents(g, c))
    && (forall k, p :: 0 <= k < i && p in Parents(g, queue[k]) ==> p in now)
    && Avoids(Scan(g, queue[..i]), other) && next == Fresh(Scan(g, queue[..i]), seen)
  }

  lemma AdvancingNext(g: Graph, queue: seq<Id>, i: nat, seen: set<Id>, other: set<Id>, now: set<Id>, next: seq<Id>,
                      step: Step)
    requires i < |queue| && queue[i] in g && Advancing(g, queue, i, seen, other, now, next)
    requires step.Advanced? && step.seen !! other && next <= step.next
    requires forall p :: p in step.seen <==> p in now || p in step.next[|next|..]
    requires forall p :: p in step.next[|next|..] ==> p !in now && p in Parents(g, queue[i])
    requires forall p :: p in Parents(g, queue[i]) ==> p in step.seen
    requires Avoids(Parents(g, queue[i]), other) && step.next == next + Fresh(Parents(g, queue[i]), now)
    ensures Advancing(g, queue, i + 1, seen, other, step.seen, step.next)
  {
    hide Parents, Scan, Fresh;
    ScannedNext(g, queue, i, seen, now);
    var more := step.next[|next|..];
    assert step.next == next + more;
    assert queue[i] in queue;
  }

  lemma ScannedNext(g: Graph, queue: seq<Id>, i: nat, seen: set<Id>, now: set<Id>)
    requires i < |queue| && forall p :: p in now <==> p in seen || p in Fresh(Scan(g, queue[..i]), seen)
    ensures Scan(g, queue[..i + 1]) == Scan(g, queue[..i]) + Parents(g, queue[i])
    ensures Fresh(Scan(g, queue[..i + 1]), seen) ==
            Fresh(Scan(g, queue[..i]), seen) + Fresh(Parents(g, queue[i]), now)
  {
    hide Parents, Scan, Fresh;
    assert queue[..i + 1] == queue[..i] + [queue[i]];
    ScanStep(g, queue[..i], queue[i]);
    FreshConcat(Scan(g, queue[..i]), Parents(g, queue[i]), seen);
    assert now == seen + Elements(Fresh(Scan(g, queue[..i]), seen));
  }

  /** One level further back, watching for commits the other side has seen. */
  method Advance(g: Graph, queue: seq<Id>, seen: set<Id>, other: set<Id>) returns (step: Step)
    requires seen !! other
    ensures step.Hit? ==> step.id in other && exists c :: c in queue && step.id in Parents(g, c)
    ensures step.Lost? ==> step.id in queue && step.id !in g
    ensures step.Advanced? ==>
      && (forall c :: c in queue ==> c in g)
      && step.seen !! other && seen <= step.seen
      && (forall p :: p in step.seen <==> p in seen || p in step.next)
      && (forall p :: p in step.next ==> p !in seen && exists c :: c in queue && p in Parents(g, c))
      && (forall c, p :: c in queue && p in Parents(g, c) ==> p in step.seen)
    ensures step.Hit? ==> FirstIn(Scan(g, queue), other, step.id)
    ensures step.Advanced? ==> step.next == Fresh(Scan(g, queue), seen)
  {
    hide Parents, Advancing, FirstIn, Scan, Fresh, Avoids;
    var next: seq<Id> := [];
    var now := seen;
    var i := 0;
    AdvancingNone(g, queue, seen, other);
    while i < |queue|
      invariant 0 <= i <= |queue| && now !! other && Advancing(g, queue, i, seen, other, now, next)
    {
      var id := queue[i];
      if id !in g {
        return Lost(id);
      }
      var one := AdvanceOne(Parents(g, id), now, next, other);
      if one.Hit? {
        HitInScan(g, queue, i, seen, other, now, next, one.id);
        return one;
      }
      AdvancingNext(g, queue, i, seen, other, now, next, one);
      now, next := one.seen, one.next;
      i := i + 1;
    }
    AdvancingAll(g, queue, seen, other, now, next);
    step := Advanced(now, next);
  }

  lemma HitInScan(g: Graph, queue: seq<Id>, i: nat, seen: set<Id>, other: set<Id>, now: set<Id>, next: seq<Id>, p: Id)
    requires i < |queue| && Advancing(g, queue, i, seen, other, now, next) && FirstIn(Parents(g, queue[i]), other, p)
    ensures FirstIn(Scan(g, queue), other, p)
  {
    hide Parents, FirstIn, Scan, Fresh;
    assert queue[..i + 1] == queue[..i] + [queue[i]];
    ScanStep(g, queue[..i], queue[i]);
    ScanPrefix(g, queue, i + 1);
    FoundLater(Scan(g, queue[..i]), Parents(g, queue[i]), Scan(g, queue), other, p);
  }

  lemma AdvancingNone(g: Graph, queue: seq<Id>, seen: set<Id>, other: set<Id>)
    requires seen !! other
    ensures Advancing(g, queue, 0, seen, other, seen, [])
  {
  }

  lemma AdvancingAll(g: Graph, queue: seq<Id>, seen: set<Id>, other: set<Id>, now: set<Id>, next: seq<Id>)
    requires Advancing(g, queue, |queue|, seen, other, now, next)
    ensures (forall c :: c in queue ==> c in g) && now !! other && seen <= now
    ensures forall p :: p in now <==> p in seen || p in next
    ensures forall p :: p in next ==> p !in seen && exists c :: c in queue && p in Parents(g, c)
    ensures forall c, p :: c in queue && p in Parents(g, c) ==> p in now
    ensures next == Fresh(Scan(g, queue), seen)
  {
    hide Parents, Scan, Fresh;
    assert queue[..|queue|] == queue;
  }

  lemma AdvanceKeepsSide(g: Graph, x: Id, seen: set<Id>, queue: seq<Id>, seen': set<Id>, next: seq<Id>)
    requires Side(g, x, seen, queue)
    requires forall p :: p in seen' <==> p in seen || p in next
    requires forall p :: p in next ==> p !in seen && exists c :: c in queue && p in Parents(g, c)
    requires forall c, p :: c in queue && p in Parents(g, c) ==> p in seen'
    ensures Side(g, x, seen', next)
  {
    hide Reach, Parents;
    forall c | c in seen'
      ensures Ancestor(g, x, c)
    {
      if c !in seen {
        var d :| d in queue && c in Parents(g, d);
        ReachParent(g, x, d, c, {});
      }
    }
  }

  // ---- distances ----

  /** c is reached from x in at most k parent steps. */
  ghost predicate Within(g: Graph, x: Id, c: Id, k: nat)
    decreases k
  {
    if k == 0 then c == x
    else Within(g, x, c, k - 1) || exists d :: Within(g, x, d, k - 1) && c in Parents(g, d)
  }

  lemma {:induction false} WithinMore(g: Graph, x: Id, c: Id, j: nat, k: nat)
    requires j <= k && Within(g, x, c, j)
    ensures Within(g, x, c, k)
    decreases k
  {
    hide Parents;
    if j < k {
      WithinMore(g, x, c, j, k - 1);
    }
  }

  lemma {:induction false} WithinIsAncestor(g: Graph, x: Id, c: Id, k: nat)
    requires Within(g, x, c, k)
    ensures Ancestor(g, x, c)
    decreases k
  {
    hide Parents, Reach;
    if k == 0 {
      ReachSelf(g, x, {});
    } else if Within(g, x, c, k - 1) {
      WithinIsAncestor(g, x, c, k - 1);
    } else {
      var d :| Within(g, x, d, k - 1) && c in Parents(g, d);
      WithinIsAncestor(g, x, d, k - 1);
      ReachParent(g, x, d, c, {});
    }
  }

  /** After k rounds a side has seen what lies within k steps. */
  ghost predicate Level(g: Graph, x: Id, seen: set<Id>, k: nat) {
    forall c :: c in seen <==> Within(g, x, c, k)
  }

  lemma LevelStart(g: Graph, x: Id)
    ensures Level(g, x, {x}, 0)
  {
  }

  lemma LevelNext(g: Graph, x: Id, seen: set<Id>, queue: seq<Id>, seen': set<Id>, next: seq<Id>, k: nat)
    requires Side(g, x, seen, queue) && Level(g, x, seen, k)
    requires forall p :: p in seen' <==> p in seen || p in next
    requires forall p :: p in next ==> p !in seen && exists c :: c in queue && p in Parents(g, c)
    requires forall c, p :: c in queue && p in Parents(g, c) ==> p in seen'
    ensures Level(g, x, seen', k + 1)
  {
    hide Parents, Ancestor;
    forall c ensures c in seen' <==> Within(g, x, c, k + 1) {
      if c in next {
        var d :| d in queue && c in Parents(g, d);
        assert Within(g, x, d, k);
      }
      if d :| Within(g, x, d, k) && c in Parents(g, d) {
        assert d in seen;
      }
    }
  }

  // ---- rounds ----

  /** What a side has seen after k rounds, and the queue it then has. */
  ghost function Ball(g: Graph, x: Id, k: nat): set<Id>
    decreases k, 1
  {
    if k == 0 then {x} else Ball(g, x, k - 1) + Elements(Layer(g, x, k))
  }

  ghost function Layer(g: Graph, x: Id, k: nat): seq<Id>
    decreases k, 0
  {
    if k == 0 then [x] else Fresh(Scan(g, Layer(g, x, k - 1)), Ball(g, x, k - 1))
  }

  lemma {:induction false} BallMore(g: Graph, x: Id, j: nat, k: nat)
    requires j <= k
    ensures Ball(g, x, j) <= Ball(g, x, k)
    decreases k
  {
    hide Layer;
    if j < k {
      BallMore(g, x, j, k - 1);
    }
  }

  /** A round looks at nothing but what it then has seen. */
  lemma ScanInBall(g: Graph, x: Id, k: nat, p: Id)
    requires p in Scan(g, Layer(g, x, k))
    ensures p in Ball(g, x, k + 1)
  {
    hide Scan, Fresh;
    InFresh(Scan(g, Layer(g, x, k)), Ball(g, x, k), p);
  }

  lemma {:induction false} BallClosed(g: Graph, x: Id, k: nat, c: Id, p: Id)
    requires c in Ball(g, x, k) && p in Parents(g, c)
    ensures p in Ball(g, x, k + 1)
  {
    hide Parents, Scan, Fresh, Layer;
    if k > 0 && c in Ball(g, x, k - 1) {
      BallClosed(g, x, k - 1, c, p);
      BallMore(g, x, k, k + 1);
    } else {
      LayerStart(g, x);
      InScan(g, Layer(g, x, k), p);
      ScanInBall(g, x, k, p);
    }
  }

  lemma LayerStart(g: Graph, x: Id)
    ensures Layer(g, x, 0) == [x]
  {
  }

  lemma LayerNext(g: Graph, x: Id, k: nat)
    ensures Layer(g, x, k + 1) == Fresh(Scan(g, Layer(g, x, k)), Ball(g, x, k))
    ensures Ball(g, x, k + 1) == Ball(g, x, k) + Elements(Layer(g, x, k + 1))
  {
    hide Scan, Fresh;
  }

  lemma InLayer(g: Graph, x: Id, k: nat, c: Id)
    requires c in Layer(g, x, k)
    ensures c in Ball(g, x, k)
  {
    hide Scan, Fresh;
  }

  /** What a round adds are the parents of its queue. */
  lemma InNextBall(g: Graph, x: Id, k: nat, c: Id) returns (d: Id)
    requires c in Ball(g, x, k + 1) && c !in Ball(g, x, k)
    ensures d in Ball(g, x, k) && c in Parents(g, d)
  {
    hide Parents, Ball, Layer, Scan, Fresh;
    LayerNext(g, x, k);
    InFresh(Scan(g, Layer(g, x, k)), Ball(g, x, k), c);
    InScan(g, Layer(g, x, k), c);
    d :| d in Layer(g, x, k) && c in Parents(g, d);
    InLayer(g, x, k, d);
  }

  lemma BallStart(g: Graph, x: Id)
    ensures Ball(g, x, 0) == {x}
  {
  }

  lemma WithinStep(g: Graph, x: Id, d: Id, c: Id, k: nat)
    requires Within(g, x, d, k) && c in Parents(g, d)
    ensures Within(g, x, c, k + 1)
  {
    hide Parents;
  }

  /** The rounds measure distance. */
  lemma {:induction false} BallIsWithin(g: Graph, x: Id, k: nat, c: Id)
    ensures c in Ball(g, x, k) <==> Within(g, x, c, k)
    decreases k
  {
    hide Parents, Ball;
    if k == 0 {
      BallStart(g, x);
    } else {
      BallIsWithin(g, x, k - 1, c);
      BallMore(g, x, k - 1, k);
      if c in Ball(g, x, k - 1) {
        WithinMore(g, x, c, k - 1, k);
      } else if c in Ball(g, x, k) {
        var d := InNextBall(g, x, k - 1, c);
        BallIsWithin(g, x, k - 1, d);
        WithinStep(g, x, d, c, k - 1);
      } else if d :| Within(g, x, d, k - 1) && c in Parents(g, d) {
        BallIsWithin(g, x, k - 1, d);
        BallClosed(g, x, k - 1, d, c);
      }
    }
  }

  /** The commit at which the search stops, said by rounds: in round k the first
      side meets what the other has seen, or else the second side does. */
  ghost predicate MeetsLeft(g: Graph, x: Id, y: Id, p: Id, k: nat) {
    Ball(g, x, k) !! Ball(g, y, k) && FirstIn(Scan(g, Layer(g, x, k)), Ball(g, y, k), p)
  }

  ghost predicate MeetsRight(g: Graph, x: Id, y: Id, p: Id, k: nat) {
    Ball(g, x, k + 1) !! Ball(g, y, k) && FirstIn(Scan(g, Layer(g, y, k)), Ball(g, x, k + 1), p)
  }

  ghost predicate Meets(g: Graph, x: Id, y: Id, p: Id) {
    (x == y && p == x) || exists k: nat :: MeetsLeft(g, x, y, p, k) || MeetsRight(g, x, y, p, k)
  }

  /** m steps from either commit are enough to meet, at p; fewer are not. */
  ghost predicate MeetsAfter(g: Graph, x: Id, y: Id, p: Id, m: nat) {
    && Within(g, x, p, m) && Within(g, y, p, m)
    && (forall q, j: nat :: Within(g, x, q, j) && Within(g, y, q, j) ==> m <= j)
  }

  /** No common ancestor is nearer, by the larger of its two distances. */
  ghost predicate Earliest(g: Graph, x: Id, y: Id, p: Id) {
    exists m: nat :: MeetsAfter(g, x, y, p, m)
  }

  lemma HitIsEarliest(g: Graph, x: Id, y: Id, p: Id, seenX: set<Id>, seenY: set<Id>, k: nat)
    requires Level(g, x, seenX, k) && Level(g, y, seenY, k) && seenX !! seenY
    requires Within(g, x, p, k + 1) && Within(g, y, p, k + 1)
    ensures Earliest(g, x, y, p) && Earliest(g, y, x, p)
  {
    hide Within;
    forall q, j: nat | Within(g, x, q, j) && Within(g, y, q, j) ensures k + 1 <= j {
      if j <= k {
        WithinMore(g, x, q, j, k);
        WithinMore(g, y, q, j, k);
      }
    }
    assert MeetsAfter(g, x, y, p, k + 1) && MeetsAfter(g, y, x, p, k + 1);
  }

  lemma QueuedParent(g: Graph, x: Id, seen: set<Id>, queue: seq<Id>, p: Id, k: nat)
    requires Side(g, x, seen, queue) && Level(g, x, seen, k) && exists c :: c in queue && p in Parents(g, c)
    ensures Within(g, x, p, k + 1)
  {
    hide Parents, Ancestor;
    var c :| c in queue && p in Parents(g, c);
    assert Within(g, x, c, k);
  }

  // ---- straight histories ----

  ghost predicate SingleParent(g: Graph) {
    forall c :: |Parents(g, c)| <= 1
  }

  /** In a straight history the queue holds one commit, behind all seen ones. */
  ghost predicate Straight(g: Graph, seen: set<Id>, queue: seq<Id>) {
    && (forall c, d :: c in queue && d in queue ==> c == d)
    && (forall s, c :: s in seen && c in queue ==> Ancestor(g, s, c))
  }

  lemma OneParent(g: Graph, c: Id, p: Id, q: Id)
    requires SingleParent(g) && p in Parents(g, c) && q in Parents(g, c)
    ensures p == q
  {
    hide Parents;
    assert |Parents(g, c)| <= 1;
  }

  lemma AdvanceKeepsStraight(g: Graph, x: Id, seen: set<Id>, queue: seq<Id>, seen': set<Id>, next: seq<Id>)
    requires SingleParent(g) && Side(g, x, seen, queue) && Straight(g, seen, queue)
    requires forall p :: p in seen' <==> p in seen || p in next
    requires forall p :: p in next ==> p !in seen && exists c :: c in queue && p in Parents(g, c)
    ensures Straight(g, seen', next)
  {
    hide Ancestor, Side, Parents, SingleParent;
    forall p, q | p in next && q in next
      ensures p == q
    {
      var c :| c in queue && p in Parents(g, c);
      var d :| d in queue && q in Parents(g, d);
      OneParent(g, c, p, q);
    }
    forall s, p | s in seen' && p in next
      ensures Ancestor(g, s, p)
    {
      assert s in seen || s in next;
      BehindNext(g, seen, queue, s, p);
    }
  }

  lemma BehindNext(g: Graph, seen: set<Id>, queue: seq<Id>, s: Id, p: Id)
    requires Straight(g, seen, queue) && (s in seen || s == p)
    requires exists c :: c in queue && p in Parents(g, c)
    ensures Ancestor(g, s, p)
  {
    hide Reach, Parents;
    if s in seen {
      var c :| c in queue && p in Parents(g, c);
      ReachParent(g, s, c, p, {});
    } else {
      ReachSelf(g, p, {});
    }
  }

  /** An ancestor that has not been seen lies behind the queue. */
  lemma BehindQueue(g: Graph, x: Id, seen: set<Id>, queue: seq<Id>, q: Id)
    requires Side(g, x, seen, queue) && Ancestor(g, x, q) && q !in seen
    ensures exists f :: f in queue && Ancestor(g, f, q)
  {
    hide Parents;
    var p :| IsPath(g, p, {}) && p[0] == x && p[|p| - 1] == q;
    var i := 0;
    while p[i] !in queue
      invariant 0 <= i < |p| && p[i] in seen
      decreases |p| - i
    {
      assert p[i] != q;
      i := i + 1;
      assert p[i] in Parents(g, p[i - 1]);
    }
    PathTail(g, p, i);
  }

  lemma PathTail(g: Graph, p: seq<Id>, i: nat)
    requires IsPath(g, p, {}) && i < |p|
    ensures Ancestor(g, p[i], p[|p| - 1])
  {
    hide Parents;
    var t := p[i..];
    forall k | 0 < k < |t|
      ensures t[k] in Parents(g, t[k - 1])
    {
      assert p[i + k] in Parents(g, p[i + k - 1]);
    }
    assert IsPath(g, t, {}) && t[0] == p[i] && t[|t| - 1] == p[|p| - 1];
  }

  /** Every common ancestor is the base or behind it. */
  ghost predicate Nearest(g: Graph, a: Id, c: Id, base: Id) {
    forall q :: Ancestor(g, a, q) && Ancestor(g, c, q) ==> Ancestor(g, base, q)
  }

  lemma HitIsNearest(g: Graph, a: Id, c: Id, seenA: set<Id>, queueA: seq<Id>, seenB: set<Id>, queueB: seq<Id>, f: Id,
                     p: Id)
    requires SingleParent(g) && seenA !! seenB
    requires Side(g, a, seenA, queueA) && Straight(g, seenA, queueA)
    requires Side(g, c, seenB, queueB) && Straight(g, seenB, queueB)
    requires f in queueA && p in Parents(g, f) && p in seenB
    ensures Nearest(g, a, c, p)
  {
    hide Ancestor, Side, Straight, SingleParent, Parents;
    forall q | Ancestor(g, a, q) && Ancestor(g, c, q)
      ensures Ancestor(g, p, q)
    {
      if q in seenA {
        BehindSeen(g, c, seenB, queueB, p, q);
      } else {
        BehindHit(g, a, seenA, queueA, f, p, q);
      }
    }
  }

  lemma BehindSeen(g: Graph, c: Id, seen: set<Id>, queue: seq<Id>, p: Id, q: Id)
    requires Side(g, c, seen, queue) && Straight(g, seen, queue) && p in seen && q !in seen && Ancestor(g, c, q)
    ensures Ancestor(g, p, q)
  {
    hide Reach, Side;
    BehindQueue(g, c, seen, queue, q);
    var d :| d in queue && Ancestor(g, d, q);
    ReachTransitive(g, p, d, q, {});
  }

  lemma BehindHit(g: Graph, a: Id, seen: set<Id>, queue: seq<Id>, f: Id, p: Id, q: Id)
    requires SingleParent(g) && Side(g, a, seen, queue) && Straight(g, seen, queue)
    requires f in queue && p in Parents(g, f) && q !in seen && Ancestor(g, a, q)
    ensures Ancestor(g, p, q)
  {
    hide Reach, SingleParent, Parents;
    BehindQueue(g, a, seen, queue, q);
    var d :| d in queue && Ancestor(g, d, q);
    assert d == f && f in seen;
    BehindParent(g, f, p, q);
  }

  lemma BehindParent(g: Graph, f: Id, p: Id, q: Id)
    requires SingleParent(g) && p in Parents(g, f) && Ancestor(g, f, q) && q != f
    ensures Ancestor(g, p, q)
  {
    var path :| IsPath(g, path, {}) && path[0] == f && path[|path| - 1] == q;
    assert |path| > 1 && path[1] in Parents(g, path[1 - 1]);
    assert |Parents(g, f)| <= 1;
    PathTail(g, path, 1);
  }

  // ---- the search ----

  ghost predicate Common(g: Graph, a: Id, c: Id, q: Id) {
    Ancestor(g, a, q) && Ancestor(g, c, q)
  }

  /** A merge base of two commits. It is a common ancestor, it exists whenever
      there is one, and in a straight history it is the nearest. */
  method FindMergeBase(g: Graph, a: Option<Id>, c: Option<Id>) returns (base: Base)
    ensures a.None? || c.None? ==> base == NoBase
    ensures a.Some? && c.Some? && base.Base? ==> Common(g, a.value, c.value, base.id)
    ensures a.Some? && c.Some? && base.NoBase? ==> forall q :: !Common(g, a.value, c.value, q)
    ensures a.Some? && c.Some? && base.Missing? ==>
              base.id !in g && (Ancestor(g, a.value, base.id) || Ancestor(g, c.value, base.id))
    ensures a.Some? && c.Some? && base.Base? ==> Earliest(g, a.value, c.value, base.id)
    ensures a.Some? && c.Some? && base.Base? && SingleParent(g) ==> Nearest(g, a.value, c.value, base.id)
    ensures a.Some? && c.Some? && base.Base? ==> Meets(g, a.value, c.value, base.id)
  {
    hide Reach, Side, Straight, SingleParent, Parents, Level, Within, Earliest;
    hide Ball, Layer, Fresh, Scan, FirstIn;
    if a.None? || c.None? {
      return NoBase;
    }
    var x, y := a.value, c.value;
    ReachSelf(g, x, {});
    if x == y {
      SelfIsEarliest(g, x);
      return Base(x);
    }
    var seenA, seenB, queueA, queueB := {x}, {y}, [x], [y];
    Begin(g, x);
    Begin(g, y);
    LevelStart(g, x);
    LevelStart(g, y);
    RoundsStart(g, x);
    RoundsStart(g, y);
    ghost var k: nat := 0;
    while |queueA| > 0 || |queueB| > 0
      invariant seenA !! seenB && Side(g, x, seenA, queueA) && Side(g, y, seenB, queueB)
      invariant SingleParent(g) ==> Straight(g, seenA, queueA) && Straight(g, seenB, queueB)
      invariant Level(g, x, seenA, k) && Level(g, y, seenB, k)
      invariant Rounds(g, x, seenA, queueA, k) && Rounds(g, y, seenB, queueB, k)
      decreases |Universe(g) - seenA| + |Universe(g) - seenB|, |queueA| + |queueB|
    {
      var left := Advance(g, queueA, seenA, seenB);
      match left {
        case Lost(id) =>
          QueuedAncestor(g, x, seenA, queueA, id);
          return Missing(id);
        case Hit(p) =>
          HitIsCommon(g, x, y, seenA, queueA, seenB, queueB, p);
          LeftHit(g, x, y, seenA, queueA, seenB, p, k);
          assert MeetsLeft(g, x, y, p, k);
          return Base(p);
        case Advanced(_, _) =>
      }
      Progress(g, seenA, queueA, left.seen, left.next);
      AdvanceKeepsSide(g, x, seenA, queueA, left.seen, left.next);
      if SingleParent(g) {
        AdvanceKeepsStraight(g, x, seenA, queueA, left.seen, left.next);
      }
      LevelNext(g, x, seenA, queueA, left.seen, left.next, k);
      RoundsNext(g, x, seenA, queueA, left.seen, left.next, k);
      ghost var earlier := seenA;
      seenA, queueA := left.seen, left.next;
      var right := Advance(g, queueB, seenB, seenA);
      match right {
        case Lost(id) =>
          QueuedAncestor(g, y, seenB, queueB, id);
          return Missing(id);
        case Hit(p) =>
          HitIsCommon(g, y, x, seenB, queueB, seenA, queueA, p);
          RightHit(g, x, y, earlier, seenA, seenB, queueB, p, k);
          assert MeetsRight(g, x, y, p, k);
          return Base(p);
        case Advanced(_, _) =>
      }
      Progress(g, seenB, queueB, right.seen, right.next);
      AdvanceKeepsSide(g, y, seenB, queueB, right.seen, right.next);
      if SingleParent(g) {
        AdvanceKeepsStraight(g, y, seenB, queueB, right.seen, right.next);
      }
      LevelNext(g, y, seenB, queueB, right.seen, right.next, k);
      RoundsNext(g, y, seenB, queueB, right.seen, right.next, k);
      seenB, queueB := right.seen, right.next;
      k := k + 1;
    }
    forall q
      ensures !Common(g, x, y, q)
    {
      if Common(g, x, y, q) {
        AllSeen(g, x, seenA, q);
        AllSeen(g, y, seenB, q);
      }
    }
    base := NoBase;
  }

  ghost predicate Rounds(g: Graph, x: Id, seen: set<Id>, queue: seq<Id>, k: nat) {
    seen == Ball(g, x, k) && queue == Layer(g, x, k)
  }

  lemma RoundsStart(g: Graph, x: Id)
    ensures Rounds(g, x, {x}, [x], 0)
  {
  }

  lemma RoundsNext(g: Graph, x: Id, seen: set<Id>, queue: seq<Id>, seen': set<Id>, next: seq<Id>, k: nat)
    requires Rounds(g, x, seen, queue, k) && next == Fresh(Scan(g, queue), seen)
    requires forall p :: p in seen' <==> p in seen || p in next
    ensures Rounds(g, x, seen', next, k + 1)
  {
    hide Ball, Layer, Fresh, Scan;
    LayerNext(g, x, k);
    assert seen' == Ball(g, x, k + 1);
  }

  lemma SelfIsEarliest(g: Graph, x: Id)
    ensures Earliest(g, x, x, x)
  {
    assert MeetsAfter(g, x, x, x, 0);
  }

  lemma LeftHit(g: Graph, x: Id, y: Id, seenA: set<Id>, queueA: seq<Id>, seenB: set<Id>, p: Id, k: nat)
    requires Side(g, x, seenA, queueA) && Level(g, x, seenA, k) && Level(g, y, seenB, k) && seenA !! seenB
    requires p in seenB && exists c :: c in queueA && p in Parents(g, c)
    ensures Earliest(g, x, y, p)
  {
    hide Side, Within, Parents, Earliest;
    QueuedParent(g, x, seenA, queueA, p, k);
    WithinMore(g, y, p, k, k + 1);
    HitIsEarliest(g, x, y, p, seenA, seenB, k);
  }

  lemma RightHit(g: Graph, x: Id, y: Id, before: set<Id>, seenA: set<Id>, seenB: set<Id>, queueB: seq<Id>, p: Id,
                 k: nat)
    requires Side(g, y, seenB, queueB) && Level(g, x, before, k) && Level(g, x, seenA, k + 1) && Level(g, y, seenB, k)
    requires before !! seenB && p in seenA && exists c :: c in queueB && p in Parents(g, c)
    ensures Earliest(g, x, y, p)
  {
    hide Side, Within, Parents, Earliest;
    QueuedParent(g, y, seenB, queueB, p, k);
    HitIsEarliest(g, x, y, p, before, seenB, k);
  }

  lemma Begin(g: Graph, x: Id)
    ensures Side(g, x, {x}, [x]) && Straight(g, {x}, [x])
  {
    ReachSelf(g, x, {});
  }

  lemma QueuedAncestor(g: Graph, x: Id, seen: set<Id>, queue: seq<Id>, id: Id)
    requires Side(g, x, seen, queue) && id in queue
    ensures Ancestor(g, x, id)
  {
  }

  lemma AllSeen(g: Graph, x: Id, seen: set<Id>, q: Id)
    requires Side(g, x, seen, []) && Ancestor(g, x, q)
    ensures q in seen
  {
    ReachClosed(g, x, q, {}, seen);
  }

  lemma HitIsCommon(g: Graph, x: Id, y: Id, seenA: set<Id>, queueA: seq<Id>, seenB: set<Id>, queueB: seq<Id>, p: Id)
    requires seenA !! seenB && Side(g, x, seenA, queueA) && Side(g, y, seenB, queueB)
    requires p in seenB && exists c :: c in queueA && p in Parents(g, c)
    requires SingleParent(g) ==> Straight(g, seenA, queueA) && Straight(g, seenB, queueB)
    ensures Common(g, x, y, p) && Common(g, y, x, p)
    ensures SingleParent(g) ==> Nearest(g, x, y, p) && Nearest(g, y, x, p)
  {
    hide Reach, SingleParent, Straight, Parents;
    var f :| f in queueA && p in Parents(g, f);
    ReachParent(g, x, f, p, {});
    if SingleParent(g) {
      HitIsNearest(g, x, y, seenA, queueA, seenB, queueB, f, p);
    }
  }

  /** A round that finds nothing new empties the queue. */
  lemma Progress(g: Graph, seen: set<Id>, queue: seq<Id>, seen': set<Id>, next: seq<Id>)
    requires seen <= seen' && (forall p :: p in seen' <==> p in seen || p in next)
    requires forall c :: c in queue ==> c in g
    requires forall p :: p in next ==> p !in seen && exists c :: c in queue && p in Parents(g, c)
    ensures next == [] ==> seen' == seen
    ensures |Universe(g) - seen'| <= |Universe(g) - seen|
    ensures next != [] ==> |Universe(g) - seen'| < |Universe(g) - seen|
  {
    hide Parents;
    var u := Universe(g);
    if next == [] {
      assert seen' == seen;
    } else {
      var p := next[0];
      assert p in next && p in seen';
      var c :| c in queue && p in Parents(g, c);
      InUniverse(g, c, p);
      Fewer(u, seen, seen', p);
    }
  }

  lemma InUniverse(g: Graph, c: Id, p: Id)
    requires c in g && p in Parents(g, c)
    ensures p in Universe(g)
  {
  }

  lemma Fewer(u: set<Id>, seen: set<Id>, seen': set<Id>, p: Id)
    requires seen <= seen' && p in u && p !in seen && p in seen'
    ensures |u - seen'| < |u - seen|
  {
    var rest := (u - seen) - {p};
    assert u - seen == rest + {p};
    Smaller(u - seen', rest);
  }

  // ---- fast-forward ----

  datatype FastForward = Moved(head: Id) | Diverged | Unreadable(id: Id)

  /** The target is met first: every other common ancestor is further away than
      the source is from the target. */
  ghost predicate MetFirst(g: Graph, target: Id, source: Id) {
    exists m: nat :: Within(g, source, target, m) && OthersBeyond(g, target, source, m)
  }

  ghost predicate OthersBeyond(g: Graph, target: Id, source: Id, m: nat) {
    forall q, j: nat :: q != target && Within(g, target, q, j) && Within(g, source, q, j) ==> m < j
  }

  /** m is the distance from the source to the target, and nothing within m steps of
      the target is nearer to the source. */
  ghost predicate UnprecededAt(g: Graph, target: Id, source: Id, m: nat) {
    && Within(g, source, target, m)
    && (forall q, j: nat :: j < m && Within(g, source, q, j) ==> !Within(g, target, q, m))
  }

  ghost predicate Unpreceded(g: Graph, target: Id, source: Id) {
    exists m: nat :: UnprecededAt(g, target, source, m)
  }

  /** Nothing else within that many steps of the target is just as far from the source. */
  ghost predicate Untied(g: Graph, target: Id, source: Id) {
    forall m: nat, q :: UnprecededAt(g, target, source, m) && Within(g, source, q, m) && Within(g, target, q, m) ==>
      q == target
  }

  /** The target is unpreceded, and comes first in the last round of the source's
      side among all that is as near. */
  ghost predicate ScannedFirst(g: Graph, target: Id, source: Id, m: nat) {
    && UnprecededAt(g, target, source, m)
    && (m > 0 ==> FirstIn(Scan(g, Layer(g, source, m - 1)), Ball(g, target, m), target))
  }

  ghost predicate TargetFirst(g: Graph, target: Id, source: Id) {
    exists m: nat :: ScannedFirst(g, target, source, m)
  }

  /** The target branch may move to the source head when the merge base is the
      target itself: exactly when the target is unpreceded and, among ties, scanned
      first. Where nothing ties, the distances alone decide. */
  method FastForwardTo(g: Graph, target: Id, source: Id) returns (r: FastForward)
    ensures r.Moved? ==> r.head == source && Ancestor(g, source, target) && Earliest(g, target, source, target)
    ensures r.Moved? ==> Unpreceded(g, target, source)
    ensures MetFirst(g, target, source) && !r.Unreadable? ==> r.Moved?
    ensures Untied(g, target, source) && !r.Unreadable? ==> (r.Moved? <==> Unpreceded(g, target, source))
    ensures !r.Unreadable? ==> (r.Moved? <==> TargetFirst(g, target, source))
    ensures SingleParent(g) && Acyclic(g) && !r.Unreadable? ==> (r.Moved? <==> Ancestor(g, source, target))
  {
    hide Reach, SingleParent, Acyclic, Ancestor, Within, Earliest, MetFirst, Untied, Unpreceded, TargetFirst, Meets;
    var base := FindMergeBase(g, Some(target), Some(source));
    TargetIsCommon(g, target, source);
    if base.Missing? {
      return Unreadable(base.id);
    }
    FirstDecides(g, target, source, base);
    if MetFirst(g, target, source) {
      MetFirstIsAncestor(g, target, source);
    }
    if base.NoBase? || base.id != target {
      if base.Base? {
        EarliestOther(g, target, source, base.id);
      }
      if SingleParent(g) && Acyclic(g) && Ancestor(g, source, target) {
        assert base.Base?;
        NoMutualAncestors(g, base.id, target);
      }
      return Diverged;
    }
    return Moved(source);
  }

  lemma FirstDecides(g: Graph, target: Id, source: Id, base: Base)
    requires base.Base? || (base.NoBase? && forall q :: !Common(g, target, source, q))
    requires base.Base? ==> Meets(g, target, source, base.id)
    ensures base == Base(target) <==> TargetFirst(g, target, source)
    ensures TargetFirst(g, target, source) ==> Unpreceded(g, target, source)
    ensures Untied(g, target, source) && Unpreceded(g, target, source) ==> TargetFirst(g, target, source)
  {
    hide ScannedFirst, UnprecededAt, Meets, Untied, Common;
    if base == Base(target) {
      MeetsTarget(g, target, source);
    }
    if m: nat :| ScannedFirst(g, target, source, m) {
      FirstIsUnpreceded(g, target, source, m);
      UnprecededIsCommon(g, target, source, m);
      if base.Base? {
        FirstIsMet(g, target, source, base.id, m);
      }
    }
    if m: nat :| Untied(g, target, source) && UnprecededAt(g, target, source, m) {
      UntiedIsFirst(g, target, source, m);
    }
  }

  lemma FirstIsUnpreceded(g: Graph, target: Id, source: Id, m: nat)
    requires ScannedFirst(g, target, source, m)
    ensures UnprecededAt(g, target, source, m)
  {
  }

  lemma UnprecededIsCommon(g: Graph, target: Id, source: Id, m: nat)
    requires UnprecededAt(g, target, source, m)
    ensures Common(g, target, source, target)
  {
    hide Within, Reach;
    ReachSelf(g, target, {});
    WithinIsAncestor(g, source, target, m);
  }

  lemma FirstOf(ps: seq<Id>, other: set<Id>, p: Id)
    requires FirstIn(ps, other, p)
    ensures p in ps && p in other
  {
  }

  lemma OneFirst(ps: seq<Id>, other: set<Id>, p: Id, q: Id)
    requires FirstIn(ps, other, p) && FirstIn(ps, other, q)
    ensures p == q
  {
    hide FoundAt;
    var i :| 0 <= i < |ps| && ps[i] == p && FoundAt(ps, other, i);
    var j :| 0 <= j < |ps| && ps[j] == q && FoundAt(ps, other, j);
    NoneBefore(ps, other, i);
    NoneBefore(ps, other, j);
  }

  lemma NoneBefore(ps: seq<Id>, other: set<Id>, j: nat)
    requires j < |ps| && FoundAt(ps, other, j)
    ensures ps[j] in other && forall i :: 0 <= i < j ==> ps[i] !in other
  {
    forall i | 0 <= i < j ensures ps[i] !in other {
      assert ps[..j][i] == ps[i];
    }
  }

  lemma SelfInBall(g: Graph, x: Id, k: nat)
    ensures x in Ball(g, x, k)
  {
    hide Ball, Within;
    TargetWithin(g, x, k);
    BallIsWithin(g, x, k, x);
  }

  /** If the search stops at the target, the target is scanned first. */
  lemma MeetsTarget(g: Graph, target: Id, source: Id)
    requires Meets(g, target, source, target)
    ensures TargetFirst(g, target, source)
  {
    hide Ball, Layer, Scan, FirstIn, Within;
    if target == source {
      TargetWithin(g, target, 0);
      assert ScannedFirst(g, target, source, 0);
    } else {
      var k: nat :| MeetsLeft(g, target, source, target, k) || MeetsRight(g, target, source, target, k);
      SelfInBall(g, target, k);
      if MeetsRight(g, target, source, target, k) {
        RightIsFirst(g, target, source, k);
      } else {
        FirstOf(Scan(g, Layer(g, target, k)), Ball(g, source, k), target);
      }
    }
  }

  lemma RightIsFirst(g: Graph, target: Id, source: Id, k: nat)
    requires MeetsRight(g, target, source, target, k)
    ensures ScannedFirst(g, target, source, k + 1)
  {
    hide Ball, Layer, Scan, FirstIn, Within;
    FirstOf(Scan(g, Layer(g, source, k)), Ball(g, target, k + 1), target);
    ScanInBall(g, source, k, target);
    BallIsWithin(g, source, k + 1, target);
    forall q, j: nat | j < k + 1 && Within(g, source, q, j) ensures !Within(g, target, q, k + 1) {
      BallIsWithin(g, source, j, q);
      BallMore(g, source, j, k);
      BallIsWithin(g, target, k + 1, q);
    }
  }

  /** A target that is scanned first is where the search stops. */
  lemma FirstIsMet(g: Graph, target: Id, source: Id, p: Id, m: nat)
    requires ScannedFirst(g, target, source, m) && Meets(g, target, source, p)
    ensures p == target
  {
    hide Ball, Layer, Scan, FirstIn, Within, UnprecededAt;
    if target == source && p == target {
    } else {
      var k: nat :| MeetsLeft(g, target, source, p, k) || MeetsRight(g, target, source, p, k);
      StopsBy(g, target, source, p, m, k);
      NotEarlier(g, target, source, p, m, k);
      OneFirst(Scan(g, Layer(g, source, k)), Ball(g, target, m), target, p);
    }
  }

  lemma InBothBalls(g: Graph, target: Id, source: Id, q: Id, m: nat, i: nat, j: nat)
    requires UnprecededAt(g, target, source, m) && i <= m && j < m && q in Ball(g, target, i)
    ensures q !in Ball(g, source, j)
  {
    hide Ball, Within;
    BallMore(g, target, i, m);
    BallIsWithin(g, target, m, q);
    BallIsWithin(g, source, j, q);
  }

  /** The search does not go on once the source's side has seen the target. */
  lemma StopsBy(g: Graph, target: Id, source: Id, p: Id, m: nat, k: nat)
    requires UnprecededAt(g, target, source, m)
    requires MeetsLeft(g, target, source, p, k) || MeetsRight(g, target, source, p, k)
    ensures k < m
  {
    hide Ball, Layer, Scan, FirstIn, Within;
    if k >= m {
      BallIsWithin(g, source, m, target);
      BallMore(g, source, m, k);
      SelfInBall(g, target, k);
      SelfInBall(g, target, k + 1);
    }
  }

  lemma NotEarlier(g: Graph, target: Id, source: Id, p: Id, m: nat, k: nat)
    requires UnprecededAt(g, target, source, m) && k < m
    ensures !MeetsLeft(g, target, source, p, k) && (k + 1 < m ==> !MeetsRight(g, target, source, p, k))
  {
    hide Ball, Layer, Scan, FirstIn, UnprecededAt;
    if MeetsLeft(g, target, source, p, k) {
      FirstOf(Scan(g, Layer(g, target, k)), Ball(g, source, k), p);
      ScanInBall(g, target, k, p);
      InBothBalls(g, target, source, p, m, k + 1, k);
    }
    if k + 1 < m && MeetsRight(g, target, source, p, k) {
      FirstOf(Scan(g, Layer(g, source, k)), Ball(g, target, k + 1), p);
      ScanInBall(g, source, k, p);
      InBothBalls(g, target, source, p, m, k + 1, k + 1);
    }
  }

  /** Without ties distances put the target first. */
  lemma UntiedIsFirst(g: Graph, target: Id, source: Id, m: nat)
    requires Untied(g, target, source) && UnprecededAt(g, target, source, m)
    ensures ScannedFirst(g, target, source, m)
  {
    hide Ball, Layer, Scan, FirstIn, Within;
    if m > 0 {
      var ps, near := Scan(g, Layer(g, source, m - 1)), Ball(g, target, m);
      LastStep(g, target, source, m);
      SelfInBall(g, target, m);
      var p := FindFirst(ps, near, target);
      FirstOf(ps, near, p);
      ScanInBall(g, source, m - 1, p);
      BallIsWithin(g, source, m, p);
      BallIsWithin(g, target, m, p);
    }
  }

  lemma LastStep(g: Graph, target: Id, source: Id, m: nat)
    requires UnprecededAt(g, target, source, m) && m > 0
    ensures target in Scan(g, Layer(g, source, m - 1))
  {
    hide Ball, Layer, Scan, Fresh, Within;
    TargetWithin(g, target, m);
    BallIsWithin(g, source, m, target);
    BallIsWithin(g, source, m - 1, target);
    LayerNext(g, source, m - 1);
    InFresh(Scan(g, Layer(g, source, m - 1)), Ball(g, source, m - 1), target);
  }

  lemma FindFirst(ps: seq<Id>, other: set<Id>, q: Id) returns (p: Id)
    requires q in ps && q in other
    ensures FirstIn(ps, other, p)
  {
    var i := 0;
    while ps[i] !in other
      invariant 0 <= i < |ps| && Avoids(ps[..i], other)
      invariant exists k :: i <= k < |ps| && ps[k] == q
      decreases |ps| - i
    {
      assert ps[..i + 1] == ps[..i] + [ps[i]];
      i := i + 1;
    }
    p := ps[i];
    assert FoundAt(ps, other, i);
  }

  lemma MetFirstIsAncestor(g: Graph, target: Id, source: Id)
    requires MetFirst(g, target, source)
    ensures Ancestor(g, source, target)
  {
    hide Within, OthersBeyond;
    var m: nat :| Within(g, source, target, m) && OthersBeyond(g, target, source, m);
    WithinIsAncestor(g, source, target, m);
  }

  /** If another commit is met at the earliest, the target is not met first. */
  lemma EarliestOther(g: Graph, target: Id, source: Id, p: Id)
    requires Earliest(g, target, source, p) && p != target
    ensures !MetFirst(g, target, source)
  {
    hide Within;
    var k: nat :| MeetsAfter(g, target, source, p, k);
    forall m: nat | Within(g, source, target, m) && OthersBeyond(g, target, source, m) ensures false {
      TargetWithin(g, target, m);
    }
  }

  lemma TargetWithin(g: Graph, target: Id, m: nat)
    ensures Within(g, target, target, m)
  {
    WithinMore(g, target, target, 0, m);
  }

  // ---- an ancestor that is refused ----

  const TARGET := Id(1)
  const OLD := Id(2)
  const TIP := Id(3)
  const MERGE := Id(4)

  /** A branch of two commits on OLD, merged back with OLD as the first parent. */
  const MERGED_BACK: Graph := map[
    OLD := Commit(None, None),
    TARGET := Commit(Some(OLD), None),
    TIP := Commit(Some(TARGET), None),
    MERGE := Commit(Some(OLD), Some(TIP))]

  /** The merge commit descends from the branch's first commit, but both reach the
      older commit in one step, so moving the one to the other is refused. */
  lemma AncestorRefused()
    ensures Ancestor(MERGED_BACK, MERGE, TARGET) && !Earliest(MERGED_BACK, TARGET, MERGE, TARGET)
  {
    hide Parents;
    var g := MERGED_BACK;
    MergedBackParents();
    assert Within(g, TARGET, TARGET, 0) && Within(g, TARGET, OLD, 1);
    assert Within(g, MERGE, MERGE, 0) && Within(g, MERGE, OLD, 1) && Within(g, MERGE, TIP, 1);
    assert Within(g, MERGE, TARGET, 2);
    WithinIsAncestor(g, MERGE, TARGET, 2);
    NotWithinOne();
    forall m: nat ensures !MeetsAfter(g, TARGET, MERGE, TARGET, m) {
      if m <= 1 && Within(g, MERGE, TARGET, m) {
        WithinMore(g, MERGE, TARGET, m, 1);
      }
    }
  }

  lemma MergedBackParents()
    ensures OLD in Parents(MERGED_BACK, TARGET) && TARGET in Parents(MERGED_BACK, TIP)
    ensures OLD in Parents(MERGED_BACK, MERGE) && TIP in Parents(MERGED_BACK, MERGE)
    ensures TARGET !in Parents(MERGED_BACK, MERGE)
  {
  }

  lemma NotWithinOne()
    ensures !Within(MERGED_BACK, MERGE, TARGET, 1)
  {
    hide Parents;
    MergedBackParents();
    assert forall d :: Within(MERGED_BACK, MERGE, d, 0) ==> d == MERGE;
  }

  const BEHIND := Id(5)
  const BETWEEN := Id(6)

  /** TIP on TARGET, on BETWEEN, on BEHIND, and a merge of TIP with BEHIND. */
  const MERGED_ROOT: Graph := map[
    BEHIND := Commit(None, None),
    BETWEEN := Commit(Some(BEHIND), None),
    TARGET := Commit(Some(BETWEEN), None),
    TIP := Commit(Some(TARGET), None),
    MERGE := Commit(Some(TIP), Some(BEHIND))]

  /** Two commits are equally far by the larger distance, and the move is refused
      whatever the order of parents: the other one is nearer to the source. */
  lemma TieRefused()
    ensures Earliest(MERGED_ROOT, TARGET, MERGE, TARGET) && !Unpreceded(MERGED_ROOT, TARGET, MERGE)
  {
    hide Parents;
    var g := MERGED_ROOT;
    MergedRootParents();
    assert Within(g, TARGET, TARGET, 0) && Within(g, TARGET, BETWEEN, 1) && Within(g, TARGET, BEHIND, 2);
    assert Within(g, MERGE, MERGE, 0) && Within(g, MERGE, BEHIND, 1) && Within(g, MERGE, TIP, 1);
    assert Within(g, MERGE, TARGET, 2);
    WithinMore(g, TARGET, TARGET, 0, 2);
    NotMetByOne();
    forall q, j: nat | Within(g, TARGET, q, j) && Within(g, MERGE, q, j) ensures 2 <= j {
      if j <= 1 {
        WithinMore(g, TARGET, q, j, 1);
        WithinMore(g, MERGE, q, j, 1);
      }
    }
    assert MeetsAfter(g, TARGET, MERGE, TARGET, 2);
    forall m: nat ensures !UnprecededAt(g, TARGET, MERGE, m) {
      if m <= 1 && Within(g, MERGE, TARGET, m) {
        WithinMore(g, MERGE, TARGET, m, 1);
      } else if m >= 2 {
        WithinMore(g, TARGET, BEHIND, 2, m);
      }
    }
  }

  lemma MergedRootParents()
    ensures Parents(MERGED_ROOT, TARGET) == [BETWEEN] && Parents(MERGED_ROOT, BETWEEN) == [BEHIND]
    ensures Parents(MERGED_ROOT, TIP) == [TARGET] && Parents(MERGED_ROOT, MERGE) == [TIP, BEHIND]
  {
  }

  lemma NotMetByOne()
    ensures !Within(MERGED_ROOT, MERGE, TARGET, 1)
    ensures forall q :: !(Within(MERGED_ROOT, TARGET, q, 1) && Within(MERGED_ROOT, MERGE, q, 1))
  {
    hide Parents;
    MergedRootParents();
    assert forall d :: Within(MERGED_ROOT, MERGE, d, 0) ==> d == MERGE;
    assert forall d :: Within(MERGED_ROOT, TARGET, d, 0) ==> d == TARGET;
  }

  lemma TargetIsCommon(g: Graph, target: Id, source: Id)
    ensures Ancestor(g, target, target)
    ensures Ancestor(g, source, target) ==> Common(g, target, source, target)
  {
    ReachSelf(g, target, {});
  }

  lemma NoMutualAncestors(g: Graph, x: Id, y: Id)
    requires Acyclic(g) && Ancestor(g, x, y) && Ancestor(g, y, x)
    ensures x == y
  {
    if x != y {
      var path :| IsPath(g, path, {}) && path[0] == x && path[|path| - 1] == y;
      assert path[1] in Parents(g, path[1 - 1]);
      PathTail(g, path, 1);
      ReachTransitive(g, path[1], y, x, {});
      assert false;
    }
  }
}
