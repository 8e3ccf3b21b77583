/** When the commit walk lists children before parents: for every start of a
    graph exactly when no commit's second parent is behind its first. */
module CommitOrder {
  import opened Basics
  import opened CommitGraph
  import opened CommitWalk

  /** Every parent is stored. */
  ghost predicate Closed(g: Graph) {
    forall c, p :: c in g && p in Parents(g, c) ==> p in g
  }

  /** What holds throughout a walk. */
  ghost predicate Good(g: Graph, start: Id, avoid: set<Id>, s: State) {
    && Accounts(g, start, avoid, s.stack, s.ordered, s.visited) && StackOk(g, s.stack, avoid)
    && (Acyclic(g) && NoShortcut(g, start, avoid) ==> ParentFirst(g, avoid, s.ordered))
    && (forall c :: c in s.visited ==> c in g)
  }

  lemma NextGood(g: Graph, start: Id, stop: Option<Id>, s: State)
    requires Closed(g) && Good(g, start, Stops(stop), s)
    ensures Good(g, start, Stops(stop), Next(g, stop, s))
  {
    hide Accounts, StackOk, Acyclic, NoShortcut, Pushes, Reach, Parents, ParentFirst, Next, Ids, Closed;
    var avoid := Stops(stop);
    if s.stack == [] {
      NextDone(g, stop, s);
      return;
    }
    var base, f := s.stack[..|s.stack| - 1], s.stack[|s.stack| - 1];
    assert s.stack == base + [f];
    ShorterOk(g, base, f, avoid);
    if f.expanded {
      NextEmit(g, stop, base, f.id, s.ordered, s.visited);
      EmitKeepsAccounts(g, start, avoid, base, f.id, s.ordered, s.visited);
      if Acyclic(g) && NoShortcut(g, start, avoid) {
        EmitKeepsOrder(g, start, avoid, base, f.id, s.ordered, s.visited);
      }
    } else if stop == Some(f.id) {
      NextSkip(g, stop, base, f.id, s.ordered, s.visited);
      SkipKeepsAccounts(g, start, avoid, base, f.id, s.ordered, s.visited);
    } else {
      var pushed := Pushes(Parents(g, f.id), |Parents(g, f.id)|, s.visited);
      TopSeen(g, start, avoid, base, f, s.ordered, s.visited);
      PushesFresh(g, f.id, s.visited);
      NextExpand(g, stop, base, f.id, pushed, s.ordered, s.visited);
      ExpandKeepsAccounts(g, start, avoid, base, f.id, pushed, s.ordered, s.visited);
      ExpandKeepsOrder(g, base, f.id, pushed, avoid);
      PushedStored(g, f.id, pushed, s.visited);
    }
  }

  lemma NextDone(g: Graph, stop: Option<Id>, s: State)
    requires s.stack == []
    ensures Next(g, stop, s) == s
  {
  }

  lemma TopSeen(g: Graph, start: Id, avoid: set<Id>, base: seq<Frame>, f: Frame, ordered: seq<Id>, visited: set<Id>)
    requires Accounts(g, start, avoid, base + [f], ordered, visited)
    ensures f.id in visited
  {
    assert (base + [f])[|base|] in base + [f];
  }

  lemma PushedStored(g: Graph, x: Id, pushed: seq<Frame>, visited: set<Id>)
    requires Closed(g) && x in g && Fresh(g, x, pushed, visited) && forall c :: c in visited ==> c in g
    ensures forall c :: c in visited + Ids(pushed) ==> c in g
  {
  }

  lemma {:induction false} AfterGood(g: Graph, start: Id, stop: Option<Id>, n: nat)
    requires Closed(g) && start in g && stop != Some(start)
    ensures Good(g, start, Stops(stop), After(g, stop, start, n))
  {
    hide Accounts, StackOk, Acyclic, NoShortcut, ParentFirst, Next, After, Closed;
    if n == 0 {
      AfterNext(g, stop, start, 0);
      Begin(g, start, Stops(stop));
      NoneListed(g, Stops(stop));
    } else {
      AfterNext(g, stop, start, n - 1);
      AfterGood(g, start, stop, n - 1);
      NextGood(g, start, stop, After(g, stop, start, n - 1));
    }
  }

  // ---- every walk ends ----

  lemma {:induction false} FindEnd(g: Graph, start: Id, stop: Option<Id>, n: nat) returns (m: nat)
    requires Closed(g) && start in g && stop != Some(start)
    ensures n <= m && After(g, stop, start, m).stack == []
    decreases |g.Keys - After(g, stop, start, n).visited|, Weight(After(g, stop, start, n).stack)
  {
    hide Accounts, StackOk, Acyclic, NoShortcut, ParentFirst, Next, After, Closed, Weight;
    var s := After(g, stop, start, n);
    if s.stack == [] {
      m := n;
    } else {
      AfterGood(g, start, stop, n);
      AfterGood(g, start, stop, n + 1);
      AfterNext(g, stop, start, n);
      NextLess(g, stop, s);
      m := FindEnd(g, start, stop, n + 1);
    }
  }

  lemma NextLess(g: Graph, stop: Option<Id>, s: State)
    requires s.stack != [] && forall c :: c in Next(g, stop, s).visited ==> c in g
    ensures var t := Next(g, stop, s);
      || |g.Keys - t.visited| < |g.Keys - s.visited|
      || (t.visited == s.visited && Weight(t.stack) < Weight(s.stack))
  {
    hide Pushes, Parents, Next, Weight;
    var base, f := s.stack[..|s.stack| - 1], s.stack[|s.stack| - 1];
    assert s.stack == base + [f];
    WeightAppend(base, f);
    var t := Next(g, stop, s);
    if f.expanded {
      NextEmit(g, stop, base, f.id, s.ordered, s.visited);
    } else if stop == Some(f.id) {
      NextSkip(g, stop, base, f.id, s.ordered, s.visited);
    } else {
      var pushed := Pushes(Parents(g, f.id), |Parents(g, f.id)|, s.visited);
      PushesFresh(g, f.id, s.visited);
      NextExpand(g, stop, base, f.id, pushed, s.ordered, s.visited);
      if pushed == [] {
        WeightAppend(base, Frame(f.id, true));
        assert t.stack == base + [Frame(f.id, true)];
        assert t.visited == s.visited;
      } else {
        var c := pushed[0].id;
        assert pushed[0] in pushed && c in t.visited && c !in s.visited;
        FewerLeft(g.Keys, s.visited, t.visited, c);
      }
    }
  }

  lemma FewerLeft(keys: set<Id>, a: set<Id>, b: set<Id>, c: Id)
    requires a <= b && c in b && c !in a && c in keys
    ensures |keys - b| < |keys - a|
  {
    Fewer(keys - b, keys - a, c);
  }

  lemma Fewer(x: set<Id>, y: set<Id>, c: Id)
    requires x <= y && c in y && c !in x
    ensures |x| < |y|
  {
    var rest := y - x;
    assert y == x + rest && c in rest;
    assert |y| == |x| + |rest|;
  }

  // ---- the second parent waits ----

  /** The frames below the top do not change. */
  lemma NextKeepsBelow(g: Graph, stop: Option<Id>, s: State, bottom: seq<Frame>)
    requires bottom <= s.stack && |bottom| < |s.stack|
    ensures bottom <= Next(g, stop, s).stack && s.ordered <= Next(g, stop, s).ordered
  {
    hide Pushes, Parents, Ids;
    var base := s.stack[..|s.stack| - 1];
    assert bottom <= base;
  }

  /** A stack that ends empty comes back to any of its lower parts. */
  lemma {:induction false} ComesBack(g: Graph, stop: Option<Id>, start: Id, bottom: seq<Frame>, k: nat, n: nat)
    returns (m: nat)
    requires bottom != [] && bottom <= After(g, stop, start, k).stack
    requires k <= n && After(g, stop, start, n).stack == []
    ensures k <= m <= n && After(g, stop, start, m).stack == bottom
    decreases n - k
  {
    hide After, Next;
    if |After(g, stop, start, k).stack| == |bottom| {
      m := k;
    } else {
      NextKeepsBelow(g, stop, After(g, stop, start, k), bottom);
      AfterNext(g, stop, start, k);
      m := ComesBack(g, stop, start, bottom, k + 1, n);
    }
  }

  lemma {:induction false} OrderedGrows(g: Graph, stop: Option<Id>, start: Id, k: nat, n: nat)
    requires k <= n
    ensures After(g, stop, start, k).ordered <= After(g, stop, start, n).ordered
    decreases n - k
  {
    hide After, Next;
    if k < n {
      AfterNext(g, stop, start, k);
      NextGrows(g, stop, After(g, stop, start, k));
      OrderedGrows(g, stop, start, k + 1, n);
    }
  }

  lemma NextGrows(g: Graph, stop: Option<Id>, s: State)
    ensures s.ordered <= Next(g, stop, s).ordered
  {
    hide Pushes, Parents, Ids;
  }

  /** The first step of a walk from a merge. */
  lemma FirstStep(g: Graph, stop: Option<Id>, c: Id)
    requires stop != Some(c) && |Parents(g, c)| == 2
    requires var ps := Parents(g, c); ps[0] != ps[1] && ps[0] != c && ps[1] != c
    ensures var ps := Parents(g, c);
            After(g, stop, c, 1).stack == [Frame(c, true), Frame(ps[1], false), Frame(ps[0], false)]
  {
    hide After, Next, Pushes, Parents, Ids;
    var ps := Parents(g, c);
    AfterNext(g, stop, c, 0);
    PushesAtMostTwo(ps, {c});
    assert ps[0] in ps && ps[1] in ps;
    var pushed := Pushes(ps, 2, {c});
    assert pushed == [Frame(ps[1], false), Frame(ps[0], false)];
    assert [] + [Frame(c, false)] == [Frame(c, false)];
    NextExpand(g, stop, [], c, pushed, [], {c});
  }

  /** A step of the path that leaves the set. */
  lemma {:induction false} LeavesAt(p: seq<Id>, inside: seq<Id>, i: nat) returns (k: nat)
    requires i < |p| && p[i] in inside && p[|p| - 1] !in inside
    ensures k + 1 < |p| && p[k] in inside && p[k + 1] !in inside
    decreases |p| - i
  {
    if p[i + 1] in inside {
      k := LeavesAt(p, inside, i + 1);
    } else {
      k := i;
    }
  }

  lemma NotOwnParent(g: Graph, c: Id, p: Id)
    requires Acyclic(g) && p in Parents(g, c)
    ensures p != c && !Ancestor(g, p, c)
  {
    ReachSelf(g, p, {});
  }

  /** With the second parent waiting on the stack, some child of it is listed. */
  lemma ChildIsListed(g: Graph, c: Id, avoid: set<Id>, s: State) returns (x: Id)
    requires Acyclic(g) && |Parents(g, c)| == 2 && Parents(g, c)[0] != Parents(g, c)[1]
    requires var ps := Parents(g, c); Reach(g, ps[0], ps[1], avoid) && s.stack == [Frame(c, true), Frame(ps[1], false)]
    requires Accounts(g, c, avoid, s.stack, s.ordered, s.visited)
    ensures x in s.ordered && Parents(g, c)[1] in Parents(g, x) && Parents(g, c)[1] !in s.ordered
  {
    hide Acyclic, Parents;
    var p1, p2 := Parents(g, c)[0], Parents(g, c)[1];
    assert s.stack[0] in s.stack && s.stack[1] in s.stack;
    assert p1 in Parents(g, c) && p2 in Parents(g, c);
    var p :| IsPath(g, p, avoid) && p[0] == p1 && p[|p| - 1] == p2;
    assert p1 in s.visited && p1 !in avoid;
    assert forall f :: f in s.stack ==> f.id == c || f.id == p2;
    NotOwnParent(g, c, p1);
    assert p1 in s.ordered;
    var k := LeavesAt(p, s.ordered, 0);
    x := p[k];
    var i := k + 1;
    assert p[i] in Parents(g, p[i - 1]);
    PathTo(g, p, avoid, i);
    assert p[i] != c;
  }

  lemma PathTo(g: Graph, p: seq<Id>, avoid: set<Id>, i: nat)
    requires IsPath(g, p, avoid) && i < |p|
    ensures Ancestor(g, p[0], p[i])
  {
    var q := p[..i + 1];
    assert IsPath(g, q, {}) && q[0] == p[0] && q[|q| - 1] == p[i];
  }

  /** A walk from a merge whose second parent is behind its first lists some
      commit after its parent. */
  lemma ShortcutDisorders(g: Graph, stop: Option<Id>, c: Id, ordered: seq<Id>)
    requires Acyclic(g) && Closed(g) && c in g && stop != Some(c)
    requires |Parents(g, c)| == 2 && Parents(g, c)[0] != Parents(g, c)[1]
    requires Reach(g, Parents(g, c)[0], Parents(g, c)[1], Stops(stop))
    requires Ends(g, stop, c, ordered)
    ensures !ChildFirst(g, Backwards(ordered))
  {
    hide Acyclic, Closed, After, Next, Reach, Accounts, StackOk, ParentFirst, NoShortcut, Parents;
    var ps := Parents(g, c);
    var avoid := Stops(stop);
    assert ps[0] in ps && ps[1] in ps;
    NotOwnParent(g, c, ps[0]);
    NotOwnParent(g, c, ps[1]);
    FirstStep(g, stop, c);
    var bottom := [Frame(c, true), Frame(ps[1], false)];
    var n: nat :| After(g, stop, c, n).stack == [] && After(g, stop, c, n).ordered == ordered;
    var end := FarEnough(g, stop, c, n);
    assert bottom <= After(g, stop, c, 1).stack;
    var m := ComesBack(g, stop, c, bottom, 1, end);
    AfterGood(g, c, stop, m);
    AfterGood(g, c, stop, end);
    var x := ChildIsListed(g, c, avoid, After(g, stop, c, m));
    OrderedGrows(g, stop, c, m, end);
    ReachIsAncestor(g, ps[0], ps[1], avoid);
    AllOrdered(g, c, avoid, After(g, stop, c, m), After(g, stop, c, end), ps[1], bottom);
    OutOfOrder(g, After(g, stop, c, m).ordered, ordered, x, ps[1]);
  }

  /** The end of a walk, past its first step. */
  lemma FarEnough(g: Graph, stop: Option<Id>, c: Id, n: nat) returns (end: nat)
    requires After(g, stop, c, n).stack == []
    ensures end >= 1 && After(g, stop, c, end) == After(g, stop, c, n)
  {
    hide Next;
    end := n + 1;
    EndedStays(g, stop, c, n, n + 1);
  }

  /** What was on the stack is listed in the end. */
  lemma AllOrdered(g: Graph, start: Id, avoid: set<Id>, s: State, t: State, p: Id, bottom: seq<Frame>)
    requires Accounts(g, start, avoid, s.stack, s.ordered, s.visited)
    requires Accounts(g, start, avoid, t.stack, t.ordered, t.visited)
    requires s.stack == bottom && |bottom| == 2 && bottom[0].expanded && p in Parents(g, bottom[0].id) && p !in avoid
    requires t.stack == [] && bottom[0].id == start
    ensures p in t.ordered
  {
    hide Parents;
    assert start in t.visited && start in t.ordered by {
      assert s.stack[0] in s.stack;
      assert start !in avoid;
    }
    assert p in t.visited;
  }

  lemma OutOfOrder(g: Graph, early: seq<Id>, ordered: seq<Id>, x: Id, p: Id)
    requires early <= ordered && x in early && p !in early && p in ordered && p in Parents(g, x)
    ensures !ChildFirst(g, Backwards(ordered))
  {
    hide Parents;
    var i :| 0 <= i < |early| && early[i] == x;
    var j :| 0 <= j < |ordered| && ordered[j] == p;
    assert j >= |early| by {
      assert forall k :: 0 <= k < |early| ==> ordered[k] == early[k] && early[k] in early;
    }
    var full, n := Backwards(ordered), |ordered|;
    assert full[n - 1 - i] == x && full[n - 1 - j] == p;
  }

  /** In an acyclic graph with all parents stored, every walk lists children
      before parents exactly when no commit in any range has its second parent
      behind its first. */
  lemma OrderIffNoShortcut(g: Graph, stop: Option<Id>)
    requires Acyclic(g) && Closed(g)
    ensures (forall start, ordered :: start in g && stop != Some(start) && Ends(g, stop, start, ordered) ==>
      ChildFirst(g, Backwards(ordered)))
       <==> (forall start :: start in g && stop != Some(start) ==> NoShortcut(g, start, Stops(stop)))
  {
    hide Acyclic, Closed, After, Next, Reach, Accounts, StackOk, ParentFirst, ChildFirst, Parents, Backwards;
    if forall start :: start in g && stop != Some(start) ==> NoShortcut(g, start, Stops(stop)) {
      forall start, ordered | start in g && stop != Some(start) && Ends(g, stop, start, ordered)
        ensures ChildFirst(g, Backwards(ordered))
      {
        var n: nat :| After(g, stop, start, n).stack == [] && After(g, stop, start, n).ordered == ordered;
        AfterGood(g, start, stop, n);
        WalkEnds(g, start, Stops(stop), ordered, After(g, stop, start, n).visited);
      }
    }
    forall start | start in g && stop != Some(start) && !NoShortcut(g, start, Stops(stop))
      ensures exists c, ordered :: c in g && stop != Some(c) && Ends(g, stop, c, ordered) &&
                                   !ChildFirst(g, Backwards(ordered))
    {
      var c :| Reach(g, start, c, Stops(stop)) && |Parents(g, c)| == 2 && Parents(g, c)[0] != Parents(g, c)[1]
        && Reach(g, Parents(g, c)[0], Parents(g, c)[1], Stops(stop));
      ReachIsAncestor(g, start, c, Stops(stop));
      HasParents(g, c);
      var n := FindEnd(g, c, stop, 0);
      var ordered := After(g, stop, c, n).ordered;
      assert Ends(g, stop, c, ordered);
      ShortcutDisorders(g, stop, c, ordered);
    }
  }

  lemma HasParents(g: Graph, c: Id)
    requires Parents(g, c) != []
    ensures c in g
  {
  }
}
