/** Listing a range of commits: an iterative depth-first walk over both parents.

    Commits are marked when they are pushed, not when they are expanded, so a
    second parent waits on the stack while the whole history of the first parent
    is listed. That order is topological exactly because no commit of that
    history may need the waiting one. */
module CommitWalk {
  import opened Basics
  import opened CommitGraph

  datatype Frame = Frame(id: Id, expanded: bool)

  datatype Walk = Listed(commits: seq<Id>) | NotFound(id: Id) | TooLarge

  ghost function Stops(stop: Option<Id>): set<Id> {
    if stop.Some? then {stop.value} else {}
  }

  /** The second parent of a commit in the range is never behind its first. */
  ghost predicate NoShortcut(g: Graph, start: Id, avoid: set<Id>) {
    forall c :: Reach(g, start, c, avoid) && |Parents(g, c)| == 2 && Parents(g, c)[0] != Parents(g, c)[1] ==>
      !Reach(g, Parents(g, c)[0], Parents(g, c)[1], avoid)
  }

  ghost predicate Distinct(s: seq<Id>) {
    forall i, j :: 0 <= i < j < |s| ==> s[i] != s[j]
  }

  /** Every commit comes before its parents. */
  ghost predicate ChildFirst(g: Graph, s: seq<Id>) {
    forall i, j :: 0 <= i < |s| && 0 <= j < |s| && s[j] in Parents(g, s[i]) ==> i < j
  }

  // ---- the stack ----

  ghost predicate Below(g: Graph, x: Id, y: Id, avoid: set<Id>) {
    exists p :: p in Parents(g, x) && Reach(g, p, y, avoid)
  }

  /** What frame `f` (with `under` beneath it) says about a frame above it: an
      expanded commit is a descendant of it; a waiting one is a second parent
      whose child's first-parent history is being listed. */
  ghost predicate Guards(g: Graph, stack: seq<Frame>, i: int, y: Id, avoid: set<Id>)
    requires 0 <= i < |stack|
  {
    if stack[i].expanded then Below(g, stack[i].id, y, avoid)
    else
      && i > 0 && stack[i - 1].expanded
      && var ps := Parents(g, stack[i - 1].id);
         |ps| == 2 && ps[1] == stack[i].id && ps[0] != ps[1] && Reach(g, ps[0], y, avoid)
  }

  ghost predicate StackOk(g: Graph, stack: seq<Frame>, avoid: set<Id>) {
    forall i, j :: 0 <= i < j < |stack| && stack[j].id !in avoid ==> Guards(g, stack, i, stack[j].id, avoid)
  }

  /** The books of the walk, apart from order. */
  ghost predicate Accounts(g: Graph, start: Id, avoid: set<Id>, stack: seq<Frame>, ordered: seq<Id>, visited: set<Id>) {
    && start in visited
    && (forall c :: c in visited && c !in avoid ==> Reach(g, start, c, avoid))
    && Placed(g, avoid, stack, ordered, visited)
    && ParentsSeen(g, stack, ordered, visited)
    && Once(stack, ordered)
  }

  /** Every seen commit is listed or on the stack, and nothing else is. */
  ghost predicate Placed(g: Graph, avoid: set<Id>, stack: seq<Frame>, ordered: seq<Id>, visited: set<Id>) {
    && (forall f :: f in stack ==> f.id in visited && (f.expanded ==> f.id !in avoid && f.id in g))
    && (forall c :: c in ordered ==> c in visited && c !in avoid && c in g)
    && (forall c :: c in visited && c !in avoid ==> c in ordered || Frame(c, true) in stack || Frame(c, false) in stack)
  }

  ghost predicate ParentsSeen(g: Graph, stack: seq<Frame>, ordered: seq<Id>, visited: set<Id>) {
    forall c, p :: (c in ordered || Frame(c, true) in stack) && p in Parents(g, c) ==> p in visited
  }

  /** Every commit is on the stack or listed at most once. */
  ghost predicate Once(stack: seq<Frame>, ordered: seq<Id>) {
    && (forall i, j :: 0 <= i < j < |stack| ==> stack[i].id != stack[j].id)
    && (forall f :: f in stack ==> f.id !in ordered)
    && Distinct(ordered)
  }

  /** Parents come first in `ordered` (the listing reverses it). */
  ghost predicate ParentFirst(g: Graph, avoid: set<Id>, ordered: seq<Id>) {
    forall i, p :: 0 <= i < |ordered| && p in Parents(g, ordered[i]) && p !in avoid ==> p in ordered[..i]
  }

  function Weight(stack: seq<Frame>): nat {
    if stack == [] then 0 else Weight(stack[..|stack| - 1]) + if stack[|stack| - 1].expanded then 1 else 2
  }

  /** The frames pushed for the parents [0, n), last parent first. */
  function Pushes(parents: seq<Id>, n: nat, visited: set<Id>): seq<Frame>
    requires n <= |parents|
  {
    if n == 0 then []
    else if parents[n - 1] in visited then Pushes(parents, n - 1, visited)
    else [Frame(parents[n - 1], false)] + Pushes(parents, n - 1, visited + {parents[n - 1]})
  }

  lemma PushesAtMostTwo(ps: seq<Id>, visited: set<Id>)
    requires |ps| <= 2
    ensures var out := Pushes(ps, |ps|, visited);
            || (out == [] && forall p :: p in ps ==> p in visited)
            || (exists p :: p in ps && p !in visited && out == [Frame(p, false)] &&
                            forall q :: q in ps ==> q in visited || q == p)
            || (|ps| == 2 && ps[0] != ps[1] && ps[0] !in visited && ps[1] !in visited
                && out == [Frame(ps[1], false), Frame(ps[0], false)])
  {
    hide Pushes;
    if |ps| == 0 {
      PushesNone(ps, visited);
    } else if |ps| == 1 {
      PushesFirst(ps, visited);
    } else {
      var v := if ps[1] in visited then visited else visited + {ps[1]};
      PushesStep(ps, 1, visited);
      PushesFirst(ps, v);
    }
  }

  lemma PushesFirst(ps: seq<Id>, visited: set<Id>)
    requires ps != []
    ensures Pushes(ps, 1, visited) == if ps[0] in visited then [] else [Frame(ps[0], false)]
  {
    hide Pushes;
    PushesStep(ps, 0, visited);
    PushesNone(ps, visited);
    PushesNone(ps, visited + {ps[0]});
  }

  // ---- the walk as a state machine ----

  datatype State = State(stack: seq<Frame>, ordered: seq<Id>, visited: set<Id>)

  /** One iteration of the walk. */
  ghost function Next(g: Graph, stop: Option<Id>, s: State): State {
    if s.stack == [] then s
    else
      var base, f := s.stack[..|s.stack| - 1], s.stack[|s.stack| - 1];
      if f.expanded then State(base, s.ordered + [f.id], s.visited)
      else if stop == Some(f.id) then State(base, s.ordered, s.visited)
      else
        var pushed := Pushes(Parents(g, f.id), |Parents(g, f.id)|, s.visited);
        State(base + [Frame(f.id, true)] + pushed, s.ordered, s.visited + Ids(pushed))
  }

  ghost function After(g: Graph, stop: Option<Id>, start: Id, n: nat): State {
    if n == 0 then State([Frame(start, false)], [], {start}) else Next(g, stop, After(g, stop, start, n - 1))
  }

  lemma NextEmit(g: Graph, stop: Option<Id>, base: seq<Frame>, x: Id, ordered: seq<Id>, visited: set<Id>)
    ensures Next(g, stop, State(base + [Frame(x, true)], ordered, visited)) == State(base, ordered + [x], visited)
  {
    var stack := base + [Frame(x, true)];
    assert stack[..|stack| - 1] == base && stack[|stack| - 1] == Frame(x, true);
  }

  lemma NextSkip(g: Graph, stop: Option<Id>, base: seq<Frame>, x: Id, ordered: seq<Id>, visited: set<Id>)
    requires stop == Some(x)
    ensures Next(g, stop, State(base + [Frame(x, false)], ordered, visited)) == State(base, ordered, visited)
  {
    var stack := base + [Frame(x, false)];
    assert stack[..|stack| - 1] == base && stack[|stack| - 1] == Frame(x, false);
  }

  lemma NextExpand(g: Graph, stop: Option<Id>, base: seq<Frame>, x: Id, pushed: seq<Frame>, ordered: seq<Id>,
                   visited: set<Id>)
    requires stop != Some(x) && pushed == Pushes(Parents(g, x), |Parents(g, x)|, visited)
    ensures Next(g, stop, State(base + [Frame(x, false)], ordered, visited)) ==
            State(base + [Frame(x, true)] + pushed, ordered, visited + Ids(pushed))
  {
    hide Pushes, Parents;
    var stack := base + [Frame(x, false)];
    assert stack[..|stack| - 1] == base && stack[|stack| - 1] == Frame(x, false);
  }

  lemma AfterNext(g: Graph, stop: Option<Id>, start: Id, n: nat)
    ensures After(g, stop, start, n + 1) == Next(g, stop, After(g, stop, start, n))
    ensures After(g, stop, start, 0) == State([Frame(start, false)], [], {start})
  {
    hide Next;
  }

  /** The walk has come to an end with this listing, oldest first. */
  ghost predicate Ends(g: Graph, stop: Option<Id>, start: Id, ordered: seq<Id>) {
    exists n: nat :: After(g, stop, start, n).stack == [] && After(g, stop, start, n).ordered == ordered
  }

  lemma {:induction false} EndedStays(g: Graph, stop: Option<Id>, start: Id, n: nat, m: nat)
    requires After(g, stop, start, n).stack == [] && n <= m
    ensures After(g, stop, start, m) == After(g, stop, start, n)
  {
    if n < m {
      EndedStays(g, stop, start, n, m - 1);
    }
  }

  ghost function Ids(fs: seq<Frame>): set<Id> {
    set f | f in fs :: f.id
  }

  // ---- one expansion keeps the stack in order ----

  lemma BelowParent(g: Graph, x: Id, y: Id, z: Id, avoid: set<Id>)
    requires Below(g, x, y, avoid) && z in Parents(g, y) && z !in avoid
    ensures Below(g, x, z, avoid)
  {
    var p :| p in Parents(g, x) && Reach(g, p, y, avoid);
    ReachParent(g, p, y, z, avoid);
  }

  lemma GuardsParent(g: Graph, stack: seq<Frame>, i: int, y: Id, z: Id, avoid: set<Id>)
    requires 0 <= i < |stack| && Guards(g, stack, i, y, avoid) && z in Parents(g, y) && z !in avoid
    ensures Guards(g, stack, i, z, avoid)
  {
    if stack[i].expanded {
      BelowParent(g, stack[i].id, y, z, avoid);
    } else {
      ReachParent(g, Parents(g, stack[i - 1].id)[0], y, z, avoid);
    }
  }

  /** Guards looks only at its frame and the one beneath. */
  lemma GuardsPrefix(g: Graph, s: seq<Frame>, t: seq<Frame>, i: int, y: Id, avoid: set<Id>)
    requires 0 <= i < |s| && i < |t| && s[i] == t[i] && (i > 0 ==> s[i - 1] == t[i - 1])
    requires Guards(g, s, i, y, avoid)
    ensures Guards(g, t, i, y, avoid)
  {
  }

  lemma PushedGuards(g: Graph, base: seq<Frame>, x: Id, pushed: seq<Frame>, avoid: set<Id>, i: int, j: int)
    requires x !in avoid && x in g
    requires |pushed| <= 2 && (forall f :: f in pushed ==> !f.expanded && f.id in Parents(g, x))
    requires |pushed| == 2 ==>
      |Parents(g, x)| == 2 && pushed[0].id == Parents(g, x)[1] && pushed[1].id == Parents(g, x)[0] != pushed[0].id
    requires var s := base + [Frame(x, true)] + pushed; |base| <= i < j < |s| && s[j].id !in avoid
    ensures var s := base + [Frame(x, true)] + pushed; Guards(g, s, i, s[j].id, avoid)
  {
    var s := base + [Frame(x, true)] + pushed;
    assert s[j] == pushed[j - |base| - 1];
    ReachSelf(g, s[j].id, avoid);
    if i == |base| {
      assert s[i] == Frame(x, true);
      assert Below(g, x, s[j].id, avoid);
    } else {
      assert s[i] == pushed[0] && s[i - 1] == Frame(x, true) && s[j] == pushed[1];
    }
  }

  /** Expanding the top commit and pushing its unseen parents. */
  lemma ExpandKeepsOrder(g: Graph, base: seq<Frame>, x: Id, pushed: seq<Frame>, avoid: set<Id>)
    requires StackOk(g, base + [Frame(x, false)], avoid) && x !in avoid && x in g
    requires |pushed| <= 2 && (forall f :: f in pushed ==> !f.expanded && f.id in Parents(g, x))
    requires |pushed| == 2 ==>
      |Parents(g, x)| == 2 && pushed[0].id == Parents(g, x)[1] && pushed[1].id == Parents(g, x)[0] != pushed[0].id
    ensures StackOk(g, base + [Frame(x, true)] + pushed, avoid)
  {
    hide Guards;
    var r, s := base + [Frame(x, false)], base + [Frame(x, true)] + pushed;
    forall i, j | 0 <= i < j < |s| && s[j].id !in avoid
      ensures Guards(g, s, i, s[j].id, avoid)
    {
      if i >= |base| {
        PushedGuards(g, base, x, pushed, avoid, i, j);
      } else if j < |base| {
        assert r[j] == s[j];
        assert Guards(g, r, i, r[j].id, avoid);
        GuardsPrefix(g, r, s, i, s[j].id, avoid);
      } else {
        assert r[|base|].id == x;
        assert Guards(g, r, i, r[|base|].id, avoid);
        if j > |base| {
          assert s[j] == pushed[j - |base| - 1];
          GuardsParent(g, r, i, x, s[j].id, avoid);
        }
        GuardsPrefix(g, r, s, i, s[j].id, avoid);
      }
    }
  }

  /** When the top commit is listed, its parents already are. */
  lemma EmitHasParents(g: Graph, start: Id, avoid: set<Id>, base: seq<Frame>, x: Id, ordered: seq<Id>, visited: set<Id>,
                       p: Id)
    requires Accounts(g, start, avoid, base + [Frame(x, true)], ordered, visited)
    requires StackOk(g, base + [Frame(x, true)], avoid)
    requires Acyclic(g) && NoShortcut(g, start, avoid)
    requires p in Parents(g, x) && p !in avoid
    ensures p in ordered
  {
    var s := base + [Frame(x, true)];
    var top := |base|;
    assert s[top] == Frame(x, true) && s[top] in s;
    assert p in visited;
    if p !in ordered {
      var f := if Frame(p, true) in s then Frame(p, true) else Frame(p, false);
      assert f in s;
      var i :| 0 <= i < |s| && s[i] == f;
      if i == top {
        ReachSelf(g, x, {});
        assert false;
      }
      assert Guards(g, s, i, s[top].id, avoid);
      if f.expanded {
        var q :| q in Parents(g, p) && Reach(g, q, x, avoid);
        ReachIsAncestor(g, q, x, avoid);
        ReachParent(g, q, x, p, {});
      } else {
        var c := s[i - 1].id;
        assert s[i - 1] in s;
        ReachParent(g, Parents(g, c)[0], x, p, avoid);
      }
      assert false;
    }
  }

  lemma SkipKeepsAccounts(g: Graph, start: Id, avoid: set<Id>, base: seq<Frame>, x: Id, ordered: seq<Id>,
                          visited: set<Id>)
    requires Accounts(g, start, avoid, base + [Frame(x, false)], ordered, visited) && x in avoid
    ensures Accounts(g, start, avoid, base, ordered, visited)
  {
    var s := base + [Frame(x, false)];
    assert forall f :: f in s <==> f in base || f == Frame(x, false);
    forall i, j | 0 <= i < j < |base|
      ensures base[i].id != base[j].id
    {
      assert s[i] == base[i] && s[j] == base[j];
    }
  }

  lemma EmitKeepsAccounts(g: Graph, start: Id, avoid: set<Id>, base: seq<Frame>, x: Id, ordered: seq<Id>,
                          visited: set<Id>)
    requires Accounts(g, start, avoid, base + [Frame(x, true)], ordered, visited)
    ensures Accounts(g, start, avoid, base, ordered + [x], visited)
  {
    var s := base + [Frame(x, true)];
    assert s[|base|] == Frame(x, true) && s[|base|] in s;
    assert forall f :: f in s <==> f in base || f == Frame(x, true);
    assert forall c :: c in ordered + [x] <==> c in ordered || c == x;
    forall i, j | 0 <= i < j < |base|
      ensures base[i].id != base[j].id
    {
      assert s[i] == base[i] && s[j] == base[j];
    }
    forall f | f in base
      ensures f.id !in ordered + [x]
    {
      var i :| 0 <= i < |base| && base[i] == f;
      assert s[i].id != s[|base|].id;
    }
  }

  /** The pushed frames are new, and with them every parent has been seen. */
  ghost predicate Fresh(g: Graph, x: Id, pushed: seq<Frame>, visited: set<Id>) {
    && (forall f :: f in pushed ==> !f.expanded && f.id in Parents(g, x) && f.id !in visited)
    && (forall i, j :: 0 <= i < j < |pushed| ==> pushed[i].id != pushed[j].id)
    && (forall p :: p in Parents(g, x) ==> p in visited + Ids(pushed))
  }

  lemma ExpandOnce(base: seq<Frame>, x: Id, pushed: seq<Frame>, ordered: seq<Id>, visited: set<Id>)
    requires Once(base + [Frame(x, false)], ordered)
    requires forall f :: f in base + [Frame(x, false)] ==> f.id in visited
    requires forall c :: c in ordered ==> c in visited
    requires forall f :: f in pushed ==> f.id !in visited
    requires forall i, j :: 0 <= i < j < |pushed| ==> pushed[i].id != pushed[j].id
    ensures Once(base + [Frame(x, true)] + pushed, ordered)
  {
    var r, s := base + [Frame(x, false)], base + [Frame(x, true)] + pushed;
    assert r[|base|] == Frame(x, false) && r[|base|] in r;
    assert forall f :: f in r <==> f in base || f == Frame(x, false);
    assert forall f :: f in s <==> f in base || f == Frame(x, true) || f in pushed;
    forall i, j | 0 <= i < j < |s|
      ensures s[i].id != s[j].id
    {
      if j <= |base| {
        assert s[i].id == r[i].id && s[j].id == r[j].id;
      } else {
        assert s[j] == pushed[j - |base| - 1] && s[j] in pushed;
        if i <= |base| {
          assert s[i].id == r[i].id && r[i] in r;
        } else {
          assert s[i] == pushed[i - |base| - 1];
        }
      }
    }
  }

  lemma ExpandPlaced(g: Graph, avoid: set<Id>, base: seq<Frame>, x: Id, pushed: seq<Frame>, ordered: seq<Id>,
                     visited: set<Id>)
    requires Placed(g, avoid, base + [Frame(x, false)], ordered, visited) && x !in avoid && x in g
    requires forall f :: f in pushed ==> !f.expanded
    ensures Placed(g, avoid, base + [Frame(x, true)] + pushed, ordered, visited + Ids(pushed))
  {
    var r, s, v := base + [Frame(x, false)], base + [Frame(x, true)] + pushed, visited + Ids(pushed);
    assert r[|base|] == Frame(x, false) && r[|base|] in r;
    assert forall f :: f in r <==> f in base || f == Frame(x, false);
    assert forall f :: f in s <==> f in base || f == Frame(x, true) || f in pushed;
    forall c | c in v && c !in avoid
      ensures c in ordered || Frame(c, true) in s || Frame(c, false) in s
    {
      if c !in visited {
        var f :| f in pushed && f.id == c;
      }
    }
  }

  lemma ExpandParentsSeen(g: Graph, base: seq<Frame>, x: Id, pushed: seq<Frame>, ordered: seq<Id>, visited: set<Id>)
    requires ParentsSeen(g, base + [Frame(x, false)], ordered, visited) && Fresh(g, x, pushed, visited)
    ensures ParentsSeen(g, base + [Frame(x, true)] + pushed, ordered, visited + Ids(pushed))
  {
    hide Parents, Ids;
    var r, s := base + [Frame(x, false)], base + [Frame(x, true)] + pushed;
    assert forall f :: f in r <==> f in base || f == Frame(x, false);
    assert forall f :: f in s <==> f in base || f == Frame(x, true) || f in pushed;
    forall c, p | (c in ordered || Frame(c, true) in s) && p in Parents(g, c)
      ensures p in visited + Ids(pushed)
    {
      if c != x && c !in ordered {
        assert Frame(c, true) in base;
      }
    }
  }

  lemma ExpandKeepsAccounts(g: Graph, start: Id, avoid: set<Id>, base: seq<Frame>, x: Id, pushed: seq<Frame>,
                            ordered: seq<Id>, visited: set<Id>)
    requires Accounts(g, start, avoid, base + [Frame(x, false)], ordered, visited) && x !in avoid && x in g
    requires Fresh(g, x, pushed, visited)
    ensures Accounts(g, start, avoid, base + [Frame(x, true)] + pushed, ordered, visited + Ids(pushed))
  {
    hide Once, Reach, ParentsSeen, Parents;
    var r := base + [Frame(x, false)];
    assert r[|base|] == Frame(x, false) && r[|base|] in r;
    ExpandOnce(base, x, pushed, ordered, visited);
    ExpandPlaced(g, avoid, base, x, pushed, ordered, visited);
    ExpandParentsSeen(g, base, x, pushed, ordered, visited);
    forall c | c in visited + Ids(pushed) && c !in avoid
      ensures Reach(g, start, c, avoid)
    {
      if c !in visited {
        ReachParent(g, start, x, c, avoid);
      }
    }
  }

  lemma PushesFresh(g: Graph, x: Id, visited: set<Id>)
    ensures var ps := Parents(g, x);
            var out := Pushes(ps, |ps|, visited);
            && Fresh(g, x, out, visited) && |out| <= 2
            && (|out| == 2 ==> |ps| == 2 && out[0].id == ps[1] && out[1].id == ps[0] != out[0].id)
  {
    var ps := Parents(g, x);
    var out := Pushes(ps, |ps|, visited);
    PushesAtMostTwo(ps, visited);
    hide Pushes;
    forall p | p in ps
      ensures p in visited + Ids(out)
    {
      if p !in visited {
        if |out| == 1 {
          assert out[0] in out && out[0].id == p;
        } else {
          assert out[0] in out && out[1] in out;
        }
      }
    }
  }

  lemma {:induction false} WeightAppend(s: seq<Frame>, f: Frame)
    ensures Weight(s + [f]) == Weight(s) + if f.expanded then 1 else 2
  {
    assert (s + [f])[..|s|] == s;
  }

  // ---- the walk ----

  ghost predicate Lists(g: Graph, start: Id, avoid: set<Id>, full: seq<Id>) {
    && Distinct(full)
    && (forall c :: c in full <==> Reach(g, start, c, avoid))
    && (Acyclic(g) && NoShortcut(g, start, avoid) ==> ChildFirst(g, full))
  }

  /** Every commit in the range is stored. */
  ghost predicate Stored(g: Graph, start: Id, avoid: set<Id>) {
    forall c :: Reach(g, start, c, avoid) ==> c in g
  }

  /** What the walk comes across: the start and the parents of commits in the range,
      the stop among them. */
  ghost predicate Met(g: Graph, start: Id, avoid: set<Id>, c: Id) {
    c == start || exists d :: Reach(g, start, d, avoid) && c in Parents(g, d)
  }

  /** What the walk comes across stays within the limit; the start always does. */
  ghost predicate Fits(g: Graph, start: Id, avoid: set<Id>, maxNodes: int) {
    exists met :: AllMet(g, start, avoid, met) && |met| <= Max(1, maxNodes)
  }

  ghost predicate AllMet(g: Graph, start: Id, avoid: set<Id>, met: set<Id>) {
    forall c :: c in met <==> Met(g, start, avoid, c)
  }

  ghost predicate OnlyMet(g: Graph, start: Id, avoid: set<Id>, visited: set<Id>) {
    forall c :: c in visited ==> Met(g, start, avoid, c)
  }

  lemma ParentMet(g: Graph, start: Id, avoid: set<Id>, x: Id, visited: set<Id>, seen: set<Id>)
    requires Reach(g, start, x, avoid) && OnlyMet(g, start, avoid, visited)
    requires forall c :: c in seen ==> c in visited || c in Parents(g, x)
    ensures OnlyMet(g, start, avoid, seen)
  {
    hide Reach, Parents;
  }

  /** One commit more than there is room for does not fit. */
  lemma NoRoom(g: Graph, start: Id, avoid: set<Id>, x: Id, visited: set<Id>, p: Id, maxNodes: int)
    requires Reach(g, start, x, avoid) && OnlyMet(g, start, avoid, visited) && start in visited
    requires p in Parents(g, x) && p !in visited && |visited| >= maxNodes
    ensures !Fits(g, start, avoid, maxNodes)
  {
    hide Reach, Parents;
    ParentMet(g, start, avoid, x, visited, visited + {p});
    assert |visited + {p}| > |visited| && |visited| > 0;
    forall met | AllMet(g, start, avoid, met) ensures |met| > Max(1, maxNodes) {
      Smaller(visited + {p}, met);
    }
  }

  /** A walk that ends has found everything stored and has stayed within the limit. */
  lemma EndFits(g: Graph, start: Id, avoid: set<Id>, ordered: seq<Id>, visited: set<Id>, maxNodes: int)
    requires Accounts(g, start, avoid, [], ordered, visited) && OnlyMet(g, start, avoid, visited)
    requires forall c :: c in ordered <==> Reach(g, start, c, avoid)
    requires |visited| <= Max(1, maxNodes)
    ensures Stored(g, start, avoid) && Fits(g, start, avoid, maxNodes)
  {
    hide Reach, Parents;
    forall c ensures c in visited <==> Met(g, start, avoid, c) {
      if d :| Reach(g, start, d, avoid) && c in Parents(g, d) {
        assert d in ordered;
      }
    }
    assert AllMet(g, start, avoid, visited);
  }

  lemma StopFits(g: Graph, start: Id, avoid: set<Id>, maxNodes: int)
    requires Lists(g, start, avoid, [])
    ensures Stored(g, start, avoid) && Fits(g, start, avoid, maxNodes)
  {
    hide Reach, Parents;
    assert AllMet(g, start, avoid, {start});
  }

  lemma StartSeen(g: Graph, start: Id, avoid: set<Id>, stack: seq<Frame>, ordered: seq<Id>, visited: set<Id>)
    requires Accounts(g, start, avoid, stack, ordered, visited)
    ensures start in visited
  {
  }

  lemma NotStored(g: Graph, start: Id, avoid: set<Id>, c: Id)
    requires Reach(g, start, c, avoid) && c !in g
    ensures !Stored(g, start, avoid)
  {
    hide Reach;
  }

  /** Commits reachable from start around stop, newest first, cut at the limit.
      `full` is the listing before the cut. */
  method WalkCommitsRange(g: Graph, start: Id, stop: Option<Id>, limit: int, maxNodes: int)
    returns (walk: Walk, ghost full: seq<Id>)
    ensures walk.Listed? ==> Lists(g, start, Stops(stop), full)
    ensures walk.Listed? && stop != Some(start) ==>
      exists ordered :: Ends(g, stop, start, ordered) && full == Backwards(ordered)
    ensures walk.Listed? ==>
      var n := if limit <= 0 then 50 else limit; walk.commits == if |full| < n then full else full[..n]
    ensures walk.Listed? <==> Stored(g, start, Stops(stop)) && Fits(g, start, Stops(stop), maxNodes)
    ensures walk.NotFound? ==> walk.id !in g && Reach(g, start, walk.id, Stops(stop))
    ensures walk.TooLarge? ==>
      exists seen: set<Id> :: |seen| >= maxNodes && forall c :: c in seen && Some(c) != stop ==>
        Reach(g, start, c, Stops(stop))
  {
    hide Accounts, StackOk, Acyclic, NoShortcut, Weight, Pushes, Reach, Parents, Lists, ParentFirst, Next, After, Ids;
    hide Stored, Fits, OnlyMet;
    ghost var avoid := Stops(stop);
    full := [];
    var n := if limit <= 0 then 50 else limit;
    if stop == Some(start) {
      StartIsStop(g, start, avoid);
      StopFits(g, start, avoid, maxNodes);
      return Listed([]), [];
    }
    var visited := {start};
    var stack := [Frame(start, false)];
    var ordered: seq<Id> := [];
    Begin(g, start, avoid);
    NoneListed(g, avoid);
    StartMet(g, start, avoid);
    ghost var steps: nat := 0;
    AfterNext(g, stop, start, 0);
    while |stack| > 0
      invariant State(stack, ordered, visited) == After(g, stop, start, steps)
      invariant Accounts(g, start, avoid, stack, ordered, visited)
      invariant StackOk(g, stack, avoid)
      invariant OnlyMet(g, start, avoid, visited) && |visited| <= Max(1, maxNodes)
      invariant Acyclic(g) && NoShortcut(g, start, avoid) ==> ParentFirst(g, avoid, ordered)
      decreases if |visited| < maxNodes then maxNodes - |visited| else 0, Weight(stack)
    {
      var f := stack[|stack| - 1];
      ghost var base := stack[..|stack| - 1];
      assert stack == base + [f];
      WeightAppend(base, f);
      AfterNext(g, stop, start, steps);
      stack := stack[..|stack| - 1];
      ShorterOk(g, base, f, avoid);
      if f.expanded {
        if Acyclic(g) && NoShortcut(g, start, avoid) {
          EmitKeepsOrder(g, start, avoid, base, f.id, ordered, visited);
        }
        EmitKeepsAccounts(g, start, avoid, base, f.id, ordered, visited);
        NextEmit(g, stop, base, f.id, ordered, visited);
        ordered := ordered + [f.id];
        steps := steps + 1;
        continue;
      }
      if stop.Some? && f.id == stop.value {
        SkipKeepsAccounts(g, start, avoid, base, f.id, ordered, visited);
        NextSkip(g, stop, base, f.id, ordered, visited);
        steps := steps + 1;
        continue;
      }
      PendingReached(g, start, avoid, base, f.id, ordered, visited);
      if f.id !in g {
        NotStored(g, start, avoid, f.id);
        return NotFound(f.id), [];
      }
      stack := stack + [Frame(f.id, true)];
      WeightAppend(base, Frame(f.id, true));
      var room: bool;
      ghost var before, pushed := visited, Pushes(Parents(g, f.id), |Parents(g, f.id)|, visited);
      PushesFresh(g, f.id, visited);
      ExpandKeepsAccounts(g, start, avoid, base, f.id, pushed, ordered, visited);
      ExpandKeepsOrder(g, base, f.id, pushed, avoid);
      NextExpand(g, stop, base, f.id, pushed, ordered, visited);
      room, visited, stack := PushParents(Parents(g, f.id), stack, visited, maxNodes);
      if !room {
        SeenReached(g, start, avoid, base, f.id, ordered, before, visited);
        StartSeen(g, start, avoid, base + [Frame(f.id, false)], ordered, before);
        ghost var p :| p in Parents(g, f.id) && p !in visited;
        ParentMet(g, start, avoid, f.id, before, visited);
        NoRoom(g, start, avoid, f.id, visited, p, maxNodes);
        return TooLarge, [];
      }
      ParentMet(g, start, avoid, f.id, before, visited);
      steps := steps + 1;
    }
    assert Ends(g, stop, start, ordered);
    full := Backwards(ordered);
    WalkEnds(g, start, avoid, ordered, visited);
    ListedIsRange(g, start, avoid, ordered);
    EndFits(g, start, avoid, ordered, visited, maxNodes);
    var out := Newest(ordered, n);
    walk := Listed(out);
  }

  /** Pushes the parents that have not been seen, last parent first. */
  method PushParents(parents: seq<Id>, onto: seq<Frame>, seen: set<Id>, maxNodes: int)
    returns (room: bool, visited: set<Id>, stack: seq<Frame>)
    ensures room ==> stack == onto + Pushes(parents, |parents|, seen)
    ensures room ==> visited == seen + Ids(Pushes(parents, |parents|, seen))
    ensures room ==> (visited == seen && stack == onto) || (|seen| < maxNodes && |seen| < |visited|)
    ensures room ==> |visited| <= Max(|seen|, maxNodes)
    ensures !room ==> |visited| >= maxNodes && seen <= visited && exists p :: p in parents && p !in visited
    ensures forall c :: c in visited ==> c in seen || c in parents
  {
    hide Pushes, Ids;
    room, visited, stack := true, seen, onto;
    ghost var pushed, done := Pushes(parents, |parents|, seen), [];
    IdsNone();
    var i := |parents| - 1;
    while i >= 0
      invariant -1 <= i < |parents| && stack == onto + done
      invariant done + Pushes(parents, i + 1, visited) == pushed
      invariant visited == seen + Ids(done)
      invariant (visited == seen && done == []) || (|seen| < maxNodes && |seen| < |visited|)
      invariant |seen| <= |visited| <= Max(|seen|, maxNodes) && visited <= seen + Elements(parents)
    {
      PushesStep(parents, i, visited);
      var p := parents[i];
      i := i - 1;
      if p in visited {
        continue;
      }
      if |visited| >= maxNodes {
        return false, visited, stack;
      }
      IdsAppend(done, Frame(p, false));
      FrameAssoc(onto, done, [Frame(p, false)]);
      FrameAssoc(done, [Frame(p, false)], Pushes(parents, i + 1, visited + {p}));
      OneMore(seen, visited, Elements(parents), Ids(done), p);
      done := done + [Frame(p, false)];
      visited := visited + {p};
      stack := stack + [Frame(p, false)];
    }
    PushesNone(parents, visited);
    assert done + [] == done;
  }

  lemma FrameAssoc(s: seq<Frame>, t: seq<Frame>, u: seq<Frame>)
    ensures (s + t) + u == s + (t + u)
  {
  }

  lemma OneMore(seen: set<Id>, visited: set<Id>, all: set<Id>, pushed: set<Id>, p: Id)
    requires visited == seen + pushed && visited <= seen + all && p !in visited && p in all && |seen| <= |visited|
    ensures visited + {p} == seen + (pushed + {p}) && visited + {p} <= seen + all && |seen| < |visited + {p}|
  {
  }

  lemma IdsNone()
    ensures Ids([]) == {}
  {
  }

  /** The last n listed commits, in reverse. */
  method Newest(ordered: seq<Id>, n: int) returns (out: seq<Id>)
    requires n > 0
    ensures var full := Backwards(ordered); out == if |full| < n then full else full[..n]
  {
    out := [];
    var i := |ordered| - 1;
    while i >= 0 && |out| < n
      invariant -1 <= i < |ordered| && |out| == |ordered| - 1 - i && |out| <= n
      invariant out == Backwards(ordered)[..|out|]
    {
      out := out + [ordered[i]];
      i := i - 1;
    }
  }

  function Backwards(s: seq<Id>): (r: seq<Id>)
    ensures |r| == |s| && forall i :: 0 <= i < |s| ==> r[i] == s[|s| - 1 - i]
  {
    seq(|s|, i requires 0 <= i < |s| => s[|s| - 1 - i])
  }

  lemma StartIsStop(g: Graph, start: Id, avoid: set<Id>)
    requires start in avoid
    ensures Lists(g, start, avoid, [])
  {
    forall c ensures !Reach(g, start, c, avoid) {
      if Reach(g, start, c, avoid) {
        ReachIsAncestor(g, start, c, avoid);
      }
    }
  }

  lemma Begin(g: Graph, start: Id, avoid: set<Id>)
    requires start !in avoid
    ensures Accounts(g, start, avoid, [Frame(start, false)], [], {start})
    ensures StackOk(g, [Frame(start, false)], avoid)
  {
    ReachSelf(g, start, avoid);
  }

  lemma StartMet(g: Graph, start: Id, avoid: set<Id>)
    ensures OnlyMet(g, start, avoid, {start})
  {
  }

  lemma ListedIsRange(g: Graph, start: Id, avoid: set<Id>, ordered: seq<Id>)
    requires Lists(g, start, avoid, Backwards(ordered))
    ensures forall c :: c in ordered <==> Reach(g, start, c, avoid)
  {
    hide Reach, Backwards;
    BackwardsHolds(ordered);
  }

  lemma NoneListed(g: Graph, avoid: set<Id>)
    ensures ParentFirst(g, avoid, [])
  {
  }

  lemma ShorterOk(g: Graph, base: seq<Frame>, f: Frame, avoid: set<Id>)
    requires StackOk(g, base + [f], avoid)
    ensures StackOk(g, base, avoid)
  {
    hide Guards;
    var s := base + [f];
    forall i, j | 0 <= i < j < |base| && base[j].id !in avoid
      ensures Guards(g, base, i, base[j].id, avoid)
    {
      assert s[j] == base[j];
      assert Guards(g, s, i, s[j].id, avoid);
      GuardsPrefix(g, s, base, i, base[j].id, avoid);
    }
  }

  lemma EmitKeepsOrder(g: Graph, start: Id, avoid: set<Id>, base: seq<Frame>, x: Id, ordered: seq<Id>, visited: set<Id>)
    requires Accounts(g, start, avoid, base + [Frame(x, true)], ordered, visited)
    requires StackOk(g, base + [Frame(x, true)], avoid)
    requires Acyclic(g) && NoShortcut(g, start, avoid) && ParentFirst(g, avoid, ordered)
    ensures ParentFirst(g, avoid, ordered + [x])
  {
    hide Accounts, StackOk, Acyclic, NoShortcut;
    var s := ordered + [x];
    forall i, p | 0 <= i < |s| && p in Parents(g, s[i]) && p !in avoid
      ensures p in s[..i]
    {
      if i == |ordered| {
        EmitHasParents(g, start, avoid, base, x, ordered, visited, p);
        assert s[..i] == ordered;
      } else {
        assert s[..i] == ordered[..i];
      }
    }
  }

  lemma PendingReached(g: Graph, start: Id, avoid: set<Id>, base: seq<Frame>, x: Id, ordered: seq<Id>, visited: set<Id>)
    requires Accounts(g, start, avoid, base + [Frame(x, false)], ordered, visited) && x !in avoid
    ensures Reach(g, start, x, avoid)
  {
    assert (base + [Frame(x, false)])[|base|] in base + [Frame(x, false)];
  }

  lemma SeenReached(g: Graph, start: Id, avoid: set<Id>, base: seq<Frame>, x: Id, ordered: seq<Id>, before: set<Id>,
                    visited: set<Id>)
    requires Accounts(g, start, avoid, base + [Frame(x, false)], ordered, before) && x !in avoid
    requires forall c :: c in visited && c !in avoid ==> c in before || c in Parents(g, x)
    ensures forall c :: c in visited && c !in avoid ==> Reach(g, start, c, avoid)
  {
    PendingReached(g, start, avoid, base, x, ordered, before);
    forall c | c in visited && c !in avoid
      ensures Reach(g, start, c, avoid)
    {
      if c !in before {
        ReachParent(g, start, x, c, avoid);
      }
    }
  }

  lemma PushesStep(parents: seq<Id>, i: nat, visited: set<Id>)
    requires i < |parents|
    ensures Pushes(parents, i + 1, visited) ==
            if parents[i] in visited then Pushes(parents, i, visited)
            else [Frame(parents[i], false)] + Pushes(parents, i, visited + {parents[i]})
  {
  }

  lemma PushesNone(parents: seq<Id>, visited: set<Id>)
    ensures Pushes(parents, 0, visited) == []
  {
  }

  lemma IdsAppend(fs: seq<Frame>, f: Frame)
    ensures Ids(fs + [f]) == Ids(fs) + {f.id}
  {
    assert forall h :: h in fs + [f] <==> h in fs || h == f;
    assert f in fs + [f];
  }

  lemma BackwardsHolds(ordered: seq<Id>)
    ensures forall c :: c in Backwards(ordered) <==> c in ordered
  {
    var full := Backwards(ordered);
    forall c
      ensures c in full <==> c in ordered
    {
      if c in ordered {
        var i :| 0 <= i < |ordered| && ordered[i] == c;
        assert full[|ordered| - 1 - i] == c;
      }
    }
  }

  lemma BackwardsChildFirst(g: Graph, avoid: set<Id>, ordered: seq<Id>)
    requires ParentFirst(g, avoid, ordered) && Distinct(ordered) && forall c :: c in ordered ==> c !in avoid
    ensures ChildFirst(g, Backwards(ordered))
  {
    var full, n := Backwards(ordered), |ordered|;
    forall i, j | 0 <= i < |full| && 0 <= j < |full| && full[j] in Parents(g, full[i])
      ensures i < j
    {
      assert full[i] == ordered[n - 1 - i] && full[j] == ordered[n - 1 - j];
      assert ordered[n - 1 - j] in ordered;
      assert full[j] in ordered[..n - 1 - i];
      var k :| 0 <= k < n - 1 - i && ordered[k] == full[j];
    }
  }

  lemma WalkEnds(g: Graph, start: Id, avoid: set<Id>, ordered: seq<Id>, visited: set<Id>)
    requires Accounts(g, start, avoid, [], ordered, visited) && start !in avoid
    requires Acyclic(g) && NoShortcut(g, start, avoid) ==> ParentFirst(g, avoid, ordered)
    ensures Lists(g, start, avoid, Backwards(ordered))
  {
    hide Reach, Acyclic, NoShortcut, ChildFirst, ParentFirst;
    var full := Backwards(ordered);
    BackwardsHolds(ordered);
    var closed := set c | c in ordered;
    forall c
      ensures c in full <==> Reach(g, start, c, avoid)
    {
      if Reach(g, start, c, avoid) {
        ReachClosed(g, start, c, avoid, closed);
      }
    }
    if Acyclic(g) && NoShortcut(g, start, avoid) {
      BackwardsChildFirst(g, avoid, ordered);
    }
  }

  // ---- why the condition is needed ----

  const C1 := Id(1)
  const C2 := Id(2)
  const C3 := Id(3)

  const SHORTCUT: Graph := map[
    C1 := Commit(Some(C2), Some(C3)),
    C2 := Commit(Some(C3), None),
    C3 := Commit(None, None)]

  lemma ShortcutPushes()
    ensures Parents(SHORTCUT, C1) == [C2, C3] && Parents(SHORTCUT, C2) == [C3] && Parents(SHORTCUT, C3) == []
    ensures Pushes([C2, C3], 2, {C1}) == [Frame(C3, false), Frame(C2, false)]
    ensures Pushes([C3], 1, {C1, C3, C2}) == [] && Pushes([], 0, {C1, C3, C2}) == []
    ensures Ids([Frame(C3, false), Frame(C2, false)]) == {C3, C2} && Ids([]) == {}
  {
    hide Pushes;
    PushesStep([C2, C3], 1, {C1});
    PushesStep([C2, C3], 0, {C1} + {C3});
    PushesNone([C2, C3], {C1} + {C3} + {C2});
    assert [Frame(C3, false)] + ([Frame(C2, false)] + []) == [Frame(C3, false), Frame(C2, false)];
    PushesStep([C3], 0, {C1, C3, C2});
    PushesNone([C3], {C1, C3, C2});
    PushesNone([], {C1, C3, C2});
    IdsAppend([Frame(C3, false)], Frame(C2, false));
    IdsAppend([], Frame(C3, false));
    assert [] + [Frame(C3, false)] == [Frame(C3, false)] &&
           [Frame(C3, false)] + [Frame(C2, false)] == [Frame(C3, false), Frame(C2, false)];
    IdsNone();
  }

  lemma ShortcutRun()
    ensures After(SHORTCUT, None, C1, 6) == State([], [C2, C3, C1], {C1, C3, C2})
  {
    hide After, Next, Pushes, Parents, Ids;
    var g, seen, one := SHORTCUT, {C1, C3, C2}, [Frame(C1, true)];
    ShortcutPushes();
    AfterNext(g, None, C1, 0);
    NextExpand(g, None, [], C1, [Frame(C3, false), Frame(C2, false)], [], {C1});
    assert [] + [Frame(C1, false)] == [Frame(C1, false)] && {C1} + {C3, C2} == seen;
    assert [] + [Frame(C1, true)] + [Frame(C3, false), Frame(C2, false)] ==
           one + [Frame(C3, false)] + [Frame(C2, false)];
    AfterNext(g, None, C1, 1);
    NextExpand(g, None, one + [Frame(C3, false)], C2, [], [], seen);
    assert one + [Frame(C3, false)] + [Frame(C2, true)] + [] == one + [Frame(C3, false)] + [Frame(C2, true)] &&
           seen + {} == seen;
    AfterNext(g, None, C1, 2);
    NextEmit(g, None, one + [Frame(C3, false)], C2, [], seen);
    AfterNext(g, None, C1, 3);
    NextExpand(g, None, one, C3, [], [C2], seen);
    assert [] + [C2] == [C2] && one + [Frame(C3, true)] + [] == one + [Frame(C3, true)];
    AfterNext(g, None, C1, 4);
    NextEmit(g, None, one, C3, [C2], seen);
    AfterNext(g, None, C1, 5);
    NextEmit(g, None, [], C1, [C2] + [C3], seen);
    assert [] + [Frame(C1, true)] == one && [C2] + [C3] + [C1] == [C2, C3, C1];
  }

  /** A merge whose second parent is behind its first is listed out of order:
      commit 3 comes before its child 2. */
  lemma ShortcutBreaksOrder(ordered: seq<Id>)
    requires Ends(SHORTCUT, None, C1, ordered)
    ensures Backwards(ordered) == [C1, C3, C2]
    ensures C3 in Parents(SHORTCUT, C2) && !ChildFirst(SHORTCUT, Backwards(ordered))
  {
    hide After, Next, Pushes, Ids;
    ShortcutRun();
    var n: nat :| After(SHORTCUT, None, C1, n).stack == [] && After(SHORTCUT, None, C1, n).ordered == ordered;
    if n <= 6 {
      EndedStays(SHORTCUT, None, C1, n, 6);
    } else {
      EndedStays(SHORTCUT, None, C1, 6, n);
    }
    var full := Backwards(ordered);
    assert full == [C1, C3, C2];
    assert full[1] in Parents(SHORTCUT, full[2]);
  }
}
