/** Commits as a finite map from ids to at most two parents, and reachability
    along parent links. */
module CommitGraph {
  import opened Basics

  datatype Id = Id(number: int)

  datatype Commit = Commit(parent1: Option<Id>, parent2: Option<Id>)

  type Graph = map<Id, Commit>

  function ParentsOf(c: Commit): (ps: seq<Id>)
    ensures |ps| <= 2
  {
    (if c.parent1.Some? then [c.parent1.value] else []) + (if c.parent2.Some? then [c.parent2.value] else [])
  }

  /** A commit that is not in the graph has no known parents. */
  function Parents(g: Graph, id: Id): (ps: seq<Id>)
    ensures |ps| <= 2
  {
    if id in g then ParentsOf(g[id]) else []
  }

  function Elements(ids: seq<Id>): set<Id> {
    set c | c in ids
  }

  lemma {:induction false} Smaller(a: set<Id>, b: set<Id>)
    requires a <= b
    ensures |a| <= |b|
  {
    if a != {} {
      var x :| x in a;
      Smaller(a - {x}, b - {x});
    }
  }

  /** `p` follows parent links and touches none of the avoided commits. */
  ghost predicate IsPath(g: Graph, p: seq<Id>, avoid: set<Id>) {
    && p != []
    && (forall i :: 0 <= i < |p| ==> p[i] !in avoid)
    && (forall i :: 0 < i < |p| ==> p[i] in Parents(g, p[i - 1]))
  }

  /** y is x or an ancestor of x, by a path around the avoided commits. */
  ghost predicate Reach(g: Graph, x: Id, y: Id, avoid: set<Id>) {
    exists p :: IsPath(g, p, avoid) && p[0] == x && p[|p| - 1] == y
  }

  ghost predicate Ancestor(g: Graph, x: Id, y: Id) {
    Reach(g, x, y, {})
  }

  ghost predicate Acyclic(g: Graph) {
    forall x, y :: y in Parents(g, x) ==> !Ancestor(g, y, x)
  }

  lemma ReachSelf(g: Graph, x: Id, avoid: set<Id>)
    requires x !in avoid
    ensures Reach(g, x, x, avoid)
  {
    assert IsPath(g, [x], avoid);
  }

  lemma ReachParent(g: Graph, x: Id, y: Id, z: Id, avoid: set<Id>)
    requires Reach(g, x, y, avoid) && z in Parents(g, y) && z !in avoid
    ensures Reach(g, x, z, avoid)
  {
    var p :| IsPath(g, p, avoid) && p[0] == x && p[|p| - 1] == y;
    var q := p + [z];
    assert IsPath(g, q, avoid) && q[0] == x && q[|q| - 1] == z;
  }

  lemma ReachFromParent(g: Graph, x: Id, y: Id, z: Id, avoid: set<Id>)
    requires y in Parents(g, x) && x !in avoid && Reach(g, y, z, avoid)
    ensures Reach(g, x, z, avoid)
  {
    var p :| IsPath(g, p, avoid) && p[0] == y && p[|p| - 1] == z;
    var q := [x] + p;
    assert forall i :: 0 < i < |q| ==> q[i] in Parents(g, q[i - 1]) by {
      forall i | 0 < i < |q| ensures q[i] in Parents(g, q[i - 1]) {
        assert i > 1 ==> p[i - 1] in Parents(g, p[i - 2]);
      }
    }
    assert IsPath(g, q, avoid) && q[0] == x && q[|q| - 1] == z;
  }

  lemma ReachTransitive(g: Graph, x: Id, y: Id, z: Id, avoid: set<Id>)
    requires Reach(g, x, y, avoid) && Reach(g, y, z, avoid)
    ensures Reach(g, x, z, avoid)
  {
    var p :| IsPath(g, p, avoid) && p[0] == x && p[|p| - 1] == y;
    var q :| IsPath(g, q, avoid) && q[0] == y && q[|q| - 1] == z;
    var r := p + q[1..];
    assert forall i :: 0 < i < |r| ==> r[i] in Parents(g, r[i - 1]) by {
      forall i | 0 < i < |r| ensures r[i] in Parents(g, r[i - 1]) {
        if i >= |p| {
          assert r[i] == q[i - |p| + 1] && r[i - 1] == q[i - |p|];
          assert q[i - |p| + 1] in Parents(g, q[i - |p| + 1 - 1]);
        }
      }
    }
    assert IsPath(g, r, avoid) && r[0] == x && r[|r| - 1] == z;
  }

  lemma ReachIsAncestor(g: Graph, x: Id, y: Id, avoid: set<Id>)
    requires Reach(g, x, y, avoid)
    ensures Ancestor(g, x, y) && x !in avoid && y !in avoid
  {
    var p :| IsPath(g, p, avoid) && p[0] == x && p[|p| - 1] == y;
    assert IsPath(g, p, {});
  }

  /** A set that holds x and, with every member, the parents outside `avoid`
      holds everything reachable from x. */
  lemma {:induction false} ReachClosed(g: Graph, x: Id, y: Id, avoid: set<Id>, closed: set<Id>)
    requires Reach(g, x, y, avoid) && x in closed
    requires forall c, p :: c in closed && p in Parents(g, c) && p !in avoid ==> p in closed
    ensures y in closed
  {
    var p :| IsPath(g, p, avoid) && p[0] == x && p[|p| - 1] == y;
    PathClosed(g, p, avoid, closed, |p| - 1);
  }

  lemma {:induction false} PathClosed(g: Graph, p: seq<Id>, avoid: set<Id>, closed: set<Id>, i: nat)
    requires IsPath(g, p, avoid) && p[0] in closed && i < |p|
    requires forall c, q :: c in closed && q in Parents(g, c) && q !in avoid ==> q in closed
    ensures p[i] in closed
  {
    if i > 0 {
      PathClosed(g, p, avoid, closed, i - 1);
    }
  }
}
