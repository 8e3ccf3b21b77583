/** Rebasing: the source's own first-parent commits are found and replayed onto
    the target one by one. */
module Rebase {
  import opened Basics
  import opened CommitGraph
  import opened TreeHash
  import T = Trees
  import opened EntryMaps
  import opened ThreeWay
  import opened Landing
  import TreeDiff
  import PT = PushTree

  const REBASE_COMMIT_LIMIT := 1000

  // ---- which commits are replayed ----

  datatype Reached = Reached(ids: set<Id>) | Unknown(id: Id)

  /** Everything collected is reachable, and only stacked commits may lead on. */
  ghost predicate Exploring(g: Graph, start: Id, reached: set<Id>, stack: seq<Id>) {
    && (forall c :: c in reached ==> c in g && Ancestor(g, start, c))
    && (forall c :: c in stack ==> Ancestor(g, start, c))
    && (start in reached || start in stack)
    && (forall c, p :: c in reached && p in Parents(g, c) ==> p in reached || p in stack)
  }

  /** How many commits have not been collected. */
  ghost function Unseen(g: Graph, reached: set<Id>): nat {
    |g.Keys - reached|
  }

  method ReachableFrom(g: Graph, start: Option<Id>) returns (r: Reached)
    ensures r.Reached? ==> forall c :: c in r.ids <==> start.Some? && Ancestor(g, start.value, c)
    ensures r.Unknown? ==> start.Some? && Ancestor(g, start.value, r.id) && r.id !in g
  {
    hide Reach, Ancestor, Exploring, Parents, Unseen;
    if start.None? {
      return Reached({});
    }
    var s := start.value;
    var reached: set<Id> := {};
    var stack := [s];
    ExploreStart(g, s);
    while |stack| > 0
      invariant Exploring(g, s, reached, stack)
      decreases Unseen(g, reached), |stack|
    {
      var id := stack[|stack| - 1];
      ExploreTop(g, s, reached, stack);
      if id in reached {
        stack := stack[..|stack| - 1];
      } else {
        if id !in g {
          return Unknown(id);
        }
        ParentsReached(g, s, id);
        ExploreStep(g, s, reached, stack, id);
        Shrinks(g, reached, id);
        reached := reached + {id};
        stack := stack[..|stack| - 1] + ParentsOf(g[id]);
      }
    }
    Explored(g, s, reached);
    r := Reached(reached);
  }

  lemma ExploreStart(g: Graph, s: Id)
    ensures Exploring(g, s, {}, [s])
  {
    ReachSelf(g, s, {});
  }

  lemma ExploreTop(g: Graph, s: Id, reached: set<Id>, stack: seq<Id>)
    requires Exploring(g, s, reached, stack) && stack != []
    ensures Ancestor(g, s, stack[|stack| - 1])
    ensures stack[|stack| - 1] in reached ==> Exploring(g, s, reached, stack[..|stack| - 1])
  {
    hide Reach, Ancestor;
    var id, rest := stack[|stack| - 1], stack[..|stack| - 1];
    assert stack == rest + [id];
    assert id in stack;
  }

  lemma Explored(g: Graph, s: Id, reached: set<Id>)
    requires Exploring(g, s, reached, [])
    ensures forall c :: c in reached <==> Ancestor(g, s, c)
  {
    hide Reach;
    forall c | Ancestor(g, s, c) ensures c in reached {
      ReachClosed(g, s, c, {}, reached);
    }
  }

  lemma Shrinks(g: Graph, reached: set<Id>, id: Id)
    requires id in g && id !in reached
    ensures Unseen(g, reached + {id}) < Unseen(g, reached)
  {
    assert g.Keys - reached == (g.Keys - (reached + {id})) + {id};
  }

  lemma ParentsReached(g: Graph, s: Id, id: Id)
    requires Ancestor(g, s, id)
    ensures forall p :: p in Parents(g, id) ==> Ancestor(g, s, p)
  {
    forall p | p in Parents(g, id) ensures Ancestor(g, s, p) {
      ReachParent(g, s, id, p, {});
    }
  }

  lemma ExploreStep(g: Graph, s: Id, reached: set<Id>, before: seq<Id>, id: Id)
    requires before != [] && before[|before| - 1] == id && id in g && Exploring(g, s, reached, before)
    requires forall p :: p in Parents(g, id) ==> Ancestor(g, s, p)
    ensures Exploring(g, s, reached + {id}, before[..|before| - 1] + ParentsOf(g[id]))
  {
    hide Reach, Ancestor;
    var rest := before[..|before| - 1];
    assert before == rest + [id];
    assert forall c :: c in before <==> c in rest || c == id;
  }

  datatype Commits = Commits(ids: seq<Id>) | Gone(id: Id) | Cycle | TooMany

  /** Newest first: a first-parent walk from head that has met nothing contained. */
  ghost predicate Walked(g: Graph, head: Id, contained: set<Id>, walk: seq<Id>) {
    && (walk != [] ==> walk[0] == head)
    && (forall i :: 0 <= i < |walk| ==> walk[i] in g && walk[i] !in contained)
    && (forall i :: 0 < i < |walk| ==> g[walk[i - 1]].parent1 == Some(walk[i]))
  }

  /** Oldest first: each commit is the first parent of the next. */
  ghost predicate Linked(g: Graph, ids: seq<Id>) {
    && (forall i :: 0 <= i < |ids| ==> ids[i] in g)
    && (forall i :: 0 < i < |ids| ==> g[ids[i]].parent1 == Some(ids[i - 1]))
  }

  /** The commits to replay: from just after what the base contains to head. */
  ghost predicate IsChain(g: Graph, head: Id, contained: set<Id>, ids: seq<Id>) {
    && Linked(g, ids)
    && (forall id :: id in ids ==> id !in contained)
    && (if head in contained then ids == [] else ids != [] && ids[|ids| - 1] == head)
    && (ids != [] ==> var p := g[ids[0]].parent1; p.None? || p.value in contained)
  }

  lemma {:induction false} WalkedIsAncestor(g: Graph, head: Id, contained: set<Id>, walk: seq<Id>, i: nat)
    requires Walked(g, head, contained, walk) && i < |walk|
    ensures forall j :: i <= j < |walk| ==> Ancestor(g, walk[i], walk[j])
    decreases |walk| - i
  {
    hide Reach;
    ReachSelf(g, walk[i], {});
    if i + 1 < |walk| {
      WalkedIsAncestor(g, head, contained, walk, i + 1);
      var k := i + 1;
      assert g[walk[k - 1]].parent1 == Some(walk[k]);
      assert walk[k] in Parents(g, walk[i]);
      forall j | i < j < |walk| ensures Ancestor(g, walk[i], walk[j]) {
        ReachFromParent(g, walk[i], walk[k], walk[j], {});
      }
    }
  }

  /** Meeting a commit again means the graph has a cycle. */
  lemma WalkedCycle(g: Graph, head: Id, contained: set<Id>, walk: seq<Id>, current: Id)
    requires Walked(g, head, contained, walk) && walk != [] && current in walk
    requires g[walk[|walk| - 1]].parent1 == Some(current)
    ensures !Acyclic(g)
  {
    hide Reach;
    var i :| 0 <= i < |walk| && walk[i] == current;
    WalkedIsAncestor(g, head, contained, walk, i);
    var last := walk[|walk| - 1];
    assert current in Parents(g, last) && Ancestor(g, current, last);
  }

  method Reverse(walk: seq<Id>) returns (r: seq<Id>)
    ensures |r| == |walk| && forall k :: 0 <= k < |walk| ==> r[k] == walk[|walk| - 1 - k]
  {
    r := walk;
    var i, j := 0, |walk| - 1;
    while i < j
      invariant 0 <= i <= j + 1 && j == |walk| - 1 - i && |r| == |walk|
      invariant forall k :: 0 <= k < i ==> r[k] == walk[|walk| - 1 - k]
      invariant forall k :: j < k < |walk| ==> r[k] == walk[|walk| - 1 - k]
      invariant forall k :: i <= k <= j ==> r[k] == walk[k]
    {
      var x, y := r[i], r[j];
      r := r[i := y][j := x];
      i, j := i + 1, j - 1;
    }
  }

  lemma ReversedChain(g: Graph, head: Id, contained: set<Id>, walk: seq<Id>, ids: seq<Id>)
    requires Walked(g, head, contained, walk)
    requires |ids| == |walk| && forall k :: 0 <= k < |walk| ==> ids[k] == walk[|walk| - 1 - k]
    requires walk == [] <==> head in contained
    requires walk != [] ==> var p := g[walk[|walk| - 1]].parent1; p.None? || p.value in contained
    ensures IsChain(g, head, contained, ids)
  {
    var n := |walk|;
    forall i | 0 < i < n ensures g[ids[i]].parent1 == Some(ids[i - 1]) {
      var k := n - i;
      assert g[walk[k - 1]].parent1 == Some(walk[k]);
    }
  }

  /** The commits to replay for a merge base. */
  ghost predicate ChainFor(g: Graph, head: Id, base: Option<Id>, ids: seq<Id>) {
    exists contained: set<Id> :: Contains(g, base, contained) && IsChain(g, head, contained, ids)
  }

  /** The ancestors of the base. */
  ghost predicate Contains(g: Graph, base: Option<Id>, contained: set<Id>) {
    forall c :: c in contained <==> base.Some? && Ancestor(g, base.value, c)
  }

  ghost predicate StoredBelow(g: Graph, base: Option<Id>) {
    forall c :: base.Some? && Ancestor(g, base.value, c) ==> c in g
  }

  /** The walk has come down the chain so far. */
  ghost predicate Follows(walk: seq<Id>, ids: seq<Id>) {
    |walk| <= |ids| && forall k :: 0 <= k < |walk| ==> walk[k] == ids[|ids| - 1 - k]
  }

  ghost predicate FollowsAll(g: Graph, head: Id, contained: set<Id>, walk: seq<Id>) {
    forall ids :: IsChain(g, head, contained, ids) ==> Follows(walk, ids)
  }

  /** A walk that has met nothing contained yet is still inside every chain. */
  lemma FollowsNext(g: Graph, head: Id, contained: set<Id>, walk: seq<Id>, current: Id)
    requires Walked(g, head, contained, walk) && FollowsAll(g, head, contained, walk) && current !in contained
    requires if walk == [] then current == head else g[walk[|walk| - 1]].parent1 == Some(current)
    ensures FollowsAll(g, head, contained, walk + [current])
    ensures forall ids :: IsChain(g, head, contained, ids) ==> current in g
  {
    forall ids | IsChain(g, head, contained, ids) ensures Follows(walk + [current], ids) && current in g {
      assert Follows(walk, ids);
      var n, m := |ids|, |walk|;
      if m > 0 {
        var i := n - m;
        assert walk[m - 1] == ids[i];
        if i > 0 {
          assert g[ids[i]].parent1 == Some(ids[i - 1]);
        }
      }
    }
  }

  lemma ChainStops(g: Graph, head: Id, contained: set<Id>, ids: seq<Id>, i: nat)
    requires IsChain(g, head, contained, ids) && 0 < i < |ids|
    ensures ids[i] in g && g[ids[i]].parent1.Some? && g[ids[i]].parent1.value !in contained
  {
    assert g[ids[i]].parent1 == Some(ids[i - 1]) && ids[i - 1] in ids;
  }

  lemma ChainStarts(g: Graph, head: Id, contained: set<Id>, ids: seq<Id>)
    requires IsChain(g, head, contained, ids)
    ensures ids == [] <==> head in contained
    ensures ids != [] ==> ids[0] in g && var p := g[ids[0]].parent1; p.None? || p.value in contained
  {
  }

  /** A finished walk is as long as the chain. */
  lemma FollowsLength(g: Graph, head: Id, contained: set<Id>, walk: seq<Id>, found: seq<Id>, ids: seq<Id>)
    requires Follows(walk, ids) && IsChain(g, head, contained, ids)
    requires |found| == |walk| && forall k :: 0 <= k < |walk| ==> found[k] == walk[|walk| - 1 - k]
    requires IsChain(g, head, contained, found)
    ensures |ids| == |walk|
  {
    hide IsChain;
    ChainStarts(g, head, contained, ids);
    ChainStarts(g, head, contained, found);
    var i := |ids| - |walk|;
    if walk != [] {
      assert found[0] == walk[|walk| - 1] == ids[i];
      if i > 0 {
        ChainStops(g, head, contained, ids, i);
      }
    }
  }

  /** A finished walk is the chain. */
  lemma FollowsToTheEnd(g: Graph, head: Id, contained: set<Id>, walk: seq<Id>, found: seq<Id>, ids: seq<Id>)
    requires FollowsAll(g, head, contained, walk) && IsChain(g, head, contained, ids)
    requires |found| == |walk| && forall k :: 0 <= k < |walk| ==> found[k] == walk[|walk| - 1 - k]
    requires IsChain(g, head, contained, found)
    ensures found == ids
  {
    hide IsChain;
    assert Follows(walk, ids);
    FollowsLength(g, head, contained, walk, found, ids);
    var n := |ids|;
    forall k | 0 <= k < n ensures found[k] == ids[k] {
      var j := n - 1 - k;
      assert walk[j] == ids[n - 1 - j];
    }
  }

  lemma ContainsUnique(g: Graph, base: Option<Id>, a: set<Id>, b: set<Id>)
    requires Contains(g, base, a) && Contains(g, base, b)
    ensures a == b
  {
    hide Ancestor;
  }

  /** The first-parent commits of the source that the base does not contain,
      oldest first. */
  method RebaseCommits(g: Graph, head: Id, base: Option<Id>) returns (r: Commits)
    ensures r.Commits? ==> ChainFor(g, head, base, r.ids) && |r.ids| <= REBASE_COMMIT_LIMIT
    ensures r.Cycle? ==> !Acyclic(g)
    ensures r.Gone? ==> r.id !in g
    ensures r.TooMany? ==> exists contained: set<Id>, walk ::
      Contains(g, base, contained) && Walked(g, head, contained, walk) && |walk| > REBASE_COMMIT_LIMIT
    ensures r.TooMany? ==> forall ids :: ChainFor(g, head, base, ids) ==> |ids| > REBASE_COMMIT_LIMIT
    ensures Acyclic(g) && StoredBelow(g, base) ==>
      forall ids :: ChainFor(g, head, base, ids) && |ids| <= REBASE_COMMIT_LIMIT ==> r == Commits(ids)
  {
    hide Ancestor, Acyclic, IsChain, FollowsAll, Walked;
    var reach := ReachableFrom(g, base);
    if reach.Unknown? {
      return Gone(reach.id);
    }
    var stop := reach.ids;
    assert Contains(g, base, stop);
    var walk: seq<Id> := [];
    var seen: set<Id> := {};
    var current := head;
    NothingWalked(g, head, stop);
    while current !in stop
      invariant Walked(g, head, stop, walk) && |walk| <= REBASE_COMMIT_LIMIT && FollowsAll(g, head, stop, walk)
      invariant forall c :: c in seen <==> c in walk
      invariant walk == [] ==> current == head
      invariant walk != [] ==> walk[|walk| - 1] in g && g[walk[|walk| - 1]].parent1 == Some(current)
      decreases REBASE_COMMIT_LIMIT - |walk|
    {
      if current in seen {
        WalkedCycle(g, head, stop, walk, current);
        return Cycle;
      }
      seen := seen + {current};
      FollowsNext(g, head, stop, walk, current);
      if current !in g {
        NoChain(g, head, base, stop);
        return Gone(current);
      }
      WalkedMore(g, head, stop, walk, current);
      walk := walk + [current];
      if |walk| > REBASE_COMMIT_LIMIT {
        LongChain(g, head, base, stop, walk);
        return TooMany;
      }
      if g[current].parent1.None? {
        break;
      }
      current := g[current].parent1.value;
    }
    var ids := Reverse(walk);
    WalkedHead(g, head, stop, walk);
    ReversedChain(g, head, stop, walk, ids);
    forall other | ChainFor(g, head, base, other) ensures ids == other {
      OnlyChain(g, head, base, stop, walk, ids, other);
    }
    r := Commits(ids);
  }

  lemma WalkedHead(g: Graph, head: Id, contained: set<Id>, walk: seq<Id>)
    requires Walked(g, head, contained, walk)
    ensures walk != [] ==> walk[|walk| - 1] in g && head !in contained
  {
  }

  lemma NothingWalked(g: Graph, head: Id, contained: set<Id>)
    ensures Walked(g, head, contained, []) && FollowsAll(g, head, contained, [])
  {
  }

  lemma WalkedMore(g: Graph, head: Id, contained: set<Id>, walk: seq<Id>, current: Id)
    requires Walked(g, head, contained, walk) && current in g && current !in contained
    requires if walk == [] then current == head else g[walk[|walk| - 1]].parent1 == Some(current)
    ensures Walked(g, head, contained, walk + [current])
  {
    var next := walk + [current];
    forall i | 0 < i < |next| ensures g[next[i - 1]].parent1 == Some(next[i]) {
      if i < |walk| {
        assert g[walk[i - 1]].parent1 == Some(walk[i]);
      }
    }
  }

  lemma NoChain(g: Graph, head: Id, base: Option<Id>, contained: set<Id>)
    requires Contains(g, base, contained) && forall ids :: !IsChain(g, head, contained, ids)
    ensures forall ids :: !ChainFor(g, head, base, ids)
  {
    hide Contains, IsChain;
    forall other: set<Id> | Contains(g, base, other) ensures other == contained {
      ContainsUnique(g, base, other, contained);
    }
  }

  lemma LongChain(g: Graph, head: Id, base: Option<Id>, contained: set<Id>, walk: seq<Id>)
    requires Contains(g, base, contained) && FollowsAll(g, head, contained, walk)
    ensures forall ids :: ChainFor(g, head, base, ids) ==> |walk| <= |ids|
  {
    hide Contains, IsChain;
    forall other: set<Id> | Contains(g, base, other) ensures other == contained {
      ContainsUnique(g, base, other, contained);
    }
  }

  lemma OnlyChain(g: Graph, head: Id, base: Option<Id>, contained: set<Id>, walk: seq<Id>, found: seq<Id>,
                  other: seq<Id>)
    requires Contains(g, base, contained) && FollowsAll(g, head, contained, walk) && ChainFor(g, head, base, other)
    requires |found| == |walk| && forall k :: 0 <= k < |walk| ==> found[k] == walk[|walk| - 1 - k]
    requires IsChain(g, head, contained, found)
    ensures found == other
  {
    hide Contains, IsChain, FollowsAll;
    var s: set<Id> :| Contains(g, base, s) && IsChain(g, head, s, other);
    ContainsUnique(g, base, s, contained);
    FollowsToTheEnd(g, head, contained, walk, found, other);
  }

  // ---- replaying them ----

  /** The stored commits and their trees. */
  datatype Repository = Repository(graph: Graph, trees: map<Id, T.Tree>)

  ghost predicate Intact(d: Digest, repo: Repository) {
    forall id :: id in repo.trees ==>
      T.WellFormed(repo.trees[id]) && T.WellHashed(d, repo.trees[id]) && ShortPaths(repo.trees[id])
  }

  /** The tree a commit started from. */
  function BaseSide(repo: Repository, id: Id): T.MaybeTree {
    if id in repo.graph && repo.graph[id].parent1.Some? && repo.graph[id].parent1.value in repo.trees
    then T.Present(repo.trees[repo.graph[id].parent1.value])
    else T.Missing
  }

  /** The file set equals the tree's, up to hash and mode. */
  ghost predicate Tracks(d: Digest, o: T.MaybeTree, m: Entries) {
    forall n :: ListsSide(d, o, n) ==> AlikeMaps(m, n)
  }

  lemma ListedTracks(d: Digest, o: T.MaybeTree, m: Entries, n: Entries)
    requires ListsSide(d, o, n) && AlikeMaps(m, n)
    ensures Tracks(d, o, m)
  {
    hide ListsSide, AlikeMaps;
    forall k | ListsSide(d, o, k) ensures AlikeMaps(m, k) {
      ListsUnique(d, o, n, k);
    }
  }

  datatype Replay = Replayed(roots: seq<PT.Node>) | Stopped(paths: seq<string>) | NotFound(id: Id)

  /** The state after replaying one commit is the merge of the commit's change
      into the state before, and its tree on top of the target reads as it. */
  ghost predicate ReplayedOne(d: Digest, st: Store, repo: Repository, target: T.Tree, id: Id, before: Entries,
                              after: Entries, root: PT.Node) {
    && id in repo.trees
    && (exists b, t :: ListsSide(d, BaseSide(repo, id), b) && TreeDiff.Lists(d, repo.trees[id], t) &&
                       IsMerge(st, b, before, t, after))
    && ReadsAs(d, PT.Expand(root, T.Present(target)), after)
  }

  /** All the trees that a replay reads are there. */
  predicate Complete(repo: Repository, ids: seq<Id>) {
    forall i :: 0 <= i < |ids| ==>
      && ids[i] in repo.graph && ids[i] in repo.trees
      && (repo.graph[ids[i]].parent1.Some? ==> repo.graph[ids[i]].parent1.value in repo.trees)
  }

  /** One commit: merge its change into the current set, and build the tree. */
  method ReplayCommit(d: Digest, st: Store, repo: Repository, target: T.Tree, listed: Entries, id: Id, current: Entries)
    returns (m: Outcome, root: PT.Node)
    requires Intact(d, repo) && SavesStorable(d, st) && id in repo.trees
    requires T.WellFormed(target) && T.WellHashed(d, target) && TreeDiff.Lists(d, target, listed)
    requires Storable(d, listed) && Storable(d, current)
    ensures m.Merged? ==> Storable(d, m.files) && ReplayedOne(d, st, repo, target, id, current, m.files, root)
    ensures Tracks(d, BaseSide(repo, id), current) ==> m.Merged? && Tracks(d, T.Present(repo.trees[id]), m.files)
  {
    hide T.WellFormed, T.WellHashed, ShortPaths, SavesStorable, TreeDiff.Lists, Mergeable, IsMerge, IsDelta, Storable,
         MadeFrom, AlikeMaps, ReadsAs;
    var b := MergeTree(d, BaseSide(repo, id));
    var t := MergeTree(d, T.Present(repo.trees[id]));
    m := MergeOnto(st, b, current, t);
    root := PT.Node(PT.NodeId(0), "", 0, ZERO, [], [], []);
    if Tracks(d, BaseSide(repo, id), current) {
      OursKeptBase(st, b, current, t, if m.Merged? then m.files else map[]);
    }
    if m.Conflicted? {
      return;
    }
    ListedStorable(d, repo.trees[id], t);
    MergeStorable(d, st, current, t, m.files);
    root := BuildMerged(d, target, listed, m.files);
    if Tracks(d, BaseSide(repo, id), current) {
      ListedTracks(d, T.Present(repo.trees[id]), m.files, t);
    }
  }

  /** The file sets of a replay, from the target's on, and the trees built. */
  ghost predicate Replays(d: Digest, st: Store, repo: Repository, target: T.Tree, ids: seq<Id>, states: seq<Entries>,
                          roots: seq<PT.Node>) {
    && |roots| == |ids| && |states| == |ids| + 1 && TreeDiff.Lists(d, target, states[0])
    && (forall i :: 0 <= i < |ids| ==> ReplayedAt(d, st, repo, target, ids, states, roots, i))
  }

  ghost predicate ReplayedAt(d: Digest, st: Store, repo: Repository, target: T.Tree, ids: seq<Id>, states: seq<Entries>,
                             roots: seq<PT.Node>, i: nat)
    requires i < |ids| && i < |roots| && i + 1 < |states|
  {
    ReplayedOne(d, st, repo, target, ids[i], states[i], states[i + 1], roots[i])
  }

  /** The chain is linked and stored, and the target's tree is the one it started from. */
  ghost predicate StartsAt(d: Digest, repo: Repository, target: T.Tree, ids: seq<Id>) {
    && ids != [] && Linked(repo.graph, ids) && Complete(repo, ids)
    && (forall m :: TreeDiff.Lists(d, target, m) ==> Tracks(d, BaseSide(repo, ids[0]), m))
  }

  /** The tree holds the files of the commit's tree, up to hash and mode. */
  ghost predicate Reproduces(d: Digest, repo: Repository, target: T.Tree, root: PT.Node, id: Id) {
    id in repo.trees && exists m :: ReadsAs(d, PT.Expand(root, T.Present(target)), m) &&
                                    Tracks(d, T.Present(repo.trees[id]), m)
  }

  /** Replays the commits onto the target. If the target's tree is the one the
      chain started from, nothing conflicts and the last tree is the source's. */
  method ReplayAll(d: Digest, st: Store, repo: Repository, target: T.Tree, ids: seq<Id>) returns (r: Replay)
    requires Intact(d, repo) && SavesStorable(d, st)
    requires T.WellFormed(target) && T.WellHashed(d, target) && ShortPaths(target)
    ensures r.Replayed? ==> exists states :: Replays(d, st, repo, target, ids, states, r.roots)
    ensures StartsAt(d, repo, target, ids) ==>
      r.Replayed? && |r.roots| == |ids| && Reproduces(d, repo, target, r.roots[|ids| - 1], ids[|ids| - 1])
  {
    hide Intact, SavesStorable, T.WellFormed, T.WellHashed, ShortPaths, TreeDiff.Lists, Storable, Tracks, ReplayedOne,
         ReplayedAt, ReadsAs;
    var listed := MergeTree(d, T.Present(target));
    ListedStorable(d, target, listed);
    var current := listed;
    ghost var states := [listed];
    var roots: seq<PT.Node> := [];
    var i := 0;
    while i < |ids|
      invariant 0 <= i <= |ids| && |roots| == i && |states| == i + 1
      invariant states[0] == listed && states[i] == current && Storable(d, current)
      invariant forall k :: 0 <= k < i ==> ReplayedAt(d, st, repo, target, ids, states, roots, k)
      invariant StartsAt(d, repo, target, ids) && i < |ids| ==> Tracks(d, BaseSide(repo, ids[i]), current)
      invariant StartsAt(d, repo, target, ids) && i > 0 ==> Reproduces(d, repo, target, roots[i - 1], ids[i - 1])
    {
      var id := ids[i];
      if id !in repo.graph || id !in repo.trees {
        return NotFound(id);
      }
      var p := repo.graph[id].parent1;
      if p.Some? && p.value !in repo.trees {
        return NotFound(p.value);
      }
      var m, root := ReplayCommit(d, st, repo, target, listed, id, current);
      if m.Conflicted? {
        return Stopped(m.paths);
      }
      if StartsAt(d, repo, target, ids) && i + 1 < |ids| {
        NextBase(repo, ids, i);
      }
      OneMore(d, st, repo, target, ids, states, roots, m.files, root);
      ReplayReads(d, st, repo, target, id, current, m.files, root);
      current := m.files;
      states := states + [current];
      roots := roots + [root];
      i := i + 1;
    }
    assert Replays(d, st, repo, target, ids, states, roots);
    r := Replayed(roots);
  }

  lemma OneMore(d: Digest, st: Store, repo: Repository, target: T.Tree, ids: seq<Id>, states: seq<Entries>,
                roots: seq<PT.Node>, m: Entries, root: PT.Node)
    requires |roots| < |ids| && |states| == |roots| + 1
    requires forall k :: 0 <= k < |roots| ==> ReplayedAt(d, st, repo, target, ids, states, roots, k)
    requires ReplayedOne(d, st, repo, target, ids[|roots|], states[|roots|], m, root)
    ensures forall k :: 0 <= k <= |roots| ==> ReplayedAt(d, st, repo, target, ids, states + [m], roots + [root], k)
  {
    hide ReplayedOne;
    var s, r := states + [m], roots + [root];
    forall k | 0 <= k <= |roots| ensures ReplayedAt(d, st, repo, target, ids, s, r, k) {
      if k < |roots| {
        assert ReplayedAt(d, st, repo, target, ids, states, roots, k);
      }
    }
  }

  lemma ReplayReads(d: Digest, st: Store, repo: Repository, target: T.Tree, id: Id, before: Entries, after: Entries,
                    root: PT.Node)
    requires ReplayedOne(d, st, repo, target, id, before, after, root)
    ensures ReadsAs(d, PT.Expand(root, T.Present(target)), after)
  {
  }

  lemma NextBase(repo: Repository, ids: seq<Id>, i: nat)
    requires Linked(repo.graph, ids) && Complete(repo, ids) && i + 1 < |ids|
    ensures ids[i] in repo.trees && BaseSide(repo, ids[i + 1]) == T.Present(repo.trees[ids[i]])
  {
    var k := i + 1;
    assert repo.graph[ids[k]].parent1 == Some(ids[k - 1]);
  }

  // ---- landing a rebase ----

  datatype Rebased =
    | Rebased(roots: seq<PT.Node>)
    | NothingToReplay
    | Conflicting(paths: seq<string>)
    | Failed

  /** Rebases the source onto the target: its own commits are found and replayed.
      On a target whose tree is the one the chain started from, nothing conflicts
      and the last tree holds the files of the source head. */
  method LandRebase(d: Digest, st: Store, repo: Repository, target: T.Tree, head: Id, base: Option<Id>)
    returns (r: Rebased)
    requires Intact(d, repo) && SavesStorable(d, st)
    requires T.WellFormed(target) && T.WellHashed(d, target) && ShortPaths(target)
    ensures r.Rebased? ==> exists ids, states ::
      ChainFor(repo.graph, head, base, ids) && ids != [] && Replays(d, st, repo, target, ids, states, r.roots)
    ensures r.NothingToReplay? ==> ChainFor(repo.graph, head, base, [])
    ensures Acyclic(repo.graph) && StoredBelow(repo.graph, base) ==>
      forall ids :: ChainFor(repo.graph, head, base, ids) && |ids| <= REBASE_COMMIT_LIMIT &&
                    StartsAt(d, repo, target, ids) ==>
        r.Rebased? && |r.roots| == |ids| && Reproduces(d, repo, target, r.roots[|ids| - 1], head)
  {
    hide Intact, SavesStorable, T.WellFormed, T.WellHashed, ShortPaths, ChainFor, Replays, StartsAt, Reproduces,
         Acyclic, StoredBelow;
    var commits := RebaseCommits(repo.graph, head, base);
    forall ids | StartsAt(d, repo, target, ids) ensures ids != [] {
      StartsSomewhere(d, repo, target, ids);
    }
    if !commits.Commits? {
      return Failed;
    }
    if |commits.ids| == 0 {
      return NothingToReplay;
    }
    EndsAtHead(repo.graph, head, base, commits.ids);
    var replay := ReplayAll(d, st, repo, target, commits.ids);
    match replay {
      case Replayed(roots) => r := Rebased(roots);
      case Stopped(paths) => r := Conflicting(paths);
      case NotFound(_) => r := Failed;
    }
  }

  lemma StartsSomewhere(d: Digest, repo: Repository, target: T.Tree, ids: seq<Id>)
    requires StartsAt(d, repo, target, ids)
    ensures ids != []
  {
  }

  lemma EndsAtHead(g: Graph, head: Id, base: Option<Id>, ids: seq<Id>)
    requires ChainFor(g, head, base, ids) && ids != []
    ensures ids[|ids| - 1] == head
  {
  }
}
