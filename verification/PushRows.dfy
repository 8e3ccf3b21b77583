/** The rows a push writes: the built tree listed level by level, parents before
    children. */
module PushRows {
  import opened Trees
  import opened TreeHash
  import opened PushTree

  datatype MaybeId = NoParent | Parent(id: NodeId)

  datatype NodeRow = NodeRow(id: NodeId, hash: Hash, name: string, mode: int, parent: MaybeId)

  datatype FileRow = FileRow(file: File, tree: NodeId)

  /** A node waiting in the queue, with its parent. */
  datatype Item = Item(node: Node, parent: MaybeId)

  // ---- the rows of a tree, listed by recursion ----

  function RowOf(i: Item): NodeRow {
    NodeRow(i.node.id, i.node.hash, i.node.name, i.node.mode, i.parent)
  }

  function KeptRows(keep: seq<Kept>, id: NodeId): seq<NodeRow> {
    if keep == [] then [] else [NodeRow(keep[0].id, keep[0].hash, keep[0].name, keep[0].mode,
                                        Parent(id))] + KeptRows(keep[1..], id)
  }

  function NodeRows(i: Item): seq<NodeRow>
    decreases i.node
  {
    [RowOf(i)] + ChildRows(i.node.children, i.node.id) + KeptRows(i.node.keep, i.node.id)
  }

  function ChildRows(children: seq<Node>, id: NodeId): seq<NodeRow>
    decreases children
  {
    if children == [] then [] else NodeRows(Item(children[0], Parent(id))) + ChildRows(children[1..], id)
  }

  function OwnFileRows(files: seq<File>, id: NodeId): seq<FileRow> {
    if files == [] then [] else [FileRow(files[0], id)] + OwnFileRows(files[1..], id)
  }

  function FileRows(n: Node): seq<FileRow> {
    OwnFileRows(n.files, n.id) + ChildFileRows(n.children)
  }

  function ChildFileRows(children: seq<Node>): seq<FileRow> {
    if children == [] then [] else FileRows(children[0]) + ChildFileRows(children[1..])
  }

  function Ids(rows: seq<NodeRow>): (ids: seq<NodeId>)
    ensures |ids| == |rows| && forall i :: 0 <= i < |rows| ==> ids[i] == rows[i].id
  {
    if rows == [] then [] else [rows[0].id] + Ids(rows[1..])
  }

  lemma IdsConcat(a: seq<NodeRow>, b: seq<NodeRow>)
    ensures Ids(a + b) == Ids(a) + Ids(b)
  {
  }

  lemma {:induction false} KeptRowIds(keep: seq<Kept>, id: NodeId)
    ensures Ids(KeptRows(keep, id)) == KeptIds(keep)
  {
    if keep != [] {
      KeptRowIds(keep[1..], id);
      IdsConcat([NodeRow(keep[0].id, keep[0].hash, keep[0].name, keep[0].mode, Parent(id))], KeptRows(keep[1..], id));
    }
  }

  lemma {:induction false} NodeRowIds(n: Node, parent: MaybeId)
    ensures Ids(NodeRows(Item(n, parent))) == AllIds(n)
    decreases n, 1
  {
    var i := Item(n, parent);
    ChildRowIds(n.children, n.id);
    KeptRowIds(n.keep, n.id);
    IdsConcat([RowOf(i)], ChildRows(n.children, n.id));
    IdsConcat([RowOf(i)] + ChildRows(n.children, n.id), KeptRows(n.keep, n.id));
  }

  lemma {:induction false} ChildRowIds(children: seq<Node>, id: NodeId)
    ensures Ids(ChildRows(children, id)) == ChildIds(children)
    decreases children, 0
  {
    hide NodeRows, AllIds;
    if children != [] {
      NodeRowIds(children[0], Parent(id));
      ChildRowIds(children[1..], id);
      IdsConcat(NodeRows(Item(children[0], Parent(id))), ChildRows(children[1..], id));
    }
  }

  // ---- the queue ----

  function QueueRows(queue: seq<Item>): seq<NodeRow> {
    if queue == [] then [] else NodeRows(queue[0]) + QueueRows(queue[1..])
  }

  function QueueFiles(queue: seq<Item>): seq<FileRow> {
    if queue == [] then [] else FileRows(queue[0].node) + QueueFiles(queue[1..])
  }

  function Items(children: seq<Node>, id: NodeId): (r: seq<Item>)
    ensures |r| == |children| && forall i :: 0 <= i < |children| ==> r[i] == Item(children[i], Parent(id))
  {
    if children == [] then [] else [Item(children[0], Parent(id))] + Items(children[1..], id)
  }

  lemma {:induction false} QueueConcat(a: seq<Item>, b: seq<Item>)
    ensures QueueRows(a + b) == QueueRows(a) + QueueRows(b) && QueueFiles(a + b) == QueueFiles(a) + QueueFiles(b)
  {
    hide NodeRows, FileRows;
    if a == [] {
      assert a + b == b;
    } else {
      QueueConcat(a[1..], b);
      assert (a + b)[1..] == a[1..] + b;
      Assoc(NodeRows(a[0]), QueueRows(a[1..]), QueueRows(b));
      Assoc(FileRows(a[0].node), QueueFiles(a[1..]), QueueFiles(b));
    }
  }

  lemma Assoc<T>(a: seq<T>, b: seq<T>, c: seq<T>)
    ensures a + (b + c) == (a + b) + c
  {
  }

  lemma {:induction false} QueueItems(children: seq<Node>, id: NodeId)
    ensures QueueRows(Items(children, id)) == ChildRows(children, id)
    ensures QueueFiles(Items(children, id)) == ChildFileRows(children)
  {
    hide NodeRows, FileRows;
    if children != [] {
      QueueItems(children[1..], id);
      assert Items(children, id)[1..] == Items(children[1..], id);
    }
  }

  /** Every row has a parent listed before it, except the first. */
  ghost predicate ParentsFirst(rows: seq<NodeRow>) {
    forall i :: 0 <= i < |rows| ==> ParentBefore(rows, i)
  }

  ghost predicate ParentBefore(rows: seq<NodeRow>, i: nat)
    requires i < |rows|
  {
    match rows[i].parent
    case NoParent => i == 0
    case Parent(id) => Listed(rows[..i], id)
  }

  ghost predicate Listed(rows: seq<NodeRow>, id: NodeId) {
    exists r :: r in rows && r.id == id
  }

  lemma ListedMore(rows: seq<NodeRow>, more: seq<NodeRow>, id: NodeId)
    requires Listed(rows, id)
    ensures Listed(rows + more, id)
  {
    var r :| r in rows && r.id == id;
    assert r in rows + more;
  }

  /** A row may follow when its parent is listed, or when it is the first. */
  lemma AppendRow(rows: seq<NodeRow>, r: NodeRow)
    requires ParentsFirst(rows)
    requires match r.parent case NoParent => rows == [] case Parent(id) => Listed(rows, id)
    ensures ParentsFirst(rows + [r])
  {
    hide Listed;
    var all := rows + [r];
    forall i | 0 <= i < |all| ensures ParentBefore(all, i) {
      if i < |rows| {
        assert ParentBefore(rows, i);
        assert all[..i] == rows[..i];
      } else {
        assert all[..i] == rows;
      }
    }
  }

  /** Whether the items of the queue may be listed next. */
  ghost predicate Ready(rows: seq<NodeRow>, queue: seq<Item>) {
    forall i :: i in queue ==>
      match i.parent case NoParent => rows == [] && |queue| == 1 case Parent(id) => Listed(rows, id)
  }

  /** Lists the kept directories of one node. */
  method ListKept(rows: seq<NodeRow>, keep: seq<Kept>, id: NodeId) returns (r: seq<NodeRow>)
    requires ParentsFirst(rows) && Listed(rows, id)
    ensures r == rows + KeptRows(keep, id) && ParentsFirst(r)
  {
    hide ParentsFirst, Listed;
    r := rows;
    var i := 0;
    assert keep[i..] == keep;
    while i < |keep|
      invariant 0 <= i <= |keep| && rows <= r && ParentsFirst(r)
      invariant r + KeptRows(keep[i..], id) == rows + KeptRows(keep, id)
    {
      var row := NodeRow(keep[i].id, keep[i].hash, keep[i].name, keep[i].mode, Parent(id));
      assert keep[i..][1..] == keep[i + 1..] && keep[i..][0] == keep[i];
      assert r == rows + r[|rows|..];
      ListedMore(rows, r[|rows|..], id);
      AppendRow(r, row);
      Assoc(r, [row], KeptRows(keep[i + 1..], id));
      r := r + [row];
      i := i + 1;
    }
  }

  method ListFiles(rows: seq<FileRow>, files: seq<File>, id: NodeId) returns (r: seq<FileRow>)
    ensures r == rows + OwnFileRows(files, id)
  {
    r := rows;
    var i := 0;
    assert files[i..] == files;
    while i < |files|
      invariant 0 <= i <= |files|
      invariant r + OwnFileRows(files[i..], id) == rows + OwnFileRows(files, id)
    {
      assert files[i..][1..] == files[i + 1..] && files[i..][0] == files[i];
      Assoc(r, [FileRow(files[i], id)], OwnFileRows(files[i + 1..], id));
      r := r + [FileRow(files[i], id)];
      i := i + 1;
    }
  }

  /** The listing so far and the queue make up the whole. */
  ghost predicate Accounts<T(!new)>(rows: seq<T>, queued: seq<T>, whole: seq<T>) {
    multiset(rows) + multiset(queued) == multiset(whole)
  }

  lemma MoveRows<T(!new)>(rows: seq<T>, a: seq<T>, b: seq<T>, c: seq<T>, rest: seq<T>, whole: seq<T>)
    requires Accounts(rows, a + b + c + rest, whole)
    ensures Accounts(rows + a + c, rest + b, whole)
  {
    assert multiset(a + b + c + rest) == multiset(a) + multiset(b) + multiset(c) + multiset(rest);
    assert multiset(rows + a + c) == multiset(rows) + multiset(a) + multiset(c);
    assert multiset(rest + b) == multiset(rest) + multiset(b);
  }

  /** The rows of the tree, each once, every node after its parent. */
  method ListRows(root: Node) returns (nodes: seq<NodeRow>, files: seq<FileRow>)
    ensures multiset(nodes) == multiset(NodeRows(Item(root, NoParent)))
    ensures multiset(files) == multiset(FileRows(root))
    ensures ParentsFirst(nodes)
  {
    hide NodeRows, FileRows, ParentsFirst, Listed, Ready, Accounts;
    var queue := [Item(root, NoParent)];
    nodes, files := [], [];
    StartQueue(root);
    ghost var allRows, allFiles := NodeRows(Item(root, NoParent)), FileRows(root);
    while |queue| > 0
      invariant Accounts(nodes, QueueRows(queue), allRows) && Accounts(files, QueueFiles(queue), allFiles)
      invariant ParentsFirst(nodes) && Ready(nodes, queue)
      decreases |QueueRows(queue)|
    {
      var i := queue[0];
      var n := i.node;
      ghost var rest := queue[1..];
      NodeRowsAre(i);
      QueueConcat(rest, Items(n.children, n.id));
      QueueItems(n.children, n.id);
      MoveRows(nodes, [RowOf(i)], ChildRows(n.children, n.id), KeptRows(n.keep, n.id), QueueRows(rest), allRows);
      assert [] + OwnFileRows(n.files, n.id) == OwnFileRows(n.files, n.id);
      MoveFiles(files, OwnFileRows(n.files, n.id), ChildFileRows(n.children), QueueFiles(rest), allFiles);
      ReadyHead(nodes, queue);
      AppendRow(nodes, RowOf(i));
      ghost var was := nodes;
      nodes := nodes + [RowOf(i)];
      ListedLast(was, RowOf(i));
      files := ListFiles(files, n.files, n.id);
      nodes := ListKept(nodes, n.keep, n.id);
      ReadyNext(was, queue, KeptRows(n.keep, n.id));
      queue := queue[1..] + Items(n.children, n.id);
    }
    AllListed(nodes, allRows);
    AllListed(files, allFiles);
  }

  /** What identifies a commit: ids and hashes of its parents, message, place. */
  datatype CommitInfo = CommitInfo(project: int, branch: int, id: int, parent: MaybeCommit, parent2: MaybeCommit,
                                   parentHashes: seq<Hash>, message: string)

  datatype MaybeCommit = NoCommit | Commit(id: int)

  datatype ApplyRequest = ApplyRequest(project: int, branch: int, commit: int, commitHash: Hash, parent: MaybeCommit,
                                       parent2: MaybeCommit, message: string, nodes: seq<NodeRow>, files: seq<FileRow>)

  /** The request carries the commit, hashed over the tree, its parents and its
      message, and the rows of the tree, each once and every node after its parent. */
  method BuildApplyRequest(d: Digest, c: CommitInfo, root: Node) returns (r: ApplyRequest)
    ensures r.project == c.project && r.branch == c.branch && r.commit == c.id && r.message == c.message
    ensures r.parent == c.parent && r.parent2 == c.parent2
    ensures r.commitHash == d(CommitStream(root.hash, c.parentHashes, c.message))
    ensures multiset(r.nodes) == multiset(NodeRows(Item(root, NoParent))) && ParentsFirst(r.nodes)
    ensures multiset(r.files) == multiset(FileRows(root))
  {
    hide NodeRows, FileRows, ParentsFirst, CommitStream;
    var commitHash := HashCommit(d, root.hash, c.parentHashes, c.message);
    var nodes, files := ListRows(root);
    r := ApplyRequest(c.project, c.branch, c.id, commitHash, c.parent, c.parent2, c.message, nodes, files);
  }

  /** Two requests with one commit hash are for the same tree hash, parents and
      message, where the digest tells their streams apart. */
  lemma CommitHashDecides(d: Digest, c: CommitInfo, tree: Hash, c': CommitInfo, tree': Hash)
    requires |c.parentHashes| < 0x1_0000_0000 && |c'.parentHashes| < 0x1_0000_0000
    requires var s, s' := CommitStream(tree, c.parentHashes, c.message),
               CommitStream(tree', c'.parentHashes, c'.message);
      d(s) == d(s') ==> s == s'
    requires d(CommitStream(tree, c.parentHashes, c.message)) == d(CommitStream(tree', c'.parentHashes, c'.message))
    ensures tree == tree' && c.parentHashes == c'.parentHashes && c.message == c'.message
  {
    CommitStreamInjective(tree, c.parentHashes, c.message, tree', c'.parentHashes, c'.message);
  }

  lemma StartQueue(root: Node)
    ensures var queue := [Item(root, NoParent)];
      && Accounts([], QueueRows(queue), NodeRows(Item(root, NoParent))) &&
         Accounts([], QueueFiles(queue), FileRows(root))
      && ParentsFirst([]) && Ready([], queue)
  {
    hide NodeRows, FileRows;
    var queue := [Item(root, NoParent)];
    assert queue[1..] == [];
    assert QueueRows(queue) == NodeRows(queue[0]) + [];
    assert QueueFiles(queue) == FileRows(queue[0].node) + [];
  }

  lemma NodeRowsAre(i: Item)
    ensures NodeRows(i) == [RowOf(i)] + ChildRows(i.node.children, i.node.id) + KeptRows(i.node.keep, i.node.id)
    ensures FileRows(i.node) == OwnFileRows(i.node.files, i.node.id) + ChildFileRows(i.node.children)
  {
  }

  lemma MoveFiles(rows: seq<FileRow>, a: seq<FileRow>, b: seq<FileRow>, rest: seq<FileRow>, whole: seq<FileRow>)
    requires Accounts(rows, a + b + rest, whole)
    ensures Accounts(rows + a, rest + b, whole)
  {
    assert multiset(a + b + rest) == multiset(a) + multiset(b) + multiset(rest);
    assert multiset(rows + a) == multiset(rows) + multiset(a);
    assert multiset(rest + b) == multiset(rest) + multiset(b);
  }

  lemma ReadyHead(rows: seq<NodeRow>, queue: seq<Item>)
    requires Ready(rows, queue) && queue != []
    ensures match queue[0].parent case NoParent => rows == [] case Parent(id) => Listed(rows, id)
  {
    assert queue[0] in queue;
  }

  lemma ListedLast(rows: seq<NodeRow>, r: NodeRow)
    ensures Listed(rows + [r], r.id)
  {
    assert r in rows + [r];
  }

  lemma ReadyNext(rows: seq<NodeRow>, queue: seq<Item>, kept: seq<NodeRow>)
    requires Ready(rows, queue) && queue != []
    ensures Ready(rows + [RowOf(queue[0])] + kept, queue[1..] + Items(queue[0].node.children, queue[0].node.id))
  {
    var i := queue[0];
    var grown := rows + [RowOf(i)] + kept;
    var next := queue[1..] + Items(i.node.children, i.node.id);
    assert RowOf(i) in grown;
    forall j | j in next ensures j.parent.Parent? && Listed(grown, j.parent.id) {
      if j in queue[1..] {
        assert j in queue && |queue| != 1;
        ListedMore(rows, [RowOf(i)] + kept, j.parent.id);
        Assoc(rows, [RowOf(i)], kept);
      } else {
        assert j.parent == Parent(i.node.id);
      }
    }
  }

  lemma AllListed<T(!new)>(rows: seq<T>, whole: seq<T>)
    requires Accounts(rows, [], whole)
    ensures multiset(rows) == multiset(whole)
  {
  }

  lemma TakeOut(b: seq<NodeRow>, k: nat) returns (rest: seq<NodeRow>)
    requires k < |b|
    ensures |rest| == |b| - 1 && multiset(b) == multiset{b[k]} + multiset(rest)
    ensures multiset(Ids(b)) == multiset{b[k].id} + multiset(Ids(rest))
  {
    hide Ids;
    var u, v := b[..k], b[k + 1..];
    rest := u + v;
    assert b == u + [b[k]] + v;
    IdsConcat(u, v);
    IdsConcat(u, [b[k]]);
    IdsConcat(u + [b[k]], v);
    assert Ids([b[k]]) == [b[k].id];
  }

  lemma Cancel(x: NodeRow, r: multiset<NodeRow>, o: multiset<NodeRow>)
    requires multiset{x} + r == multiset{x} + o
    ensures r == o
  {
    forall y ensures r[y] == o[y] {
      assert (multiset{x} + r)[y] == (multiset{x} + o)[y];
    }
  }

  lemma FindRow(a: seq<NodeRow>, b: seq<NodeRow>) returns (k: nat)
    requires multiset(a) == multiset(b) && a != []
    ensures k < |b| && b[k] == a[0]
  {
    assert a[0] in multiset(b);
    k :| 0 <= k < |b| && b[k] == a[0];
  }

  lemma SameRest(a: seq<NodeRow>, b: seq<NodeRow>, rest: seq<NodeRow>, others: seq<NodeRow>, x: NodeRow)
    requires multiset(a) == multiset(b)
    requires multiset(a) == multiset{x} + multiset(rest) && multiset(b) == multiset{x} + multiset(others)
    ensures multiset(rest) == multiset(others)
  {
    Cancel(x, multiset(rest), multiset(others));
  }

  /** Reordering rows reorders their ids. */
  lemma {:induction false} SameIds(a: seq<NodeRow>, b: seq<NodeRow>)
    requires multiset(a) == multiset(b)
    ensures multiset(Ids(a)) == multiset(Ids(b))
    decreases |a|
  {
    hide Ids;
    if a == [] {
      assert |multiset(b)| == |b|;
    } else {
      var x := a[0];
      var k := FindRow(a, b);
      var rest := TakeOut(a, 0);
      var others := TakeOut(b, k);
      SameRest(a, b, rest, others, x);
      SameIds(rest, others);
    }
  }

  lemma TwoOccurrences(s: seq<NodeId>, i: nat, j: nat)
    requires i < j < |s| && s[i] == s[j]
    ensures multiset(s)[s[i]] >= 2
  {
    assert s == s[..j] + s[j..];
    assert s[..j][i] in multiset(s[..j]) && s[j..][0] in multiset(s[j..]);
  }

  /** With numbered nodes no id is written twice. */
  lemma RowsHaveUniqueIds(root: Node, nodes: seq<NodeRow>, count: int, i: nat, j: nat)
    requires Numbered(AllIds(root), 0, count)
    requires multiset(nodes) == multiset(NodeRows(Item(root, NoParent)))
    requires i < j < |nodes|
    ensures nodes[i].id != nodes[j].id
  {
    hide NodeRows, AllIds;
    NodeRowIds(root, NoParent);
    SameIds(nodes, NodeRows(Item(root, NoParent)));
    if nodes[i].id == nodes[j].id {
      TwoOccurrences(Ids(nodes), i, j);
    }
  }
}
