/** What the rows of a push mean to a reader of the tables: directories are found
    from their parent's id, files from their directory's. */
module StoredRows {
  import opened Prefix
  import opened Trees
  import opened TreeHash
  import opened PushTree
  import opened PushRows

  // ---- reading the rows ----

  /** Below the directory with this id the rows lead to file f along q. */
  ghost predicate FileAt(nodes: seq<NodeRow>, files: seq<FileRow>, id: NodeId, q: string, f: File)
    decreases |q|
  {
    || (f.name == q && exists r :: r in files && r.tree == id && r.file == f)
    || (exists r :: r in nodes && r.parent == Parent(id) && Inside(r.name, q) &&
                    FileAt(nodes, files, r.id, Below(r.name, q), f))
  }

  /** Below the directory with this id the rows lead to a directory along q. */
  ghost predicate DirAt(nodes: seq<NodeRow>, id: NodeId, q: string, row: NodeRow)
    decreases |q|
  {
    || (row in nodes && row.parent == Parent(id) && row.name == q)
    || (exists r :: r in nodes && r.parent == Parent(id) && Inside(r.name, q) &&
                    DirAt(nodes, r.id, Below(r.name, q), row))
  }

  // ---- the built node itself ----

  ghost predicate NodeFile(n: Node, q: string, f: File)
    decreases n
  {
    || (f in n.files && f.name == q)
    || (exists c :: c in n.children && Inside(c.name, q) && NodeFile(c, Below(c.name, q), f))
  }

  /** A built or kept directory at q, with its id, hash and mode. */
  ghost predicate NodeDir(n: Node, q: string, id: NodeId, hash: Hash, mode: int)
    decreases n
  {
    || (exists c :: c in n.children && c.name == q && c.id == id && c.hash == hash && c.mode == mode)
    || Kept(id, q, mode, hash) in n.keep
    || (exists c :: c in n.children && Inside(c.name, q) && NodeDir(c, Below(c.name, q), id, hash, mode))
  }

  /** Reading starts at the one row without a parent and finds the built tree. */
  ghost predicate ReadsBack(root: Node, nodes: seq<NodeRow>, files: seq<FileRow>) {
    && NodeRow(root.id, root.hash, root.name, root.mode, NoParent) in nodes
    && (forall r :: r in nodes && r.parent.NoParent? ==>
          r == NodeRow(root.id, root.hash, root.name, root.mode, NoParent))
    && (forall q, f :: FileAt(nodes, files, root.id, q, f) <==> NodeFile(root, q, f))
    && (forall q, row :: DirAt(nodes, root.id, q, row) ==> NodeDir(root, q, row.id, row.hash, row.mode))
    && (forall q, id, hash, mode :: NodeDir(root, q, id, hash, mode) ==>
          exists row :: DirAt(nodes, root.id, q, row) && row.id == id && row.hash == hash && row.mode == mode)
  }

  // ---- which rows there are ----

  lemma {:induction false} InOwnFileRows(files: seq<File>, id: NodeId, r: FileRow)
    ensures r in OwnFileRows(files, id) <==> r.tree == id && r.file in files
  {
    if files != [] {
      InOwnFileRows(files[1..], id, r);
      assert files == [files[0]] + files[1..];
    }
  }

  lemma {:induction false} InKeptRows(keep: seq<Kept>, id: NodeId, r: NodeRow)
    ensures r in KeptRows(keep, id) <==> r.parent == Parent(id) && Kept(r.id, r.name, r.mode, r.hash) in keep
  {
    if keep != [] {
      InKeptRows(keep[1..], id, r);
      assert keep == [keep[0]] + keep[1..];
    }
  }

  lemma {:induction false} InChildFileRows(children: seq<Node>, r: FileRow)
    ensures r in ChildFileRows(children) <==> exists c :: c in children && r in FileRows(c)
  {
    if children != [] {
      var first, rest := children[0], children[1..];
      assert children == [first] + rest;
      InChildFileRows(rest, r);
      assert r in ChildFileRows(children) <==> r in FileRows(first) || r in ChildFileRows(rest);
      if c :| c in rest && r in FileRows(c) {
        assert c in children;
      }
    }
  }

  lemma {:induction false} InChildRows(children: seq<Node>, id: NodeId, r: NodeRow)
    ensures r in ChildRows(children, id) <==> exists c :: c in children && r in NodeRows(Item(c, Parent(id)))
  {
    hide NodeRows;
    if children != [] {
      InChildRows(children[1..], id, r);
      assert children == [children[0]] + children[1..];
      assert forall c :: c in children <==> c == children[0] || c in children[1..];
    }
  }

  lemma InFileRows(n: Node, r: FileRow)
    ensures r in FileRows(n) <==>
      (r.tree == n.id && r.file in n.files) || exists c :: c in n.children && r in FileRows(c)
  {
    hide FileRows;
    NodeRowsAre(Item(n, NoParent));
    InOwnFileRows(n.files, n.id, r);
    InChildFileRows(n.children, r);
  }

  lemma InNodeRows(n: Node, parent: MaybeId, r: NodeRow)
    ensures r in NodeRows(Item(n, parent)) <==>
      || r == RowOf(Item(n, parent))
      || (exists c :: c in n.children && r in NodeRows(Item(c, Parent(n.id))))
      || (r.parent == Parent(n.id) && Kept(r.id, r.name, r.mode, r.hash) in n.keep)
  {
    hide NodeRows;
    NodeRowsAre(Item(n, parent));
    InChildRows(n.children, n.id, r);
    InKeptRows(n.keep, n.id, r);
  }

  // ---- ids ----

  ghost predicate OnceEach(s: seq<NodeId>) {
    forall i, j :: 0 <= i < j < |s| ==> s[i] != s[j]
  }

  lemma NumberedOnce(s: seq<NodeId>, lo: int, hi: int)
    requires Numbered(s, lo, hi)
    ensures OnceEach(s)
  {
    forall i, j | 0 <= i < j < |s| ensures s[i] != s[j] {
      if s[i] == s[j] {
        TwoOccurrences(s, i, j);
      }
    }
  }

  lemma OnceParts(a: seq<NodeId>, b: seq<NodeId>)
    requires OnceEach(a + b)
    ensures OnceEach(a) && OnceEach(b) && forall x :: x in a ==> x !in b
  {
    var s := a + b;
    forall i, j | 0 <= i < j < |a| ensures a[i] != a[j] {
      assert s[i] == a[i] && s[j] == a[j];
    }
    forall i, j | 0 <= i < j < |b| ensures b[i] != b[j] {
      assert s[|a| + i] == b[i] && s[|a| + j] == b[j];
    }
    forall x | x in a ensures x !in b {
      var i :| 0 <= i < |a| && a[i] == x;
      forall j | 0 <= j < |b| ensures b[j] != x {
        assert s[i] == x && s[|a| + j] == b[j];
      }
    }
  }

  lemma {:induction false} InChildIds(children: seq<Node>, x: NodeId)
    ensures x in ChildIds(children) <==> exists c :: c in children && x in AllIds(c)
  {
    if children != [] {
      var first, rest := children[0], children[1..];
      assert children == [first] + rest;
      InChildIds(rest, x);
      assert x in ChildIds(children) <==> x in AllIds(first) || x in ChildIds(rest);
      if c :| c in rest && x in AllIds(c) {
        assert c in children;
      }
    }
  }

  lemma {:induction false} InKeptIds(keep: seq<Kept>, k: Kept)
    requires k in keep
    ensures k.id in KeptIds(keep)
  {
    if k != keep[0] {
      InKeptIds(keep[1..], k);
    }
  }

  /** An id belongs to one child. */
  lemma {:induction false} OneChild(children: seq<Node>, c: Node, e: Node, x: NodeId)
    requires OnceEach(ChildIds(children)) && c in children && e in children && x in AllIds(c) && x in AllIds(e)
    ensures c == e && OnceEach(AllIds(c))
  {
    hide AllIds;
    var first, rest := children[0], children[1..];
    OnceParts(AllIds(first), ChildIds(rest));
    InChildIds(rest, x);
    if c in rest && e in rest {
      OneChild(rest, c, e, x);
    }
  }

  lemma NodeIds(n: Node)
    requires OnceEach(AllIds(n))
    ensures n.id in AllIds(n) && n.id !in ChildIds(n.children) && n.id !in KeptIds(n.keep)
    ensures OnceEach(ChildIds(n.children)) && forall x :: x in ChildIds(n.children) ==> x !in KeptIds(n.keep)
  {
    OnceParts([n.id] + ChildIds(n.children), KeptIds(n.keep));
    OnceParts([n.id], ChildIds(n.children));
    assert n.id in [n.id];
  }

  lemma SelfId(n: Node)
    ensures n.id in AllIds(n)
  {
  }

  lemma ChildIdIn(n: Node, c: Node, x: NodeId)
    requires c in n.children && x in AllIds(c)
    ensures x in AllIds(n) && x in ChildIds(n.children)
  {
    InChildIds(n.children, x);
  }

  lemma KeptIdIn(n: Node, k: Kept)
    requires k in n.keep
    ensures k.id in AllIds(n) && k.id in KeptIds(n.keep)
  {
    InKeptIds(n.keep, k);
  }

  /** Files belong to built directories of the tree. */
  lemma {:induction false} FileTrees(n: Node, r: FileRow)
    requires r in FileRows(n)
    ensures r.tree == n.id || r.tree in ChildIds(n.children)
    decreases n
  {
    hide FileRows, AllIds;
    InFileRows(n, r);
    if c :| c in n.children && r in FileRows(c) {
      FileTrees(c, r);
      TreeIdIn(c, r.tree);
      ChildIdIn(n, c, r.tree);
    }
  }

  lemma TreeIdIn(n: Node, x: NodeId)
    requires x == n.id || x in ChildIds(n.children)
    ensures x in AllIds(n)
  {
  }

  /** Every row but the first belongs to a built directory of the tree. */
  lemma {:induction false} RowParents(n: Node, parent: MaybeId, r: NodeRow)
    requires r in NodeRows(Item(n, parent))
    ensures r != RowOf(Item(n, parent)) ==>
      r.parent.Parent? && (r.parent.id == n.id || r.parent.id in ChildIds(n.children))
    decreases n
  {
    hide NodeRows, AllIds;
    InNodeRows(n, parent, r);
    if c :| c in n.children && r in NodeRows(Item(c, Parent(n.id))) {
      RowParents(c, Parent(n.id), r);
      if r != RowOf(Item(c, Parent(n.id))) {
        TreeIdIn(c, r.parent.id);
        ChildIdIn(n, c, r.parent.id);
      }
    }
  }

  // ---- the rows below one node ----

  /** Below n the tables hold the rows of n and nothing else. */
  ghost predicate Agrees(nodes: seq<NodeRow>, files: seq<FileRow>, n: Node, parent: MaybeId) {
    && (forall r: FileRow :: r.tree in AllIds(n) ==> (r in files <==> r in FileRows(n)))
    && (forall r: NodeRow :: r.parent.Parent? && r.parent.id in AllIds(n) ==>
          (r in nodes <==> r in NodeRows(Item(n, parent)) && r != RowOf(Item(n, parent))))
  }

  /** A file row of a child is a file row of no other node. */
  lemma ChildFiles(n: Node, c: Node, r: FileRow)
    requires OnceEach(AllIds(n)) && c in n.children && r.tree in AllIds(c)
    ensures r in FileRows(n) <==> r in FileRows(c)
  {
    hide FileRows, AllIds;
    NodeIds(n);
    ChildIdIn(n, c, r.tree);
    InFileRows(n, r);
    if e :| e in n.children && r in FileRows(e) {
      FileTrees(e, r);
      TreeIdIn(e, r.tree);
      OneChild(n.children, c, e, r.tree);
    }
  }

  lemma ChildNodes(n: Node, parent: MaybeId, c: Node, r: NodeRow)
    requires OnceEach(AllIds(n)) && c in n.children && r.parent.Parent? && r.parent.id in AllIds(c)
    ensures r in NodeRows(Item(n, parent)) && r != RowOf(Item(n, parent)) <==>
            r in NodeRows(Item(c, Parent(n.id))) && r != RowOf(Item(c, Parent(n.id)))
  {
    hide NodeRows, AllIds;
    NodeIds(n);
    ChildIdIn(n, c, r.parent.id);
    InNodeRows(n, parent, r);
    if e :| e in n.children && r in NodeRows(Item(e, Parent(n.id))) {
      RowParents(e, Parent(n.id), r);
      if r != RowOf(Item(e, Parent(n.id))) {
        TreeIdIn(e, r.parent.id);
        OneChild(n.children, c, e, r.parent.id);
      }
    }
    RowParentOf(n, parent, r);
    if r in NodeRows(Item(c, Parent(n.id))) {
      RowIdIn(c, Parent(n.id), r);
      ChildIdIn(n, c, r.id);
    }
    RowParentOf(c, Parent(n.id), r);
  }

  lemma RowIdIn(n: Node, parent: MaybeId, r: NodeRow)
    requires r in NodeRows(Item(n, parent))
    ensures r.id in AllIds(n)
  {
    hide NodeRows, AllIds;
    NodeRowIds(n, parent);
    var rows := NodeRows(Item(n, parent));
    var k :| 0 <= k < |rows| && rows[k] == r;
    assert Ids(rows)[k] == r.id;
  }

  /** The row of a node carries its parent's id, which is not one of its own. */
  lemma RowParentOf(n: Node, parent: MaybeId, r: NodeRow)
    ensures r == RowOf(Item(n, parent)) ==> r.parent == parent && r.id == n.id
  {
  }

  lemma AgreesBelow(nodes: seq<NodeRow>, files: seq<FileRow>, n: Node, parent: MaybeId, c: Node)
    requires Agrees(nodes, files, n, parent) && OnceEach(AllIds(n)) && c in n.children
    ensures Agrees(nodes, files, c, Parent(n.id)) && OnceEach(AllIds(c))
  {
    hide FileRows, NodeRows, AllIds, OnceEach, ChildIds, KeptIds;
    NodeIds(n);
    SelfId(c);
    OneChild(n.children, c, c, c.id);
    forall r: FileRow | r.tree in AllIds(c) ensures r in files <==> r in FileRows(c) {
      ChildIdIn(n, c, r.tree);
      ChildFiles(n, c, r);
    }
    forall r: NodeRow | r.parent.Parent? && r.parent.id in AllIds(c)
      ensures r in nodes <==> r in NodeRows(Item(c, Parent(n.id))) && r != RowOf(Item(c, Parent(n.id)))
    {
      ChildIdIn(n, c, r.parent.id);
      ChildNodes(n, parent, c, r);
    }
  }

  /** The rows right below a node: its built and its kept directories. */
  lemma RowsRightBelow(nodes: seq<NodeRow>, files: seq<FileRow>, n: Node, parent: MaybeId, r: NodeRow)
    requires Agrees(nodes, files, n, parent) && OnceEach(AllIds(n)) && r.parent == Parent(n.id)
    requires parent != Parent(n.id)
    ensures r in nodes <==>
      || (exists c :: c in n.children && r == RowOf(Item(c, Parent(n.id))))
      || Kept(r.id, r.name, r.mode, r.hash) in n.keep
  {
    hide NodeRows, AllIds, FileRows;
    SelfId(n);
    NodeIds(n);
    InNodeRows(n, parent, r);
    RowParentOf(n, parent, r);
    if c :| c in n.children && r in NodeRows(Item(c, Parent(n.id))) {
      RowParents(c, Parent(n.id), r);
      if r != RowOf(Item(c, Parent(n.id))) {
        TreeIdIn(c, r.parent.id);
        ChildIdIn(n, c, r.parent.id);
      }
    }
    forall c | c in n.children ensures RowOf(Item(c, Parent(n.id))) in NodeRows(Item(c, Parent(n.id))) {
      InNodeRows(c, Parent(n.id), RowOf(Item(c, Parent(n.id))));
    }
  }

  lemma FilesRightBelow(nodes: seq<NodeRow>, files: seq<FileRow>, n: Node, parent: MaybeId, f: File)
    requires Agrees(nodes, files, n, parent) && OnceEach(AllIds(n))
    ensures (exists r :: r in files && r.tree == n.id && r.file == f) <==> f in n.files
  {
    hide FileRows, NodeRows, AllIds;
    SelfId(n);
    NodeIds(n);
    var r := FileRow(f, n.id);
    InFileRows(n, r);
    if c :| c in n.children && r in FileRows(c) {
      FileTrees(c, r);
      TreeIdIn(c, r.tree);
      ChildIdIn(n, c, r.tree);
    }
    assert r.tree == n.id && r.file == f;
  }

  /** Nothing is stored below a kept directory. */
  lemma KeptIsLeaf(nodes: seq<NodeRow>, files: seq<FileRow>, n: Node, parent: MaybeId, k: Kept)
    requires Agrees(nodes, files, n, parent) && OnceEach(AllIds(n)) && k in n.keep
    ensures forall r :: r in files ==> r.tree != k.id
    ensures forall r :: r in nodes ==> r.parent != Parent(k.id)
  {
    hide FileRows, NodeRows, AllIds;
    NodeIds(n);
    KeptIdIn(n, k);
    forall r | r in files ensures r.tree != k.id {
      if r.tree == k.id {
        FileTrees(n, r);
      }
    }
    forall r | r in nodes ensures r.parent != Parent(k.id) {
      if r.parent == Parent(k.id) {
        RowParents(n, parent, r);
      }
    }
  }

  lemma KeptHoldsNothing(nodes: seq<NodeRow>, files: seq<FileRow>, n: Node, parent: MaybeId, k: Kept)
    requires Agrees(nodes, files, n, parent) && OnceEach(AllIds(n)) && k in n.keep
    ensures forall q, f :: !FileAt(nodes, files, k.id, q, f)
    ensures forall q, row :: !DirAt(nodes, k.id, q, row)
  {
    hide Agrees, AllIds, OnceEach;
    KeptIsLeaf(nodes, files, n, parent, k);
  }

  lemma NotItsOwnChild(n: Node, c: Node)
    requires OnceEach(AllIds(n)) && c in n.children
    ensures n.id != c.id
  {
    hide AllIds;
    NodeIds(n);
    SelfId(c);
    ChildIdIn(n, c, c.id);
  }

  // ---- reading back ----

  lemma {:induction false} FilesReadBack(nodes: seq<NodeRow>, files: seq<FileRow>, n: Node, parent: MaybeId, q: string,
                                         f: File)
    requires Agrees(nodes, files, n, parent) && OnceEach(AllIds(n)) && parent != Parent(n.id)
    ensures FileAt(nodes, files, n.id, q, f) <==> NodeFile(n, q, f)
    decreases n
  {
    hide Agrees, OnceEach, AllIds, Inside;
    FilesRightBelow(nodes, files, n, parent, f);
    forall c | c in n.children && Inside(c.name, q)
      ensures FileAt(nodes, files, c.id, Below(c.name, q), f) <==> NodeFile(c, Below(c.name, q), f)
      ensures RowOf(Item(c, Parent(n.id))) in nodes
    {
      AgreesBelow(nodes, files, n, parent, c);
      NotItsOwnChild(n, c);
      FilesReadBack(nodes, files, c, Parent(n.id), Below(c.name, q), f);
      RowsRightBelow(nodes, files, n, parent, RowOf(Item(c, Parent(n.id))));
    }
    forall r | r in nodes && r.parent == Parent(n.id) && Inside(r.name, q) &&
               FileAt(nodes, files, r.id, Below(r.name, q), f)
      ensures exists c :: c in n.children && r == RowOf(Item(c, Parent(n.id)))
    {
      RowsRightBelow(nodes, files, n, parent, r);
      var k := Kept(r.id, r.name, r.mode, r.hash);
      if k in n.keep {
        KeptHoldsNothing(nodes, files, n, parent, k);
      }
    }
  }

  lemma {:induction false} DirsReadBack(nodes: seq<NodeRow>, files: seq<FileRow>, n: Node, parent: MaybeId, q: string,
                                        row: NodeRow)
    requires Agrees(nodes, files, n, parent) && OnceEach(AllIds(n)) && parent != Parent(n.id)
    requires DirAt(nodes, n.id, q, row)
    ensures NodeDir(n, q, row.id, row.hash, row.mode)
    decreases n
  {
    hide Agrees, OnceEach, AllIds, Inside;
    if row in nodes && row.parent == Parent(n.id) && row.name == q {
      RowsRightBelow(nodes, files, n, parent, row);
    } else {
      var r :| r in nodes && r.parent == Parent(n.id) && Inside(r.name, q) && DirAt(nodes, r.id, Below(r.name, q), row);
      RowsRightBelow(nodes, files, n, parent, r);
      var k := Kept(r.id, r.name, r.mode, r.hash);
      if k in n.keep {
        KeptHoldsNothing(nodes, files, n, parent, k);
      } else {
        var c :| c in n.children && r == RowOf(Item(c, Parent(n.id)));
        AgreesBelow(nodes, files, n, parent, c);
        NotItsOwnChild(n, c);
        DirsReadBack(nodes, files, c, Parent(n.id), Below(c.name, q), row);
      }
    }
  }

  lemma {:induction false} DirsFound(nodes: seq<NodeRow>, files: seq<FileRow>, n: Node, parent: MaybeId, q: string,
                                     id: NodeId, hash: Hash, mode: int) returns (row: NodeRow)
    requires Agrees(nodes, files, n, parent) && OnceEach(AllIds(n)) && parent != Parent(n.id)
    requires NodeDir(n, q, id, hash, mode)
    ensures DirAt(nodes, n.id, q, row) && row.id == id && row.hash == hash && row.mode == mode
    decreases n
  {
    hide Agrees, OnceEach, AllIds, Inside;
    if c :| c in n.children && c.name == q && c.id == id && c.hash == hash && c.mode == mode {
      row := RowOf(Item(c, Parent(n.id)));
      RowsRightBelow(nodes, files, n, parent, row);
    } else if Kept(id, q, mode, hash) in n.keep {
      row := NodeRow(id, hash, q, mode, Parent(n.id));
      RowsRightBelow(nodes, files, n, parent, row);
    } else {
      var c :| c in n.children && Inside(c.name, q) && NodeDir(c, Below(c.name, q), id, hash, mode);
      AgreesBelow(nodes, files, n, parent, c);
      NotItsOwnChild(n, c);
      row := DirsFound(nodes, files, c, Parent(n.id), Below(c.name, q), id, hash, mode);
      var r := RowOf(Item(c, Parent(n.id)));
      RowsRightBelow(nodes, files, n, parent, r);
      assert r.name == c.name && r.id == c.id;
    }
  }

  lemma RowsAgree(root: Node, nodes: seq<NodeRow>, files: seq<FileRow>)
    requires multiset(nodes) == multiset(NodeRows(Item(root, NoParent))) && multiset(files) == multiset(FileRows(root))
    ensures Agrees(nodes, files, root, NoParent)
    ensures forall r :: r in nodes <==> r in NodeRows(Item(root, NoParent))
  {
    hide NodeRows, FileRows, AllIds;
    assert forall r :: r in nodes <==> r in multiset(nodes);
    assert forall r :: r in NodeRows(Item(root, NoParent)) <==> r in multiset(NodeRows(Item(root, NoParent)));
    assert forall r :: r in files <==> r in multiset(files);
    assert forall r :: r in FileRows(root) <==> r in multiset(FileRows(root));
  }

  /** With numbered nodes the rows of a tree read back as the tree. */
  lemma RowsReadBack(root: Node, nodes: seq<NodeRow>, files: seq<FileRow>, count: int)
    requires Numbered(AllIds(root), 0, count)
    requires multiset(nodes) == multiset(NodeRows(Item(root, NoParent))) && multiset(files) == multiset(FileRows(root))
    ensures ReadsBack(root, nodes, files)
  {
    hide NodeRows, FileRows, AllIds, Agrees, OnceEach, FileAt, DirAt, NodeFile, NodeDir, Numbered;
    RowsAgree(root, nodes, files);
    NumberedOnce(AllIds(root), 0, count);
    forall q, f ensures FileAt(nodes, files, root.id, q, f) <==> NodeFile(root, q, f) {
      FilesReadBack(nodes, files, root, NoParent, q, f);
    }
    forall q, row | DirAt(nodes, root.id, q, row) ensures NodeDir(root, q, row.id, row.hash, row.mode) {
      DirsReadBack(nodes, files, root, NoParent, q, row);
    }
    forall q, id, hash, mode | NodeDir(root, q, id, hash, mode)
      ensures exists row :: DirAt(nodes, root.id, q, row) && row.id == id && row.hash == hash && row.mode == mode
    {
      var row := DirsFound(nodes, files, root, NoParent, q, id, hash, mode);
    }
    InNodeRows(root, NoParent, RowOf(Item(root, NoParent)));
    forall r | r in nodes && r.parent.NoParent? ensures r == RowOf(Item(root, NoParent)) {
      RowParents(root, NoParent, r);
    }
  }
}
