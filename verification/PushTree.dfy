/** Building the tree of a push: only the touched directories are rebuilt, the
    others are kept by hash. */
module PushTree {
  import opened Prefix
  import opened TreeHash
  import opened Trees
  import opened PushPaths
  import Order

  // ---- the request ----

  datatype PushFile = PushFile(path: string, mode: int, size: int, isBinary: bool, encoding: string, fileHash: Hash,
                               chunks: seq<Hash>)

  datatype Request = Request(files: seq<PushFile>, removed: seq<string>)

  function FileOf(pf: PushFile): File {
    File(BaseOf(pf.path), pf.mode, pf.size, pf.isBinary, pf.encoding, pf.fileHash, pf.chunks)
  }

  predicate GoodSegment(s: string) {
    s != "" && s != "." && s != ".."
  }

  predicate GoodSegments(q: string)
    decreases |q|
  {
    if '/' !in q then GoodSegment(q) else GoodSegment(Head(q)) && GoodSegments(Below(Head(q), q))
  }

  /** The path without one slash in front. */
  function Unslashed(p: string): string {
    if Leading(p) then p[1..] else p
  }

  /** The paths a push accepts. */
  predicate ValidRepoPath(p: string) {
    var q := Unslashed(p);
    q != "" && !Leading(q) && '\\' !in q && GoodSegments(q)
  }

  // ---- what validation accepts ----

  /** q[i..j] is what stands between two slashes, or between a slash and an end. */
  predicate IsSegment(q: string, i: nat, j: nat) {
    && i <= j <= |q| && (i == 0 || q[i - 1] == '/') && (j == |q| || q[j] == '/')
    && (forall k :: i <= k < j ==> q[k] != '/')
  }

  ghost predicate NoBadSegment(q: string) {
    forall i: nat, j: nat :: IsSegment(q, i, j) ==> GoodPiece(q, i, j)
  }

  predicate GoodPiece(q: string, i: nat, j: nat) {
    i <= j <= |q| && q[i..j] != "" && q[i..j] != "." && q[i..j] != ".."
  }

  lemma OneSegment(q: string, i: nat, j: nat)
    requires '/' !in q
    ensures IsSegment(q, i, j) <==> i == 0 && j == |q|
  {
  }

  /** q is n, a slash and r, and n has no slash. */
  ghost predicate Parted(q: string, n: string, r: string) {
    && |q| == |n| + 1 + |r| && q[|n|] == '/' && q[..|n|] == n && q[|n| + 1..] == r
    && (forall k :: 0 <= k < |n| ==> q[k] != '/')
  }

  lemma HeadParts(q: string)
    requires '/' in q
    ensures Parted(q, Head(q), Below(Head(q), q))
  {
    var n := Head(q);
    SlashAfter(n, q);
    forall k | 0 <= k < |n| ensures q[k] != '/' {
      assert q[k] == n[k];
    }
  }

  lemma RestAt(q: string, n: string, r: string, k: nat)
    requires Parted(q, n, r) && k < |r|
    ensures r[k] == q[k + |n| + 1]
  {
  }

  /** A segment is the first one or lies in the rest. */
  lemma SegmentFrom(q: string, n: string, r: string, i: nat, j: nat)
    requires Parted(q, n, r) && IsSegment(q, i, j)
    ensures i <= j <= |q|
    ensures (i == 0 && j == |n|) || (|n| < i && IsSegment(r, i - |n| - 1, j - |n| - 1))
  {
    if i > 0 {
      var x, y := i - |n| - 1, j - |n| - 1;
      if x > 0 {
        RestAt(q, n, r, x - 1);
      }
      if y < |r| {
        RestAt(q, n, r, y);
      }
      forall k | x <= k < y ensures r[k] != '/' {
        RestAt(q, n, r, k);
      }
    }
  }

  lemma SegmentInto(q: string, n: string, r: string, i: nat, j: nat)
    requires Parted(q, n, r) && IsSegment(r, i, j)
    ensures i <= j <= |r| && |q| == |n| + 1 + |r|
    ensures IsSegment(q, i + |n| + 1, j + |n| + 1) && q[i + |n| + 1..j + |n| + 1] == r[i..j]
  {
    if i > 0 {
      RestAt(q, n, r, i - 1);
    }
    if j < |r| {
      RestAt(q, n, r, j);
    }
    forall k | i + |n| + 1 <= k < j + |n| + 1 ensures q[k] != '/' {
      RestAt(q, n, r, k - |n| - 1);
    }
  }

  lemma BadBelow(q: string, n: string, r: string)
    requires Parted(q, n, r)
    ensures NoBadSegment(q) <==> GoodSegment(n) && NoBadSegment(r)
  {
    hide Parted, IsSegment;
    FirstIs(q, n, r);
    if NoBadSegment(q) {
      forall i: nat, j: nat | IsSegment(r, i, j) ensures GoodPiece(r, i, j) {
        SegmentInto(q, n, r, i, j);
      }
    }
    if GoodSegment(n) && NoBadSegment(r) {
      forall i: nat, j: nat | IsSegment(q, i, j) ensures GoodPiece(q, i, j) {
        SegmentFrom(q, n, r, i, j);
        if i > 0 {
          SegmentInto(q, n, r, i - |n| - 1, j - |n| - 1);
        }
      }
    }
  }

  lemma FirstIs(q: string, n: string, r: string)
    requires Parted(q, n, r)
    ensures |n| <= |q| && IsSegment(q, 0, |n|) && q[0..|n|] == n
  {
  }

  lemma {:induction false} SegmentsIff(q: string)
    ensures GoodSegments(q) <==> NoBadSegment(q)
    decreases |q|
  {
    hide IsSegment;
    if '/' !in q {
      forall i: nat, j: nat ensures IsSegment(q, i, j) <==> i == 0 && j == |q| {
        OneSegment(q, i, j);
      }
      assert q[0..|q|] == q && IsSegment(q, 0, |q|);
    } else {
      hide NoBadSegment;
      HeadParts(q);
      SegmentsIff(Below(Head(q), q));
      BadBelow(q, Head(q), Below(Head(q), q));
    }
  }

  /** A path is accepted exactly when, without one slash in front, it has no backslash
      and none of its segments is empty or a dot or two. */
  lemma ValidIff(p: string)
    ensures var q := if p != "" && p[0] == '/' then p[1..] else p;
            ValidRepoPath(p) <==> '\\' !in q && NoBadSegment(q)
  {
    var q := Unslashed(p);
    SegmentsIff(q);
    if NoBadSegment(q) {
      SegmentsIff(q);
      SegmentsGoodRel(q);
      GoodRelStart(q);
    }
  }

  lemma {:induction false} SegmentsGoodRel(q: string)
    requires GoodSegments(q)
    ensures GoodRel(q)
    decreases |q|
  {
    if '/' in q {
      SegmentsGoodRel(Below(Head(q), q));
    }
  }

  lemma {:induction false} GoodRelBase(q: string)
    requires GoodRel(q)
    ensures BaseOf(q) != ""
    decreases |q|
  {
    hide LastSlash;
    if '/' in q {
      var n := Head(q);
      var r := Below(n, q);
      BelowJoins(n, q);
      GoodRelBase(r);
      BaseBelow(n, r);
    } else {
      Splits(q);
    }
  }

  lemma LastSlashSuffix(u: string, r: string)
    requires u != "" && u[|u| - 1] == '/'
    ensures LastSlash(u + r) == if '/' in r then |u| + LastSlash(r) else |u| - 1
  {
    NoSlash(r);
    var p := u + r;
    var i := if '/' in r then |u| + LastSlash(r) else |u| - 1;
    forall k | i < k < |p| ensures p[k] != '/' {
      assert p[k] == r[k - |u|];
    }
    LastSlashAt(p, i);
  }

  lemma BaseBelow(n: string, r: string)
    requires n != ""
    ensures BaseOf(n + "/" + r) == BaseOf(r)
  {
    hide LastSlash;
    NoSlash(r);
    var u := n + "/";
    LastSlashSuffix(u, r);
    if '/' in r {
      var i := LastSlash(r);
      assert (u + r)[|u| + i + 1..] == r[i + 1..];
    } else {
      assert (u + r)[|u|..] == r;
    }
  }

  /** Validated paths have no empty segment. */
  lemma ValidIsGood(p: string)
    requires ValidRepoPath(p)
    ensures GoodRel(Unslashed(p))
  {
    SegmentsGoodRel(Unslashed(p));
  }

  lemma HasBase(p: string)
    requires GoodRel(Unslashed(p))
    ensures BaseOf(p) != "" && '/' !in BaseOf(p)
  {
    hide LastSlash;
    GoodRelBase(Unslashed(p));
    Splits(p);
    if Leading(p) {
      UnslashedBase(p);
    }
  }

  lemma UnslashedBase(p: string)
    requires Leading(p)
    ensures BaseOf(p) == BaseOf(p[1..])
    ensures DirOf(p) == if '/' in p[1..] then "/" + DirOf(p[1..]) else ""
  {
    hide LastSlash;
    var r := p[1..];
    NoSlash(r);
    assert p == "/" + r;
    LastSlashSuffix("/", r);
    if '/' in r {
      var i := LastSlash(r);
      assert p[..1 + i] == "/" + r[..i] && p[1 + i + 1..] == r[i + 1..];
    }
  }

  // ---- what a push means ----

  datatype MaybePush = NotPushed | Pushed(file: PushFile)

  /** The last file of the list filed under this directory and name. */
  function LastAt(files: seq<PushFile>, dir: string, name: string): MaybePush {
    if files == [] then NotPushed
    else
      var last := files[|files| - 1];
      if DirOf(last.path) == dir && BaseOf(last.path) == name then Pushed(last)
      else LastAt(files[..|files| - 1], dir, name)
  }

  lemma {:induction false} LastAtIs(files: seq<PushFile>, dir: string, name: string)
    ensures var m := LastAt(files, dir, name); m.Pushed? ==>
      m.file in files && DirOf(m.file.path) == dir && BaseOf(m.file.path) == name
    ensures LastAt(files, dir, name).NotPushed? ==> forall pf :: pf in files ==>
      !(DirOf(pf.path) == dir && BaseOf(pf.path) == name)
  {
    hide LastSlash, DirOf, BaseOf;
    if files != [] {
      var init := files[..|files| - 1];
      LastAtIs(init, dir, name);
      assert files == init + [files[|files| - 1]];
    }
  }

  ghost predicate RemovedAt(removed: seq<string>, dir: string, name: string) {
    exists r :: r in removed && DirOf(r) == dir && BaseOf(r) == name
  }

  /** The overlay: the pushed file where there is one, the old file where it is
      neither pushed nor removed. q is relative to dir. */
  ghost predicate Overlaid(rq: Request, base: MaybeTree, dir: string, q: string, f: File) {
    GoodRel(q)
    && var p := Join(dir, q);
       match LastAt(rq.files, DirOf(p), BaseOf(p))
       case Pushed(pf) => f == FileOf(pf)
       case NotPushed => !RemovedAt(rq.removed, DirOf(p), BaseOf(p)) && HoldsIn(base, q, f)
  }

  ghost predicate TouchedBy(rq: Request, p: string) {
    (exists pf :: pf in rq.files && pf.path == p) || p in rq.removed
  }

  // ---- nodes ----

  datatype NodeId = NodeId(value: int)

  /** The mode of every directory, 0444. */
  const DIR_MODE := 292

  /** A directory taken over unchanged: its name and its hash. */
  datatype Kept = Kept(id: NodeId, name: string, mode: int, hash: Hash)

  datatype Node = Node(id: NodeId, name: string, mode: int, hash: Hash, files: seq<File>, children: seq<Node>,
                       keep: seq<Kept>)

  ghost function KeptTree(base: MaybeTree, name: string): Tree {
    var c := SubDir(base, name);
    if c.Present? then c.tree else Tree(ZERO, [], [])
  }

  ghost function KeptSubs(keep: seq<Kept>, base: MaybeTree): (subs: seq<Sub>)
    ensures |subs| == |keep| && forall i :: 0 <= i < |keep| ==>
      subs[i] == Sub(keep[i].name, KeptTree(base, keep[i].name))
  {
    if keep == [] then [] else [Sub(keep[0].name, KeptTree(base, keep[0].name))] + KeptSubs(keep[1..], base)
  }

  ghost function ChildSubs(children: seq<Node>, base: MaybeTree): (subs: seq<Sub>)
    ensures |subs| == |children|
    ensures forall i :: 0 <= i < |children| ==>
      subs[i] == Sub(children[i].name, Expand(children[i], SubDir(base, children[i].name)))
  {
    if children == [] then []
    else [Sub(children[0].name, Expand(children[0], SubDir(base, children[0].name)))] + ChildSubs(children[1..], base)
  }

  /** The tree a node stands for once its kept directories are filled in from
      the tree it was built on. */
  ghost function Expand(n: Node, base: MaybeTree): Tree {
    Tree(n.hash, n.files, KeptSubs(n.keep, base) + ChildSubs(n.children, base))
  }

  /** Kept directories carry the hash stored in the base. */
  ghost predicate KeptFrom(n: Node, base: MaybeTree) {
    && (forall k :: k in n.keep ==> SubDir(base, k.name).Present? && SubDir(base, k.name).tree.hash == k.hash)
    && (forall c :: c in n.children ==> KeptFrom(c, SubDir(base, c.name)))
  }

  // ---- ids ----

  function KeptIds(keep: seq<Kept>): seq<NodeId> {
    if keep == [] then [] else [keep[0].id] + KeptIds(keep[1..])
  }

  function ChildIds(children: seq<Node>): seq<NodeId> {
    if children == [] then [] else AllIds(children[0]) + ChildIds(children[1..])
  }

  function AllIds(n: Node): seq<NodeId> {
    [n.id] + ChildIds(n.children) + KeptIds(n.keep)
  }

  /** The ids above lo up to hi, each once. */
  ghost predicate Numbered(s: seq<NodeId>, lo: int, hi: int) {
    lo <= hi && forall x :: multiset(s)[x] == if lo < x.value <= hi then 1 else 0
  }

  lemma NumberedConcat(a: seq<NodeId>, b: seq<NodeId>, lo: int, mid: int, hi: int)
    requires Numbered(a, lo, mid) && Numbered(b, mid, hi)
    ensures Numbered(a + b, lo, hi)
  {
    assert multiset(a + b) == multiset(a) + multiset(b);
  }

  lemma NumberedOne(lo: int)
    ensures Numbered([NodeId(lo + 1)], lo, lo + 1)
  {
  }

  lemma {:induction false} ChildIdsAppend(children: seq<Node>, n: Node)
    ensures ChildIds(children + [n]) == ChildIds(children) + AllIds(n)
  {
    hide AllIds;
    if children == [] {
      assert children + [n] == [n];
      assert ChildIds([n]) == AllIds(n) + ChildIds([]);
    } else {
      assert (children + [n])[1..] == children[1..] + [n];
      ChildIdsAppend(children[1..], n);
    }
  }

  lemma {:induction false} KeptIdsAppend(keep: seq<Kept>, k: Kept)
    ensures KeptIds(keep + [k]) == KeptIds(keep) + [k.id]
  {
    if keep == [] {
      assert keep + [k] == [k];
    } else {
      assert (keep + [k])[1..] == keep[1..] + [k];
      KeptIdsAppend(keep[1..], k);
    }
  }

  // ---- one directory: the files ----

  /** The files of a rebuilt directory. */
  ghost predicate FilesOverlaid(rq: Request, base: MaybeTree, dir: string, files: seq<File>) {
    && UniqueFiles(files)
    && (forall f :: f in files <==>
          match LastAt(rq.files, dir, f.name)
          case Pushed(pf) => f == FileOf(pf)
          case NotPushed => !RemovedAt(rq.removed, dir, f.name) && base.Present? && f in base.tree.files)
  }

  /** The pushed files of one directory, in order. */
  function InDir(files: seq<PushFile>, dir: string): seq<PushFile> {
    if files == [] then []
    else
      var last := files[|files| - 1];
      if DirOf(last.path) == dir then InDir(files[..|files| - 1], dir) + [last] else InDir(files[..|files| - 1], dir)
  }

  lemma {:induction false} InDirOnly(files: seq<PushFile>, dir: string)
    ensures forall pf :: pf in InDir(files, dir) ==> pf in files && DirOf(pf.path) == dir
  {
    hide LastSlash, DirOf;
    if files != [] {
      InDirOnly(files[..|files| - 1], dir);
      assert files == files[..|files| - 1] + [files[|files| - 1]];
    }
  }

  /** Looking only at the directory's own list finds the same file. */
  lemma {:induction false} LastAtInDir(files: seq<PushFile>, dir: string, name: string)
    ensures LastAt(InDir(files, dir), dir, name) == LastAt(files, dir, name)
  {
    hide LastSlash, DirOf, BaseOf;
    if files != [] {
      var init := files[..|files| - 1];
      var last := files[|files| - 1];
      LastAtInDir(init, dir, name);
      if DirOf(last.path) == dir {
        assert (InDir(init, dir) + [last])[..|InDir(init, dir)|] == InDir(init, dir);
      }
    }
  }

  /** The files filed so far, by name. */
  ghost predicate PushedByName(list: seq<PushFile>, dir: string, m: map<string, File>) {
    forall n :: match LastAt(list, dir, n)
      case Pushed(pf) => n in m && m[n] == FileOf(pf)
      case NotPushed => n !in m
  }

  method FilePushed(list: seq<PushFile>, dir: string) returns (m: map<string, File>)
    requires forall pf :: pf in list ==> DirOf(pf.path) == dir
    ensures PushedByName(list, dir, m)
  {
    hide LastSlash, DirOf, BaseOf;
    m := map[];
    var i := 0;
    while i < |list|
      invariant 0 <= i <= |list| && PushedByName(list[..i], dir, m)
    {
      var pf := list[i];
      assert list[..i + 1][..i] == list[..i] && list[..i + 1][i] == pf;
      m := m[BaseOf(pf.path) := FileOf(pf)];
      i := i + 1;
    }
    assert list[..i] == list;
  }

  /** The entry for a name: pushed, or an old file of the first i that stays. */
  ghost predicate Merged(list: seq<PushFile>, dir: string, gone: set<string>, old_: seq<File>, m: map<string, File>) {
    && (forall n :: n in m ==> m[n].name == n)
    && (forall n :: LastAt(list, dir, n).Pushed? ==> n in m && m[n] == FileOf(LastAt(list, dir, n).file))
    && (forall n :: LastAt(list, dir, n).NotPushed? && n in m ==> n !in gone && m[n] in old_)
    && (forall f :: f in old_ && f.name !in gone && LastAt(list, dir, f.name).NotPushed? ==>
          f.name in m && m[f.name] == f)
  }

  method FileOld(list: seq<PushFile>, dir: string, gone: set<string>, old_: seq<File>, m0: map<string, File>)
    returns (m: map<string, File>)
    requires UniqueFiles(old_) && PushedByName(list, dir, m0)
    ensures Merged(list, dir, gone, old_, m)
  {
    hide LastAt;
    m := m0;
    forall n | n in m ensures m[n].name == n {
      LastAtIs(list, dir, n);
    }
    var i := 0;
    while i < |old_|
      invariant 0 <= i <= |old_| && Merged(list, dir, gone, old_[..i], m)
    {
      var f := old_[i];
      OldStep(list, dir, gone, old_, i, m);
      if f.name !in gone && f.name !in m {
        m := m[f.name := f];
      }
      i := i + 1;
    }
    assert old_[..i] == old_;
  }

  lemma OldStep(list: seq<PushFile>, dir: string, gone: set<string>, old_: seq<File>, i: nat, m: map<string, File>)
    requires i < |old_| && UniqueFiles(old_) && Merged(list, dir, gone, old_[..i], m)
    ensures var f := old_[i];
      Merged(list, dir, gone, old_[..i + 1], if f.name !in gone && f.name !in m then m[f.name := f] else m)
  {
    hide LastAt, FileOf;
    var f := old_[i];
    assert old_[..i + 1] == old_[..i] + [f];
    forall g | g in old_[..i] ensures g.name != f.name {
      var j :| 0 <= j < i && old_[..i][j] == g;
      assert old_[j] == g;
    }
  }

  function NameOf(f: File): string {
    f.name
  }

  /** The values of the map in the order of their names. */
  method InNameOrder(m: map<string, File>) returns (files: seq<File>)
    requires forall n :: n in m ==> m[n].name == n
    ensures UniqueFiles(files) && Order.StrictBy(files, NameOf)
    ensures forall f :: f in files <==> f.name in m && m[f.name] == f
  {
    hide Order.Less;
    var names := Order.SortKeys(m.Keys);
    files := [];
    var i := 0;
    while i < |names|
      invariant 0 <= i <= |names| && |files| == i
      invariant forall k :: 0 <= k < i ==> names[k] in m && files[k] == m[names[k]]
    {
      assert names[i] in names;
      files := files + [m[names[i]]];
      i := i + 1;
    }
    forall f: File | f.name in m && m[f.name] == f ensures f in files {
      assert f.name in names;
      var k :| 0 <= k < |names| && names[k] == f.name;
      assert files[k] == f;
    }
    forall k, l | 0 <= k < l < |files| ensures files[k].name != files[l].name {
      Order.LessIrreflexive(names[k], names[l]);
    }
  }

  lemma MergedOverlaid(rq: Request, base: MaybeTree, dir: string, gone: set<string>, old_: seq<File>,
                       m: map<string, File>, files: seq<File>)
    requires Merged(InDir(rq.files, dir), dir, gone, old_, m)
    requires forall n :: n in gone <==> RemovedAt(rq.removed, dir, n)
    requires old_ == if base.Present? then base.tree.files else []
    requires UniqueFiles(files) && forall f :: f in files <==> f.name in m && m[f.name] == f
    ensures FilesOverlaid(rq, base, dir, files)
  {
    hide LastAt, RemovedAt, FileOf;
    forall n
      ensures LastAt(InDir(rq.files, dir), dir, n) == LastAt(rq.files, dir, n) &&
              (LastAt(rq.files, dir, n).Pushed? ==> FileOf(LastAt(rq.files, dir, n).file).name == n)
    {
      LastAtInDir(rq.files, dir, n);
      LastAtIs(rq.files, dir, n);
      FileOfName(rq.files, dir, n);
    }
  }

  lemma FileOfName(files: seq<PushFile>, dir: string, n: string)
    ensures LastAt(files, dir, n).Pushed? ==> FileOf(LastAt(files, dir, n).file).name == n
  {
    LastAtIs(files, dir, n);
  }

  // ---- one directory: the sub-directories ----

  /** The expanded node holds the overlay. */
  ghost predicate Correct(rq: Request, n: Node, base: MaybeTree, dir: string) {
    && WellFormed(Expand(n, base))
    && (forall q, f :: Holds(Expand(n, base), q, f) <==> Overlaid(rq, base, dir, q, f))
  }

  /** The recorded directories are those above touched paths, and the root. */
  ghost predicate Recorded(rq: Request, rebuild: set<string>) {
    forall x :: x in rebuild <==> x == "" || exists p :: TouchedBy(rq, p) && Inside(x, p)
  }

  /** A directory that is not recorded keeps its files. */
  lemma UntouchedBelow(rq: Request, rebuild: set<string>, base: MaybeTree, dir: string, q: string, f: File)
    requires Recorded(rq, rebuild) && WellFormedSide(base) && GoodRel(q) && '/' in q && Join(dir, Head(q)) !in rebuild
    ensures Overlaid(rq, base, dir, q, f) <==> HoldsIn(base, q, f)
  {
    hide LastSlash, LastAt, Inside, GoodRel, HoldsIn, DirOf, BaseOf;
    var p := Join(dir, q);
    NestedPlace(dir, q);
    LastAtIs(rq.files, DirOf(p), BaseOf(p));
    forall r | SamePlace(r, p) ensures !TouchedBy(rq, r) {
      SamePlaceSamePath(p, r);
    }
    forall pf | pf in rq.files ensures !SamePlace(pf.path, p) {
      assert TouchedBy(rq, pf.path);
    }
    forall r | r in rq.removed ensures !SamePlace(r, p) {
      assert TouchedBy(rq, r);
    }
  }

  /** A path with a slash lies inside its first directory and has a directory part. */
  lemma NestedPlace(dir: string, q: string)
    requires GoodRel(q) && '/' in q
    ensures Inside(Join(dir, Head(q)), Join(dir, q)) && DirOf(Join(dir, q)) != "" && Join(dir, Head(q)) != ""
  {
    var n := Head(q);
    BelowJoins(n, q);
    JoinJoin(dir, n, Below(n, q));
    var d := Join(dir, n);
    var p := Join(dir, q);
    assert p == d + "/" + Below(n, q);
    assert Inside(d, p);
    AboveStep(d, p);
    AboveNotRoot(d, DirOf(p));
  }

  lemma AboveNotRoot(x: string, d: string)
    requires x != "" && (x == d || Inside(x, d))
    ensures d != ""
  {
  }

  /** Overlay below a rebuilt directory is overlay in it. */
  lemma OverlaidBelow(rq: Request, base: MaybeTree, dir: string, q: string, f: File)
    requires WellFormedSide(base) && '/' in q && Head(q) != ""
    ensures Overlaid(rq, base, dir, q, f) <==>
      Overlaid(rq, SubDir(base, Head(q)), Join(dir, Head(q)), Below(Head(q), q), f)
  {
    hide LastSlash, LastAt, RemovedAt, WellFormed, HoldsIn, FileOf;
    var n := Head(q);
    HoldsInChild(base, q, f);
    BelowJoins(n, q);
    JoinJoin(dir, n, Below(n, q));
  }

  /** The overlay of a path without a slash. */
  lemma OverlaidFile(rq: Request, base: MaybeTree, dir: string, q: string, f: File, files: seq<File>)
    requires '/' !in q && q != "" && FilesOverlaid(rq, base, dir, files)
    ensures Overlaid(rq, base, dir, q, f) <==> f in files && f.name == q
  {
    hide LastAt, RemovedAt, LastSlash, FileOf, DirOf, BaseOf;
    FiledHere(dir, q);
    HoldsFile(base, q, f);
    FileOfName(rq.files, dir, q);
  }

  /** The children are the recorded directories right below, each correct. */
  ghost predicate ChildrenCorrect(rq: Request, base: MaybeTree, dir: string, names: seq<string>, children: seq<Node>) {
    && |children| == |names|
    && (forall i :: 0 <= i < |names| ==>
          children[i].name == names[i] && Correct(rq, children[i], SubDir(base, names[i]), Join(dir, names[i])))
  }

  ghost predicate KeptNamed(keep: seq<Kept>, x: string) {
    exists k :: k in keep && k.name == x
  }

  /** A kept directory is not recorded and carries the base's hash. */
  ghost predicate KeptRight(rebuild: set<string>, base: MaybeTree, dir: string, k: Kept) {
    Join(dir, k.name) !in rebuild && SubDir(base, k.name).Present? && SubDir(base, k.name).tree.hash == k.hash
  }

  /** The kept directories are those of the base that are not recorded. */
  ghost predicate KeptCorrect(rebuild: set<string>, base: MaybeTree, dir: string, keep: seq<Kept>) {
    && (forall i, j :: 0 <= i < j < |keep| ==> keep[i].name != keep[j].name)
    && (forall k :: k in keep ==> KeptRight(rebuild, base, dir, k))
    && (base.Present? ==> forall s :: s in base.tree.dirs && Join(dir, s.name) !in rebuild ==> KeptNamed(keep, s.name))
  }

  lemma NodeHolds(rq: Request, rebuild: set<string>, n: Node, base: MaybeTree, dir: string, names: seq<string>,
                  q: string, f: File)
    requires Recorded(rq, rebuild) && WellFormedSide(base)
    requires FilesOverlaid(rq, base, dir, n.files)
    requires forall x :: x in names <==> Immediate(rebuild, dir, x)
    requires ChildrenCorrect(rq, base, dir, names, n.children) && KeptCorrect(rebuild, base, dir, n.keep)
    requires WellFormed(Expand(n, base))
    ensures Holds(Expand(n, base), q, f) <==> Overlaid(rq, base, dir, q, f)
  {
    hide Overlaid, Recorded, FilesOverlaid, WellFormed, ChildrenCorrect, KeptCorrect, Inside, GoodRel, Expand, Holds;
    var t := Present(Expand(n, base));
    if '/' !in q {
      HoldsFile(t, q, f);
      NodeFile(rq, n, base, dir, q, f);
    } else if Head(q) == "" {
      NoRootSegment(t, q, f);
      NotGood(rq, base, dir, q, f);
    } else {
      var x := Head(q);
      HoldsInChild(t, q, f);
      if Join(dir, x) in rebuild {
        NodeChild(rq, n, base, dir, names, x);
        OverlaidBelow(rq, base, dir, q, f);
        CorrectAt(rq, SubDir(t, x), SubDir(base, x), Join(dir, x), Below(x, q), f);
      } else {
        NodeKept(rebuild, n, base, dir, x, names, rq);
        HoldsInChild(base, q, f);
        if GoodRel(q) {
          UntouchedBelow(rq, rebuild, base, dir, q, f);
        } else {
          NotGood(rq, base, dir, q, f);
          HeldIsGood(base, q, f);
        }
      }
    }
  }

  lemma NodeFile(rq: Request, n: Node, base: MaybeTree, dir: string, q: string, f: File)
    requires '/' !in q && FilesOverlaid(rq, base, dir, n.files) && WellFormed(Expand(n, base))
    ensures Expand(n, base).files == n.files
    ensures Overlaid(rq, base, dir, q, f) <==> f in n.files && f.name == q
  {
    hide FilesOverlaid, LastAt, RemovedAt, DirOf, BaseOf, LastSlash, Holds;
    if q != "" {
      OverlaidFile(rq, base, dir, q, f, n.files);
    } else {
      assert f in n.files ==> GoodName(f.name);
    }
  }

  lemma NoRootSegment(t: MaybeTree, q: string, f: File)
    requires WellFormedSide(t) && '/' in q && Head(q) == ""
    ensures !HoldsIn(t, q, f)
  {
    hide Inside;
    HoldsInChild(t, q, f);
    var c := SubDir(t, "");
    assert c.Present? ==> GoodName(Sub("", c.tree).name);
  }

  lemma NotGood(rq: Request, base: MaybeTree, dir: string, q: string, f: File)
    requires !GoodRel(q) || ('/' in q && Head(q) == "")
    ensures !Overlaid(rq, base, dir, q, f)
  {
    hide LastAt, RemovedAt, DirOf, BaseOf, LastSlash, HoldsIn;
  }

  /** A tree holds files at good paths only. */
  lemma {:induction false} HeldIsGood(t: MaybeTree, q: string, f: File)
    requires WellFormedSide(t)
    ensures HoldsIn(t, q, f) ==> GoodRel(q)
    decreases |q|
  {
    hide WellFormed, HoldsIn;
    if '/' in q {
      HoldsInChild(t, q, f);
      ChildWellFormed(t, Head(q));
      HeldIsGood(SubDir(t, Head(q)), Below(Head(q), q), f);
      if Head(q) == "" {
        NoRootSegment(t, q, f);
      }
    } else if q == "" {
      NoNamelessFile(t, f);
    }
  }

  lemma NoNamelessFile(t: MaybeTree, f: File)
    requires WellFormedSide(t)
    ensures !HoldsIn(t, "", f)
  {
    HoldsFile(t, "", f);
  }

  lemma CorrectAt(rq: Request, c: MaybeTree, base: MaybeTree, dir: string, q: string, f: File)
    requires c.Present? && forall r, g :: Holds(c.tree, r, g) <==> Overlaid(rq, base, dir, r, g)
    ensures HoldsIn(c, q, f) <==> Overlaid(rq, base, dir, q, f)
  {
    hide Overlaid, Holds;
  }

  lemma NodeChild(rq: Request, n: Node, base: MaybeTree, dir: string, names: seq<string>, x: string)
    requires ChildrenCorrect(rq, base, dir, names, n.children) && WellFormed(Expand(n, base)) && x in names
    ensures var c := SubDir(Present(Expand(n, base)), x);
      c.Present? && forall r, g :: Holds(c.tree, r, g) <==> Overlaid(rq, SubDir(base, x), Join(dir, x), r, g)
  {
    hide Overlaid, WellFormed, Holds;
    var i :| 0 <= i < |names| && names[i] == x;
    var s := ChildSubs(n.children, base)[i];
    assert s in Expand(n, base).dirs by {
      assert Expand(n, base).dirs[|n.keep| + i] == s;
    }
    ChildIs(Present(Expand(n, base)), s);
  }

  /** Where nothing was recorded the expanded node has the base's directory, or
      neither has one. */
  lemma NodeKept(rebuild: set<string>, n: Node, base: MaybeTree, dir: string, x: string, names: seq<string>,
                 rq: Request)
    requires KeptCorrect(rebuild, base, dir, n.keep) && WellFormed(Expand(n, base)) && WellFormedSide(base)
    requires ChildrenCorrect(rq, base, dir, names, n.children) && (forall y :: y in names ==> Join(dir, y) in rebuild)
    requires Join(dir, x) !in rebuild
    ensures SubDir(Present(Expand(n, base)), x) == SubDir(base, x)
  {
    hide WellFormed, Correct, Expand, ChildrenCorrect, KeptRight, Join;
    if KeptNamed(n.keep, x) {
      KeptThere(rebuild, n, base, dir, x);
    } else {
      NotThere(n, base, names, x, dir, rebuild, rq);
    }
  }

  lemma ExpandDirs(n: Node, base: MaybeTree)
    ensures Expand(n, base).files == n.files && Expand(n, base).hash == n.hash
    ensures Expand(n, base).dirs == KeptSubs(n.keep, base) + ChildSubs(n.children, base)
  {
  }

  lemma KeptThere(rebuild: set<string>, n: Node, base: MaybeTree, dir: string, x: string)
    requires KeptCorrect(rebuild, base, dir, n.keep) && WellFormed(Expand(n, base)) && KeptNamed(n.keep, x)
    ensures SubDir(Present(Expand(n, base)), x) == SubDir(base, x)
  {
    hide WellFormed, Expand, Join;
    ExpandDirs(n, base);
    var k :| k in n.keep && k.name == x;
    assert KeptRight(rebuild, base, dir, k);
    var i :| 0 <= i < |n.keep| && n.keep[i] == k;
    var s := KeptSubs(n.keep, base)[i];
    assert Expand(n, base).dirs[i] == s;
    ChildIs(Present(Expand(n, base)), s);
  }

  lemma NotThere(n: Node, base: MaybeTree, names: seq<string>, x: string, dir: string, rebuild: set<string>,
                 rq: Request)
    requires !KeptNamed(n.keep, x) && ChildrenCorrect(rq, base, dir, names, n.children)
    requires (forall y :: y in names ==> Join(dir, y) in rebuild) && Join(dir, x) !in rebuild
    requires KeptCorrect(rebuild, base, dir, n.keep)
    ensures SubDir(Present(Expand(n, base)), x) == SubDir(base, x)
  {
    hide Correct, Expand, KeptRight, Join;
    ExpandDirs(n, base);
    var ds := Expand(n, base).dirs;
    forall i | 0 <= i < |ds| ensures ds[i].name != x {
      if i < |n.keep| {
        assert ds[i].name == n.keep[i].name && n.keep[i] in n.keep;
      } else {
        var j := i - |n.keep|;
        assert ds[i].name == n.children[j].name && n.children[j].name == names[j] && names[j] in names;
      }
    }
    assert SubDir(Present(Expand(n, base)), x) == Missing;
    if base.Present? {
      forall s | s in base.tree.dirs ensures s.name != x {}
    }
  }

  /** Names are non-empty segments short enough to hash. */
  lemma NodeFormed(rq: Request, rebuild: set<string>, n: Node, base: MaybeTree, dir: string, names: seq<string>)
    requires WellFormedSide(base) && FilesOverlaid(rq, base, dir, n.files)
    requires forall pf :: pf in rq.files ==> GoodName(BaseOf(pf.path))
    requires forall x :: x in rebuild ==> |x| < 0x1_0000_0000
    requires Order.Sorted(names) && forall x :: x in names <==> Immediate(rebuild, dir, x)
    requires ChildrenCorrect(rq, base, dir, names, n.children) && KeptCorrect(rebuild, base, dir, n.keep)
    ensures WellFormed(Expand(n, base))
  {
    hide Order.Sorted, Correct, LastAt, RemovedAt, BaseOf, DirOf, LastSlash, ChildrenCorrect, KeptCorrect, Immediate,
         GoodName, Expand, WellFormed, FileOf;
    ExpandDirs(n, base);
    forall f | f in n.files ensures GoodName(f.name) {
      OverlaidName(rq, base, dir, n.files, f);
    }
    NodeDirs(rq, rebuild, n, base, dir, names);
    Formed(Expand(n, base));
  }

  lemma OverlaidName(rq: Request, base: MaybeTree, dir: string, files: seq<File>, f: File)
    requires WellFormedSide(base) && FilesOverlaid(rq, base, dir, files) && f in files
    requires forall pf :: pf in rq.files ==> GoodName(BaseOf(pf.path))
    ensures GoodName(f.name)
  {
    hide LastAt, RemovedAt, BaseOf, DirOf, LastSlash, GoodName;
    LastAtIs(rq.files, dir, f.name);
  }

  lemma Formed(t: Tree)
    requires UniqueFiles(t.files) && UniqueDirs(t.dirs)
    requires (forall f :: f in t.files ==> GoodName(f.name)) && (forall s :: s in t.dirs ==>
      GoodName(s.name) && WellFormed(s.tree))
    ensures WellFormed(t)
  {
    hide GoodName;
  }

  lemma NodeDirAt(rq: Request, rebuild: set<string>, n: Node, base: MaybeTree, dir: string, names: seq<string>, i: nat)
    requires WellFormedSide(base)
    requires forall x :: x in rebuild ==> |x| < 0x1_0000_0000
    requires forall x :: x in names <==> Immediate(rebuild, dir, x)
    requires ChildrenCorrect(rq, base, dir, names, n.children) && KeptCorrect(rebuild, base, dir, n.keep)
    requires i < |Expand(n, base).dirs|
    ensures var s := Expand(n, base).dirs[i];
      && GoodName(s.name) && WellFormed(s.tree)
      && (i < |n.keep| ==> s.name == n.keep[i].name && Join(dir, s.name) !in rebuild)
      && (i >= |n.keep| ==> s.name == names[i - |n.keep|] && Join(dir, s.name) in rebuild)
  {
    hide Overlaid, Holds, WellFormed, Expand;
    ExpandDirs(n, base);
    var k := |n.keep|;
    if i < k {
      var kept := n.keep[i];
      assert kept in n.keep && KeptRight(rebuild, base, dir, kept);
      assert Expand(n, base).dirs[i] == Sub(kept.name, SubDir(base, kept.name).tree);
      NamesGood(base.tree, Expand(n, base).dirs[i]);
    } else {
      assert Expand(n, base).dirs[i] == ChildSubs(n.children, base)[i - k];
      assert names[i - k] in names;
    }
  }

  lemma NodeDirs(rq: Request, rebuild: set<string>, n: Node, base: MaybeTree, dir: string, names: seq<string>)
    requires WellFormedSide(base)
    requires forall x :: x in rebuild ==> |x| < 0x1_0000_0000
    requires Order.Sorted(names) && forall x :: x in names <==> Immediate(rebuild, dir, x)
    requires ChildrenCorrect(rq, base, dir, names, n.children) && KeptCorrect(rebuild, base, dir, n.keep)
    ensures UniqueDirs(Expand(n, base).dirs)
    ensures forall s :: s in Expand(n, base).dirs ==> GoodName(s.name) && WellFormed(s.tree)
  {
    hide Order.Less, Holds, WellFormed, Expand, GoodName, Immediate, Correct, Join;
    var ds := Expand(n, base).dirs;
    var k := |n.keep|;
    assert |ds| == k + |names| by { DirCount(n, base); }
    forall i | 0 <= i < |ds|
      ensures GoodName(ds[i].name) && WellFormed(ds[i].tree)
      ensures i < k ==> ds[i].name == n.keep[i].name && Join(dir, ds[i].name) !in rebuild
      ensures i >= k ==> ds[i].name == names[i - k] && Join(dir, ds[i].name) in rebuild
    {
      NodeDirAt(rq, rebuild, n, base, dir, names, i);
    }
    forall i, j | 0 <= i < j < |ds| ensures ds[i].name != ds[j].name {
      if k <= i {
        Order.LessIrreflexive(names[i - k], names[j - k]);
      }
    }
  }

  lemma DirCount(n: Node, base: MaybeTree)
    ensures |Expand(n, base).dirs| == |n.keep| + |n.children|
  {
  }

  lemma NodeCorrect(rq: Request, rebuild: set<string>, n: Node, base: MaybeTree, dir: string, names: seq<string>)
    requires Recorded(rq, rebuild) && WellFormedSide(base) && FilesOverlaid(rq, base, dir, n.files)
    requires forall pf :: pf in rq.files ==> GoodName(BaseOf(pf.path))
    requires forall x :: x in rebuild ==> |x| < 0x1_0000_0000
    requires Order.Sorted(names) && forall x :: x in names <==> Immediate(rebuild, dir, x)
    requires ChildrenCorrect(rq, base, dir, names, n.children) && KeptCorrect(rebuild, base, dir, n.keep)
    ensures Correct(rq, n, base, dir)
  {
    hide Overlaid, Recorded, FilesOverlaid, WellFormed, ChildrenCorrect, KeptCorrect, Order.Sorted, Immediate, Holds,
         Expand, GoodName;
    NodeFormed(rq, rebuild, n, base, dir, names);
    forall q, f ensures Holds(Expand(n, base), q, f) <==> Overlaid(rq, base, dir, q, f) {
      NodeHolds(rq, rebuild, n, base, dir, names, q, f);
    }
  }

  // ---- the built node ----

  function ChildNames(children: seq<Node>): (names: seq<string>)
    ensures |names| == |children| && forall i :: 0 <= i < |children| ==> names[i] == children[i].name
  {
    if children == [] then [] else [children[0].name] + ChildNames(children[1..])
  }

  /** The children are the recorded directories right below dir, by name. */
  ghost predicate ChildrenNamed(rebuild: set<string>, dir: string, children: seq<Node>) {
    && Order.Sorted(ChildNames(children))
    && (forall x :: x in ChildNames(children) <==> Immediate(rebuild, dir, x))
  }

  /** What the builder makes of a directory: its files merged, the recorded
      directories below it built in turn, the others kept by hash. */
  ghost predicate Built(rq: Request, rebuild: set<string>, n: Node, base: MaybeTree, dir: string)
    decreases n
  {
    && n.name == NodeName(dir) && n.mode == DIR_MODE && (forall k :: k in n.keep ==> k.mode == DIR_MODE)
    && FilesOverlaid(rq, base, dir, n.files)
    && KeptCorrect(rebuild, base, dir, n.keep)
    && ChildrenNamed(rebuild, dir, n.children)
    && (forall c :: c in n.children ==> Built(rq, rebuild, c, SubDir(base, c.name), Join(dir, c.name)))
  }

  lemma BuiltParts(rq: Request, rebuild: set<string>, n: Node, base: MaybeTree, dir: string)
    requires Built(rq, rebuild, n, base, dir)
    ensures FilesOverlaid(rq, base, dir, n.files) && KeptCorrect(rebuild, base, dir, n.keep)
    ensures ChildrenNamed(rebuild, dir, n.children)
  {
    hide FilesOverlaid, KeptCorrect, ChildrenNamed;
  }

  lemma BuiltChild(rq: Request, rebuild: set<string>, n: Node, base: MaybeTree, dir: string, i: nat)
    requires Built(rq, rebuild, n, base, dir) && i < |n.children|
    ensures var c := n.children[i]; Built(rq, rebuild, c, SubDir(base, c.name), Join(dir, c.name))
  {
    hide FilesOverlaid, KeptCorrect, ChildrenNamed;
    assert n.children[i] in n.children;
  }

  /** The expanded node holds the overlay, and keeps directories under the
      hash they are stored with. */
  lemma {:induction false} BuiltCorrect(rq: Request, rebuild: set<string>, n: Node, base: MaybeTree, dir: string)
    requires Recorded(rq, rebuild) && WellFormedSide(base)
    requires forall pf :: pf in rq.files ==> GoodName(BaseOf(pf.path))
    requires forall x :: x in rebuild ==> |x| < 0x1_0000_0000
    requires Built(rq, rebuild, n, base, dir)
    ensures Correct(rq, n, base, dir) && KeptFrom(n, base)
    decreases n
  {
    hide Recorded, WellFormed, GoodName, BaseOf, Built, Correct, KeptFrom, FilesOverlaid, KeptCorrect, Immediate,
      Order.Sorted, Join;
    BuiltParts(rq, rebuild, n, base, dir);
    var names := ChildNames(n.children);
    forall i | 0 <= i < |names|
      ensures Correct(rq, n.children[i], SubDir(base, names[i]), Join(dir, names[i]))
      ensures KeptFrom(n.children[i], SubDir(base, names[i]))
    {
      BuiltChild(rq, rebuild, n, base, dir, i);
      ChildWellFormed(base, names[i]);
      BuiltCorrect(rq, rebuild, n.children[i], SubDir(base, names[i]), Join(dir, names[i]));
    }
    NodeCorrect(rq, rebuild, n, base, dir, names);
    KeptFromNode(rebuild, n, base, dir);
  }

  lemma KeptFromNode(rebuild: set<string>, n: Node, base: MaybeTree, dir: string)
    requires KeptCorrect(rebuild, base, dir, n.keep)
    requires forall i :: 0 <= i < |n.children| ==> KeptFrom(n.children[i], SubDir(base, n.children[i].name))
    ensures KeptFrom(n, base)
  {
    assert forall k :: k in n.keep ==> KeptRight(rebuild, base, dir, k);
    forall c | c in n.children ensures KeptFrom(c, SubDir(base, c.name)) {
      var i :| 0 <= i < |n.children| && n.children[i] == c;
    }
  }
}
