/** The lockstep walk over two stored trees that skips directories of equal
    hash, against the full flattening of both. */
module TreeWalk {
  import opened Basics
  import opened Prefix
  import opened PathFilter
  import opened TreeHash
  import opened Trees
  import opened EntryMaps
  import Manifest
  import Order

  // ---- which paths are skipped ----

  ghost predicate SameHash(b: MaybeTree, h: MaybeTree) {
    b.Present? && h.Present? && b.tree.hash != ZERO && b.tree.hash == h.tree.hash
  }

  /** Some directory at or above the path carries one hash on both sides. */
  ghost predicate Skipped(b: MaybeTree, h: MaybeTree, q: string)
    decreases |q|
  {
    SameHash(b, h) || ('/' in q && Skipped(SubDir(b, Head(q)), SubDir(h, Head(q)), Below(Head(q), q)))
  }

  lemma {:induction false} MissingNeverSkips(b: MaybeTree, h: MaybeTree, q: string)
    requires b.Missing? || h.Missing?
    ensures !Skipped(b, h, q)
    decreases |q|
  {
    if '/' in q {
      MissingNeverSkips(SubDir(b, Head(q)), SubDir(h, Head(q)), Below(Head(q), q));
    }
  }

  ghost predicate Trusted(d: Digest, b: MaybeTree, h: MaybeTree) {
    && (b.Present? ==> WellFormed(b.tree) && WellHashed(d, b.tree))
    && (h.Present? ==> WellFormed(h.tree) && WellHashed(d, h.tree))
    && (b.Present? && h.Present? ==> NoCollision(d, b.tree, h.tree))
  }

  lemma TrustedChild(d: Digest, b: MaybeTree, h: MaybeTree, n: string)
    requires Trusted(d, b, h)
    ensures Trusted(d, SubDir(b, n), SubDir(h, n))
  {
    hide NoCollision, Serialised;
    var c, e := SubDir(b, n), SubDir(h, n);
    if c.Present? && e.Present? {
      SubCollision(d, b.tree, h.tree, Sub(n, c.tree), Sub(n, e.tree));
    }
  }

  lemma TrustedFlip(d: Digest, b: MaybeTree, h: MaybeTree)
    requires Trusted(d, b, h)
    ensures Trusted(d, h, b)
  {
    hide NoCollision;
    if b.Present? && h.Present? {
      FlipCollision(d, b.tree, h.tree);
    }
  }

  /** A skipped path has the same content on both sides. */
  lemma {:induction false} SkippedAlike(d: Digest, b: MaybeTree, h: MaybeTree, q: string, f: File) returns (g: File)
    requires Trusted(d, b, h) && Skipped(b, h, q) && HoldsIn(b, q, f)
    ensures HoldsIn(h, q, g) && SameContent(f, g)
    decreases |q|
  {
    hide NoCollision, WellFormed, WellHashed;
    if SameHash(b, h) {
      g := HashDecides(d, b.tree, h.tree, q, f);
    } else {
      var n := Head(q);
      TrustedChild(d, b, h, n);
      HoldsInChild(b, q, f);
      g := SkippedAlike(d, SubDir(b, n), SubDir(h, n), Below(n, q), f);
      HoldsInChild(h, q, g);
    }
  }

  lemma {:induction false} SkippedFlip(b: MaybeTree, h: MaybeTree, q: string)
    ensures Skipped(b, h, q) == Skipped(h, b, q)
    decreases |q|
  {
    if '/' in q {
      SkippedFlip(SubDir(b, Head(q)), SubDir(h, Head(q)), Below(Head(q), q));
    }
  }

  // ---- what the walk writes ----

  /** The file is collected from `side` (one of b and h). */
  ghost predicate Shows(b: MaybeTree, h: MaybeTree, side: MaybeTree, path: string, filter: Filter, q: string, f: File) {
    HoldsIn(side, q, f) && Allowed(filter, Join(path, q)) && !Skipped(b, h, q)
  }

  /** A file of the directory itself, or below one of the directories done. */
  predicate InScope(q: string, done: seq<string>) {
    '/' in q ==> Head(q) in done
  }

  ghost predicate HasEntry(d: Digest, m: Entries, p: string, f: File) {
    p in m && m[p] == EntryOf(d, p, f)
  }

  predicate Unchanged(before: Entries, after: Entries, p: string) {
    if p in before then p in after && after[p] == before[p] else p !in after
  }

  /** The map gained exactly the entries shown. */
  ghost predicate Wrote(d: Digest, b: MaybeTree, h: MaybeTree, side: MaybeTree, path: string, filter: Filter,
                        before: Entries, after: Entries) {
    && (forall q, f :: Shows(b, h, side, path, filter, q, f) ==> HasEntry(d, after, Join(path, q), f))
    && (forall p :: Unchanged(before, after, p) || exists q, f :: Shows(b, h, side, path, filter, q, f) &&
                                                                  p == Join(path, q))
  }

  /** The same, for the directories done so far. */
  ghost predicate WrotePart(d: Digest, b: MaybeTree, h: MaybeTree, side: MaybeTree, path: string, filter: Filter,
                            before: Entries, after: Entries, done: seq<string>) {
    && (forall q, f :: Shows(b, h, side, path, filter, q, f) && InScope(q, done) ==>
          HasEntry(d, after, Join(path, q), f))
    && (forall p :: Unchanged(before, after, p) || exists q, f :: Shows(b, h, side, path, filter, q, f) &&
                                                                  InScope(q, done) && p == Join(path, q))
  }

  /** Nothing shown below a directory that is not entered. */
  lemma PrunedWrites(d: Digest, b: MaybeTree, h: MaybeTree, side: MaybeTree, path: string, filter: Filter, m: Entries)
    requires Sound(filter) && WellFormedSide(side) && Clean(path) && !Enters(filter, path)
    ensures Wrote(d, b, h, side, path, filter, m, m)
  {
    hide Allowed, Enters, Clean, Skipped, WellFormed, Sound;
    forall q, f ensures !Shows(b, h, side, path, filter, q, f) {
      if Shows(b, h, side, path, filter, q, f) {
        HoldsClean(side.tree, q, f);
        Manifest.CleanNotEmpty(path);
        JoinClean(path, q);
        AllowedEnters(filter, path, Join(path, q));
      }
    }
  }

  /** A path shown below the child is shown by the directory, and back. */
  lemma ShowsChild(b: MaybeTree, h: MaybeTree, side: MaybeTree, path: string, filter: Filter, q: string, f: File)
    requires WellFormedSide(side) && !SameHash(b, h) && '/' in q && Head(q) != ""
    ensures Shows(b, h, side, path, filter, q, f)
      <==>
        Shows(SubDir(b, Head(q)), SubDir(h, Head(q)), SubDir(side, Head(q)), Join(path, Head(q)), filter,
              Below(Head(q), q), f)
    ensures Join(Join(path, Head(q)), Below(Head(q), q)) == Join(path, q)
  {
    hide Allowed, WellFormed, HoldsIn, SameHash;
    HoldsInChild(side, q, f);
    BelowJoins(Head(q), q);
    JoinJoin(path, Head(q), Below(Head(q), q));
  }

  lemma Under(n: string, q: string)
    requires '/' !in n
    ensures var p := n + "/" + q; '/' in p && Head(p) == n && Below(n, p) == q
  {
    var p := n + "/" + q;
    assert Inside(n, p);
    HeadIs(n, p);
  }

  lemma WroteMore(d: Digest, b: MaybeTree, h: MaybeTree, side: MaybeTree, path: string, filter: Filter,
                  before: Entries, mid: Entries, after: Entries, done: seq<string>, n: string)
    requires WellFormedSide(side) && !SameHash(b, h) && GoodName(n) && n !in done
    requires WrotePart(d, b, h, side, path, filter, before, mid, done)
    requires Wrote(d, SubDir(b, n), SubDir(h, n), SubDir(side, n), Join(path, n), filter, mid, after)
    ensures WrotePart(d, b, h, side, path, filter, before, after, done + [n])
  {
    hide Shows, WellFormed, SameHash, HasEntry, Unchanged;
    forall q, f | Shows(b, h, side, path, filter, q, f) && InScope(q, done + [n])
      ensures HasEntry(d, after, Join(path, q), f)
    {
      if InScope(q, done) {
        StillThere(d, b, h, side, path, filter, mid, after, done, n, q, f);
      } else {
        ShowsChild(b, h, side, path, filter, q, f);
      }
    }
    forall p
      ensures Unchanged(before, after, p) || exists q, f :: Shows(b, h, side, path, filter, q, f) &&
                                                            InScope(q, done + [n]) && p == Join(path, q)
    {
      if !Unchanged(mid, after, p) {
        var q, f :| Shows(SubDir(b, n), SubDir(h, n), SubDir(side, n), Join(path, n), filter, q, f) &&
        p == Join(Join(path, n), q);
        Under(n, q);
        ShowsChild(b, h, side, path, filter, n + "/" + q, f);
      } else if !Unchanged(before, mid, p) {
        var q, f :| Shows(b, h, side, path, filter, q, f) && InScope(q, done) && p == Join(path, q);
        assert InScope(q, done + [n]);
      } else {
        UnchangedTwice(before, mid, after, p);
      }
    }
  }

  lemma UnchangedTwice(before: Entries, mid: Entries, after: Entries, p: string)
    requires Unchanged(before, mid, p) && Unchanged(mid, after, p)
    ensures Unchanged(before, after, p)
  {
  }

  lemma UnchangedKeeps(d: Digest, mid: Entries, after: Entries, p: string, f: File)
    requires Unchanged(mid, after, p) && HasEntry(d, mid, p, f)
    ensures HasEntry(d, after, p, f)
  {
  }

  /** A later directory does not touch what was written before. */
  lemma StillThere(d: Digest, b: MaybeTree, h: MaybeTree, side: MaybeTree, path: string, filter: Filter,
                   mid: Entries, after: Entries, done: seq<string>, n: string, q: string, f: File)
    requires GoodName(n) && n !in done && InScope(q, done)
    requires HasEntry(d, mid, Join(path, q), f)
    requires Wrote(d, SubDir(b, n), SubDir(h, n), SubDir(side, n), Join(path, n), filter, mid, after)
    ensures HasEntry(d, after, Join(path, q), f)
  {
    hide Shows, HasEntry, Unchanged;
    var p := Join(path, q);
    if !Unchanged(mid, after, p) {
      var r, g :| Shows(SubDir(b, n), SubDir(h, n), SubDir(side, n), Join(path, n), filter, r, g) &&
      p == Join(Join(path, n), r);
      JoinJoin(path, n, r);
      JoinInjective(path, q, n + "/" + r);
      Under(n, r);
    } else {
      UnchangedKeeps(d, mid, after, p, f);
    }
  }

  // ---- one directory ----

  /** The map key of a file below dir. */
  function EntryPath(dir: string, name: string): string {
    var p := dir + "/" + name;
    if "/" <= p then p[1..] else p
  }

  /** dir names `path` with or without a slash in front. */
  predicate Names(dir: string, path: string) {
    dir == path || (dir == "/" + path && path != "")
  }

  lemma EntryPathIsJoin(dir: string, path: string, name: string)
    requires Names(dir, path) && GoodPath(path)
    ensures EntryPath(dir, name) == Join(path, name)
  {
    var p := dir + "/" + name;
    if path == "" {
      assert p[1..] == name;
    } else if dir == path {
      assert p[0] == path[0];
    } else {
      assert p[1..] == path + "/" + name;
    }
  }

  ghost predicate FilesWritten(d: Digest, files: seq<File>, path: string, before: Entries, after: Entries) {
    && (forall f :: f in files ==> HasEntry(d, after, Join(path, f.name), f))
    && (forall p :: Unchanged(before, after, p) || exists f :: f in files && p == Join(path, f.name))
  }

  method AddFileEntries(d: Digest, out: Entries, dir: string, files: seq<File>, ghost path: string) returns (r: Entries)
    requires Names(dir, path) && GoodPath(path) && UniqueFiles(files)
    ensures FilesWritten(d, files, path, out, r)
  {
    hide GoodPath, Names;
    r := out;
    var i := 0;
    while i < |files|
      invariant 0 <= i <= |files| && FilesWritten(d, files[..i], path, out, r)
    {
      var f := files[i];
      EntryPathIsJoin(dir, path, f.name);
      ghost var mid := r;
      r := r[EntryPath(dir, f.name) := EntryOf(d, EntryPath(dir, f.name), f)];
      OneWritten(d, files, i, path, out, mid, r);
      i := i + 1;
    }
    assert files[..i] == files;
  }

  lemma OneWritten(d: Digest, files: seq<File>, i: nat, path: string, before: Entries, mid: Entries, after: Entries)
    requires i < |files| && UniqueFiles(files) && FilesWritten(d, files[..i], path, before, mid)
    requires after == mid[Join(path, files[i].name) := EntryOf(d, Join(path, files[i].name), files[i])]
    ensures FilesWritten(d, files[..i + 1], path, before, after)
  {
    hide Join;
    var f := files[i];
    assert files[..i + 1] == files[..i] + [f];
    forall g | g in files[..i + 1] ensures HasEntry(d, after, Join(path, g.name), g) {
      if Join(path, g.name) == Join(path, f.name) {
        JoinInjective(path, g.name, f.name);
        assert f in files && g in files;
        FileByName(files, f, g);
      }
    }
    forall p ensures Unchanged(before, after, p) || exists g :: g in files[..i + 1] && p == Join(path, g.name) {
      if p == Join(path, f.name) {
        assert f in files[..i + 1];
      } else if !Unchanged(before, mid, p) {
        var g :| g in files[..i] && p == Join(path, g.name);
        assert g in files[..i + 1];
      }
    }
  }

  lemma DirectoryWrote(d: Digest, b: MaybeTree, h: MaybeTree, side: MaybeTree, path: string, filter: Filter,
                       before: Entries, after: Entries, allowed: seq<File>)
    requires WellFormedSide(side) && !SameHash(b, h)
    requires forall f :: f in allowed <==> side.Present? && f in side.tree.files && Allowed(filter, Join(path, f.name))
    requires FilesWritten(d, allowed, path, before, after)
    ensures WrotePart(d, b, h, side, path, filter, before, after, [])
  {
    hide Allowed, SameHash, HasEntry, Unchanged;
    forall q, f | Shows(b, h, side, path, filter, q, f) && InScope(q, []) ensures HasEntry(d, after, Join(path, q), f) {
      HoldsFile(side, q, f);
    }
    forall p
      ensures Unchanged(before, after, p) || exists q, f :: Shows(b, h, side, path, filter, q, f) && InScope(q, []) &&
                                                            p == Join(path, q)
    {
      if !Unchanged(before, after, p) {
        var f :| f in allowed && p == Join(path, f.name);
        HoldsFile(side, f.name, f);
        assert Shows(b, h, side, path, filter, f.name, f);
      }
    }
  }

  /** The children by name. */
  ghost predicate ByName(o: MaybeTree, m: map<string, Tree>) {
    && (forall n :: n in m ==> SubDir(o, n) == Present(m[n]) && GoodName(n))
    && (forall n :: n !in m ==> SubDir(o, n) == Missing)
  }

  method AllowedFiles(files: seq<File>, path: string, filter: Filter) returns (allowed: seq<File>)
    requires UniqueFiles(files) && forall f :: f in files ==> GoodName(f.name)
    ensures UniqueFiles(allowed) && forall f :: f in allowed <==> f in files && Allowed(filter, Join(path, f.name))
  {
    hide Allowed, GoodName;
    allowed := [];
    var i := 0;
    while i < |files|
      invariant 0 <= i <= |files| && UniqueFiles(allowed)
      invariant forall f :: f in allowed <==> f in files[..i] && Allowed(filter, Join(path, f.name))
    {
      var f := files[i];
      JoinTreePathIsJoin(path, f.name);
      var ok := Allow(filter, JoinTreePath(path, f.name));
      assert files[..i + 1] == files[..i] + [f];
      NameIsNew(files, i, allowed);
      if ok {
        allowed := allowed + [f];
      }
      i := i + 1;
    }
    assert files[..i] == files;
  }

  lemma NameIsNew(files: seq<File>, i: nat, some: seq<File>)
    requires i < |files| && UniqueFiles(files) && forall f :: f in some ==> f in files[..i]
    ensures forall k :: 0 <= k < |some| ==> some[k].name != files[i].name
  {
    forall k | 0 <= k < |some| ensures some[k].name != files[i].name {
      assert some[k] in files[..i];
      var j :| 0 <= j < i && files[..i][j] == some[k];
      assert files[j] == some[k];
    }
  }

  method ChildrenByName(t: Tree) returns (m: map<string, Tree>)
    requires WellFormed(t)
    ensures ByName(Present(t), m)
  {
    hide GoodName;
    m := map[];
    var i := 0;
    while i < |t.dirs|
      invariant 0 <= i <= |t.dirs|
      invariant forall n :: n in m ==> Sub(n, m[n]) in t.dirs
      invariant forall k :: 0 <= k < i ==> t.dirs[k].name in m
    {
      m := m[t.dirs[i].name := t.dirs[i].tree];
      assert t.dirs[i] == Sub(t.dirs[i].name, t.dirs[i].tree);
      i := i + 1;
    }
    forall n
      ensures if n in m then SubDir(Present(t), n) == Present(m[n]) && GoodName(n) else SubDir(Present(t), n) == Missing
    {
      if n in m {
        ChildIs(Present(t), Sub(n, m[n]));
        assert GoodName(Sub(n, m[n]).name);
      }
    }
  }

  /** Adds the readable files of one directory and returns its sub-directories. */
  method CollectDirectory(d: Digest, node: MaybeTree, path: string, filter: Filter, out: Entries, ghost b: MaybeTree,
                          ghost h: MaybeTree)
    returns (r: Entries, children: map<string, Tree>)
    requires WellFormedSide(node) && GoodPath(path) && !SameHash(b, h)
    ensures WrotePart(d, b, h, node, path, filter, out, r, [])
    ensures ByName(node, children)
  {
    hide Allowed, Shows, GoodName, GoodPath, SameHash, HasEntry, Unchanged, WellHashed;
    if node.Missing? {
      r, children := out, map[];
      UnchangedAll(out);
      DirectoryWrote(d, b, h, node, path, filter, out, r, []);
    } else {
      var allowed := AllowedFiles(node.tree.files, path, filter);
      r := AddFileEntries(d, out, path, allowed, path);
      DirectoryWrote(d, b, h, node, path, filter, out, r, allowed);
      children := ChildrenByName(node.tree);
    }
  }

  lemma UnchangedAll(m: Entries)
    ensures forall p :: Unchanged(m, m, p)
  {
  }

  // ---- the walk ----

  function Height(t: Tree): nat {
    1 + HeightOf(t.dirs)
  }

  function HeightOf(ds: seq<Sub>): nat {
    if ds == [] then 0 else Max(Height(ds[0].tree), HeightOf(ds[1..]))
  }

  lemma {:induction false} LowerThan(ds: seq<Sub>, s: Sub)
    requires s in ds
    ensures Height(s.tree) <= HeightOf(ds)
  {
    if s != ds[0] {
      LowerThan(ds[1..], s);
    }
  }

  function SideHeight(o: MaybeTree): nat {
    if o.Present? then Height(o.tree) else 0
  }

  lemma ChildLower(o: MaybeTree, n: string)
    ensures SideHeight(SubDir(o, n)) <= SideHeight(o)
    ensures SubDir(o, n).Present? ==> SideHeight(SubDir(o, n)) < SideHeight(o)
  {
    var c := SubDir(o, n);
    if c.Present? {
      LowerThan(o.tree.dirs, Sub(n, c.tree));
    }
  }

  lemma PartIsAll(d: Digest, b: MaybeTree, h: MaybeTree, side: MaybeTree, path: string, filter: Filter, before: Entries,
                  after: Entries, done: seq<string>)
    requires WellFormedSide(side)
    requires WrotePart(d, b, h, side, path, filter, before, after, done)
    requires forall n :: SubDir(side, n).Present? ==> n in done
    ensures Wrote(d, b, h, side, path, filter, before, after)
  {
    hide HasEntry, Unchanged, WellFormed, Skipped, Allowed;
    forall q, f | Shows(b, h, side, path, filter, q, f) ensures HasEntry(d, after, Join(path, q), f) {
      if '/' in q {
        HoldsInChild(side, q, f);
      }
    }
  }

  lemma SkippedWrites(d: Digest, b: MaybeTree, h: MaybeTree, side: MaybeTree, path: string, filter: Filter, m: Entries)
    requires SameHash(b, h)
    ensures Wrote(d, b, h, side, path, filter, m, m)
  {
    hide SameHash, HasEntry, HoldsIn, Allowed;
    forall q ensures Skipped(b, h, q) {}
  }

  lemma MissingWrites(d: Digest, b: MaybeTree, h: MaybeTree, path: string, filter: Filter, m: Entries)
    ensures Wrote(d, b, h, Missing, path, filter, m, m)
  {
    hide HasEntry, Skipped, Allowed;
  }

  function At(m: map<string, Tree>, n: string): MaybeTree {
    if n in m then Present(m[n]) else Missing
  }

  method WalkChangedTrees(d: Digest, base: MaybeTree, head: MaybeTree, path: string, filter: Filter, baseOut: Entries,
                          headOut: Entries)
    returns (bo: Entries, ho: Entries)
    requires WellFormedSide(base) && WellFormedSide(head) && GoodPath(path) && Sound(filter)
    ensures Wrote(d, base, head, base, path, filter, baseOut, bo)
    ensures Wrote(d, base, head, head, path, filter, headOut, ho)
    decreases SideHeight(base) + SideHeight(head), 1
  {
    hide Wrote, WrotePart, WellFormed, GoodPath, GoodName, Sound, Enters, Order.Less, Clean, SideHeight;
    bo, ho := baseOut, headOut;
    if base.Missing? && head.Missing? {
      MissingWrites(d, base, head, path, filter, bo);
      MissingWrites(d, base, head, path, filter, ho);
      return;
    }
    if base.Present? && head.Present? && base.tree.hash != ZERO && base.tree.hash == head.tree.hash {
      SkippedWrites(d, base, head, base, path, filter, bo);
      SkippedWrites(d, base, head, head, path, filter, ho);
      return;
    }
    var baseChildren, headChildren;
    bo, baseChildren := CollectDirectory(d, base, path, filter, bo, base, head);
    ho, headChildren := CollectDirectory(d, head, path, filter, ho, base, head);
    var names := Order.SortKeys(baseChildren.Keys + headChildren.Keys);
    var i := 0;
    while i < |names|
      invariant 0 <= i <= |names|
      invariant WrotePart(d, base, head, base, path, filter, baseOut, bo, names[..i])
      invariant WrotePart(d, base, head, head, path, filter, headOut, ho, names[..i])
    {
      var name := names[i];
      assert name in names;
      NotYetDone(names, i);
      ghost var bm, hm := bo, ho;
      bo, ho := WalkChild(d, base, head, path, filter, baseChildren, headChildren, name, bo, ho);
      WroteMore(d, base, head, base, path, filter, baseOut, bm, bo, names[..i], name);
      WroteMore(d, base, head, head, path, filter, headOut, hm, ho, names[..i], name);
      assert names[..i] + [name] == names[..i + 1];
      i := i + 1;
    }
    assert names[..i] == names;
    PartIsAll(d, base, head, base, path, filter, baseOut, bo, names);
    PartIsAll(d, base, head, head, path, filter, headOut, ho, names);
  }

  /** One child of the pair: walked on both sides when the filter enters it. */
  method WalkChild(d: Digest, ghost base: MaybeTree, ghost head: MaybeTree, path: string, filter: Filter,
                   baseChildren: map<string, Tree>, headChildren: map<string, Tree>, name: string, baseOut: Entries,
                     headOut: Entries)
    returns (bo: Entries, ho: Entries)
    requires WellFormedSide(base) && WellFormedSide(head) && GoodPath(path) && Sound(filter)
    requires ByName(base, baseChildren) && ByName(head, headChildren) && (name in baseChildren || name in headChildren)
    ensures GoodName(name)
    ensures Wrote(d, SubDir(base, name), SubDir(head, name), SubDir(base, name), Join(path, name), filter, baseOut, bo)
    ensures Wrote(d, SubDir(base, name), SubDir(head, name), SubDir(head, name), Join(path, name), filter, headOut, ho)
    decreases SideHeight(base) + SideHeight(head), 0
  {
    hide Wrote, WellFormed, GoodPath, GoodName, Sound, Enters, Clean, SideHeight;
    GoodChild(base, head, path, name);
    var childPath := JoinTreePath(path, name);
    var entered := Enter(filter, childPath);
    var b, h := At(baseChildren, name), At(headChildren, name);
    bo, ho := baseOut, headOut;
    if entered {
      bo, ho := WalkChangedTrees(d, b, h, childPath, filter, bo, ho);
    } else {
      PrunedWrites(d, b, h, b, childPath, filter, bo);
      PrunedWrites(d, b, h, h, childPath, filter, ho);
    }
  }

  lemma NotYetDone(names: seq<string>, i: nat)
    requires i < |names| && Order.Sorted(names)
    ensures names[i] !in names[..i]
  {
    hide Order.Less;
    forall k | 0 <= k < i ensures names[k] != names[i] {
      Order.LessIrreflexive(names[k], names[i]);
    }
  }

  lemma GoodChild(base: MaybeTree, head: MaybeTree, path: string, name: string)
    requires GoodPath(path) && GoodName(name) && WellFormedSide(base) && WellFormedSide(head)
    requires SubDir(base, name).Present? || SubDir(head, name).Present?
    ensures JoinTreePath(path, name) == Join(path, name) && Clean(Join(path, name)) && GoodPath(Join(path, name))
    ensures WellFormedSide(SubDir(base, name)) && WellFormedSide(SubDir(head, name))
    ensures SideHeight(SubDir(base, name)) + SideHeight(SubDir(head, name)) < SideHeight(base) + SideHeight(head)
  {
    hide WellFormed, SideHeight;
    JoinTreePathIsJoin(path, name);
    JoinClean(path, name);
    ChildWellFormed(base, name);
    ChildWellFormed(head, name);
    ChildLower(base, name);
    ChildLower(head, name);
  }
}
