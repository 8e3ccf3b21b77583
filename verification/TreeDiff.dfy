/** Comparing two commits' trees: the hash-skipping walk reports what the full
    comparison reports, except for changes of the mode alone. */
module TreeDiff {
  import opened Prefix
  import opened PathFilter
  import opened TreeHash
  import opened Trees
  import opened EntryMaps
  import opened TreeWalk
  import opened Manifest
  import Order

  // ---- full flattening ----

  method FlattenTree(d: Digest, t: Tree, dir: string, out: Entries, ghost path: string) returns (r: Entries)
    requires WellFormed(t) && GoodPath(path) && Names(dir, path)
    ensures Wrote(d, Missing, Present(t), Present(t), path, AllowAll, out, r)
    decreases t
  {
    hide Wrote, WrotePart, WellFormed, GoodPath, GoodName, Names, SameHash;
    ghost var side := Present(t);
    FilesUnique(t);
    r := AddFileEntries(d, out, dir, t.files, path);
    NeverSame(side);
    AllAllowed(path, t.files);
    DirectoryWrote(d, Missing, side, side, path, AllowAll, out, r, t.files);
    var i := 0;
    ghost var done: seq<string> := [];
    while i < |t.dirs|
      invariant 0 <= i <= |t.dirs| && |done| == i
      invariant forall k :: 0 <= k < i ==> done[k] == t.dirs[k].name
      invariant WrotePart(d, Missing, side, side, path, AllowAll, out, r, done)
    {
      var child := t.dirs[i];
      NamesGood(t, child);
      ChildIs(side, child);
      ChildDir(dir, path, child.name);
      FreshName(t, i, done);
      ghost var mid := r;
      r := FlattenTree(d, child.tree, dir + "/" + child.name, r, Join(path, child.name));
      WroteMore(d, Missing, side, side, path, AllowAll, out, mid, r, done, child.name);
      done := done + [child.name];
      i := i + 1;
    }
    forall n | SubDir(side, n).Present? ensures n in done {
      var k :| 0 <= k < |t.dirs| && t.dirs[k] == Sub(n, SubDir(side, n).tree);
      assert done[k] == n;
    }
    PartIsAll(d, Missing, side, side, path, AllowAll, out, r, done);
  }

  lemma FilesUnique(t: Tree)
    requires WellFormed(t)
    ensures UniqueFiles(t.files)
  {
  }

  lemma NeverSame(o: MaybeTree)
    ensures !SameHash(Missing, o)
  {
  }

  lemma AllAllowed(path: string, files: seq<File>)
    ensures forall f :: f in files ==> Allowed(AllowAll, Join(path, f.name))
  {
  }

  lemma ChildDir(dir: string, path: string, name: string)
    requires GoodPath(path) && Names(dir, path) && GoodName(name)
    ensures GoodPath(Join(path, name)) && Names(dir + "/" + name, Join(path, name))
  {
    JoinClean(path, name);
    if path == "" {
      assert dir + "/" + name == "/" + name;
    } else if dir != path {
      assert dir + "/" + name == "/" + (path + "/" + name);
    }
  }

  lemma FreshName(t: Tree, i: nat, done: seq<string>)
    requires WellFormed(t) && i < |t.dirs| && |done| == i
    requires forall k :: 0 <= k < i ==> done[k] == t.dirs[k].name
    ensures t.dirs[i].name !in done
  {
  }

  /** The map lists the tree's files, one entry each. */
  ghost predicate Lists(d: Digest, t: Tree, m: Entries) {
    && (forall q, f :: Holds(t, q, f) ==> HasEntry(d, m, q, f))
    && (forall p :: p in m ==> exists f :: Holds(t, p, f))
  }

  method FromTree(d: Digest, t: Tree) returns (m: Entries)
    requires WellFormed(t)
    ensures Lists(d, t, m)
  {
    hide WellFormed, Skipped, HasEntry;
    m := FlattenTree(d, t, "", map[], "");
    WroteAll(d, Missing, Present(t), Present(t), AllowAll, m);
    forall q, f ensures Shows(Missing, Present(t), Present(t), "", AllowAll, q, f) <==> Holds(t, q, f) {
      MissingNeverSkips(Missing, Present(t), q);
    }
  }

  /** Starting from an empty map at the root, the map is what is shown. */
  lemma WroteAll(d: Digest, b: MaybeTree, h: MaybeTree, side: MaybeTree, filter: Filter, m: Entries)
    requires Wrote(d, b, h, side, "", filter, map[], m)
    ensures forall q, f :: Shows(b, h, side, "", filter, q, f) ==> HasEntry(d, m, q, f)
    ensures forall p :: p in m ==> exists f :: Shows(b, h, side, "", filter, p, f)
  {
    hide Shows;
    forall q ensures Join("", q) == q {}
    forall p | p in m ensures exists f :: Shows(b, h, side, "", filter, p, f) {
      assert !Unchanged(map[], m, p);
    }
  }

  // ---- the two diffs ----

  /** The visible files of one side. */
  ghost predicate ListsAllowed(d: Digest, o: MaybeTree, filter: Filter, m: Entries) {
    && (forall q, f :: HoldsIn(o, q, f) && Allowed(filter, q) ==> HasEntry(d, m, q, f))
    && (forall p :: p in m ==> Allowed(filter, p) && exists f :: HoldsIn(o, p, f))
  }

  /** The plain way: cut each tree down to what is readable and flatten it. */
  method FullEntries(d: Digest, o: MaybeTree, filter: Filter) returns (m: Entries)
    requires WellFormedSide(o) && Sound(filter)
    ensures ListsAllowed(d, o, filter, m)
  {
    hide WellFormed, Allowed, HasEntry, NoEmptyDirs;
    if o.Missing? {
      return map[];
    }
    var r := LoadTreeManifest(o.tree, "", true, filter, []);
    m := FromTree(d, r);
    forall q, f ensures Holds(r, q, f) <==> Holds(o.tree, q, f) && Allowed(filter, q) {
      assert Join("", q) == q;
    }
    forall p | p in m ensures Allowed(filter, p) && exists f :: HoldsIn(o, p, f) {
      var f :| Holds(r, p, f);
      assert HoldsIn(o, p, f);
    }
  }

  /** The walk's map is the full map without the skipped paths. */
  ghost predicate WithoutSkipped(b: MaybeTree, h: MaybeTree, full: Entries, m: Entries) {
    forall p :: if Skipped(b, h, p) then p !in m else Unchanged(full, m, p)
  }

  lemma WalkedFrom(d: Digest, b: MaybeTree, h: MaybeTree, side: MaybeTree, filter: Filter, full: Entries, m: Entries,
                   p: string)
    requires ListsAllowed(d, side, filter, full) && Wrote(d, b, h, side, "", filter, map[], m) && p in m
    ensures !Skipped(b, h, p) && Unchanged(full, m, p)
  {
    hide Allowed, Skipped, HoldsIn, Wrote;
    WroteAll(d, b, h, side, filter, m);
    var f :| Shows(b, h, side, "", filter, p, f);
    assert Join("", p) == p;
    assert HasEntry(d, m, p, f) && HasEntry(d, full, p, f);
  }

  lemma WalkedTo(d: Digest, b: MaybeTree, h: MaybeTree, side: MaybeTree, filter: Filter, full: Entries, m: Entries,
                 p: string)
    requires ListsAllowed(d, side, filter, full) && Wrote(d, b, h, side, "", filter, map[], m)
    requires p in full && !Skipped(b, h, p)
    ensures p in m
  {
    hide Allowed, Skipped, HoldsIn, Wrote;
    WroteAll(d, b, h, side, filter, m);
    var f :| HoldsIn(side, p, f);
    assert Join("", p) == p;
    assert Shows(b, h, side, "", filter, p, f);
    assert HasEntry(d, m, p, f);
  }

  lemma WalkedIsPart(d: Digest, b: MaybeTree, h: MaybeTree, side: MaybeTree, filter: Filter, full: Entries, m: Entries)
    requires ListsAllowed(d, side, filter, full) && Wrote(d, b, h, side, "", filter, map[], m)
    ensures WithoutSkipped(b, h, full, m)
  {
    hide Skipped, ListsAllowed, Wrote;
    forall p | p in m ensures !Skipped(b, h, p) && Unchanged(full, m, p) {
      WalkedFrom(d, b, h, side, filter, full, m, p);
    }
    forall p | p in full && !Skipped(b, h, p) ensures p in m {
      WalkedTo(d, b, h, side, filter, full, m, p);
    }
  }

  /** A change of the mode and nothing else that is compared or stored as content. */
  predicate ModeOnly(c: Change) {
    c.status == Modified && c.before.hash == c.after.hash && c.before.chunks == c.after.chunks &&
    c.before.mode != c.after.mode
  }

  lemma SkippedChangesModeOnly(d: Digest, b: MaybeTree, h: MaybeTree, filter: Filter, o: Entries, n: Entries, p: string)
    requires Trusted(d, b, h) && ListsAllowed(d, b, filter, o) && ListsAllowed(d, h, filter, n) && Skipped(b, h, p)
    ensures ChangeAt(o, n, p).Differs? ==> ModeOnly(ChangeAt(o, n, p).change)
  {
    hide Allowed, Skipped, HoldsIn, Trusted;
    if p in n {
      SkippedOnBoth(d, b, h, filter, o, n, p);
    }
    if p in o {
      var f :| HoldsIn(b, p, f);
      var g := SkippedAlike(d, b, h, p, f);
      assert HasEntry(d, n, p, g) && HasEntry(d, o, p, f);
    }
  }

  lemma SkippedOnBoth(d: Digest, b: MaybeTree, h: MaybeTree, filter: Filter, o: Entries, n: Entries, p: string)
    requires Trusted(d, b, h) && ListsAllowed(d, b, filter, o) && ListsAllowed(d, h, filter, n) && Skipped(b, h, p)
    requires p in n
    ensures p in o
  {
    hide Allowed, Skipped, HoldsIn, Trusted;
    var g :| HoldsIn(h, p, g);
    TrustedFlip(d, b, h);
    SkippedFlip(b, h, p);
    var f := SkippedAlike(d, h, b, p, g);
    assert HasEntry(d, o, p, f);
  }

  /** The changes of the full comparison outside the skipped directories. */
  ghost predicate IsFastDiff(b: MaybeTree, h: MaybeTree, o: Entries, n: Entries, changes: seq<Change>) {
    && Order.StrictBy(changes, PathOf)
    && (forall c :: c in changes <==> ChangeAt(o, n, c.path) == Differs(c) && !Skipped(b, h, c.path))
  }

  /** The fast comparison lists exactly the changes of the full one that lie
      outside the directories of equal hash. */
  method ChangedPaths(d: Digest, base: MaybeTree, head: MaybeTree, filter: Filter) returns (changes: seq<Change>)
    requires WellFormedSide(base) && WellFormedSide(head) && Sound(filter)
    ensures forall o, n :: ListsAllowed(d, base, filter, o) && ListsAllowed(d, head, filter, n) ==>
      IsFastDiff(base, head, o, n, changes)
  {
    hide Wrote, WellFormed, IsDiff, Sound, ListsAllowed, IsFastDiff;
    var x, y := WalkChangedTrees(d, base, head, "", filter, map[], map[]);
    changes := Compare(x, y);
    forall o, n | ListsAllowed(d, base, filter, o) && ListsAllowed(d, head, filter, n)
      ensures IsFastDiff(base, head, o, n, changes)
    {
      WalkedIsPart(d, base, head, base, filter, o, x);
      WalkedIsPart(d, base, head, head, filter, n, y);
      PartDiff(base, head, o, n, x, y, changes);
    }
  }

  lemma PartDiff(b: MaybeTree, h: MaybeTree, o: Entries, n: Entries, x: Entries, y: Entries, changes: seq<Change>)
    requires WithoutSkipped(b, h, o, x) && WithoutSkipped(b, h, n, y) && IsDiff(x, y, changes)
    ensures IsFastDiff(b, h, o, n, changes)
  {
    hide Skipped, Order.StrictBy;
    forall p ensures if Skipped(b, h, p) then ChangeAt(x, y, p) == Same else ChangeAt(x, y, p) == ChangeAt(o, n, p) {
      assert if Skipped(b, h, p) then p !in x && p !in y else Unchanged(o, x, p) && Unchanged(n, y, p);
    }
  }

  /** Every change the fast comparison leaves out is of the mode alone. */
  lemma FastDiffRefines(d: Digest, b: MaybeTree, h: MaybeTree, filter: Filter, o: Entries, n: Entries,
                        full: seq<Change>, fast: seq<Change>, c: Change)
    requires Trusted(d, b, h) && ListsAllowed(d, b, filter, o) && ListsAllowed(d, h, filter, n)
    requires IsDiff(o, n, full) && IsFastDiff(b, h, o, n, fast)
    ensures c in fast ==> c in full
    ensures c in full && c !in fast ==> ModeOnly(c) && Skipped(b, h, c.path)
  {
    hide Skipped, Trusted, ListsAllowed, ModeOnly, Order.StrictBy;
    if Skipped(b, h, c.path) {
      SkippedChangesModeOnly(d, b, h, filter, o, n, c.path);
    }
  }

  /** A change of the mode is left out: modes are not part of the hash. */
  lemma ModeChangeLeftOut(d: Digest, name: string)
    requires GoodName(name) && d(TreeStream([Child(FILE_KIND, name, FileHash(d, []))], [])) != ZERO
    ensures exists t, u, f, g ::
      && WellFormed(t) && WellFormed(u) && WellHashed(d, t) && WellHashed(d, u)
      && Holds(t, name, f) && Holds(u, name, g) && f.mode != g.mode
      && Skipped(Present(t), Present(u), name)
  {
    hide TreeStream, FileHash;
    var f := File(name, 0, 0, false, "", FileHash(d, []), []);
    var g := f.(mode := 1);
    var stored := d(TreeStream([Child(FILE_KIND, name, FileHash(d, []))], []));
    var t := Tree(stored, [f], []);
    var u := Tree(stored, [g], []);
    OneFile(d, t, f);
    OneFile(d, u, g);
    assert Holds(t, name, f) && Holds(u, name, g);
    assert Skipped(Present(t), Present(u), name);
  }

  lemma OneFile(d: Digest, t: Tree, f: File)
    requires t.files == [f] && t.dirs == [] && GoodName(f.name) && f.hash == FileHash(d, f.chunks)
    requires t.hash == d(TreeStream([Child(FILE_KIND, f.name, f.hash)], []))
    ensures WellFormed(t) && WellHashed(d, t)
  {
    hide TreeStream, FileHash;
    assert FileChildren([f]) == [Child(FILE_KIND, f.name, f.hash)];
    assert DirChildren([]) == [];
  }
}
