/** The tree manifest served to a client: the stored tree cut down to what the
    permissions and the sparse prefixes let through, hashed again. */
module Manifest {
  import opened Prefix
  import opened PathFilter
  import opened TreeHash
  import opened Trees

  const ROOT_IGNORE_FILE := ".nipaignore"

  predicate KeepRootIgnoreFile(path: string, name: string, sparse: PrefixSet) {
    path == "" && name == ROOT_IGNORE_FILE && |sparse| != 0
  }

  /** A file is served at this path: allowed, and covered or the root ignore file. */
  ghost predicate Visible(filter: Filter, sparse: PrefixSet, p: string) {
    Allowed(filter, p) && (SetCovers(sparse, p) || (p == ROOT_IGNORE_FILE && |sparse| != 0))
  }

  lemma IgnoreFileAtRoot(path: string, name: string, sparse: PrefixSet)
    requires GoodName(name)
    ensures KeepRootIgnoreFile(path, name, sparse) <==> Join(path, name) == ROOT_IGNORE_FILE && |sparse| != 0
  {
    if path != "" {
      assert Join(path, name)[|path|] == '/';
      assert '/' in Join(path, name);
    }
  }

  /** A directory above a visible file is entered. */
  lemma VisibleEnters(filter: Filter, sparse: PrefixSet, dir: string, p: string)
    requires Sound(filter) && Visible(filter, sparse, p)
    requires Clean(dir) && Clean(p) && Inside(dir, p)
    ensures Enters(filter, dir) && SetCanDescend(sparse, dir)
  {
    hide Allowed, Enters, SetCovers, SetCanDescend, Clean;
    AllowedEnters(filter, dir, p);
    SlashAfter(dir, p);
    SetCoversDescends(sparse, dir, p);
  }

  method IsVisible(filter: Filter, sparse: PrefixSet, path: string, name: string) returns (r: bool)
    requires GoodName(name)
    ensures r == Visible(filter, sparse, Join(path, name))
  {
    hide Allowed, SetCovers, Join, JoinTreePath, KeepRootIgnoreFile, GoodName;
    JoinTreePathIsJoin(path, name);
    IgnoreFileAtRoot(path, name, sparse);
    var p := JoinTreePath(path, name);
    r := Allow(filter, p);
    if r {
      r := Covers(sparse, p);
      if !r {
        r := KeepRootIgnoreFile(path, name, sparse);
      }
    }
  }

  // ---- what a filtered tree holds ----

  /** r holds exactly the visible files of t, seen from `path`. */
  ghost predicate Filtered(filter: Filter, sparse: PrefixSet, path: string, t: Tree, r: Tree) {
    forall q, f :: Holds(r, q, f) <==> Holds(t, q, f) && Visible(filter, sparse, Join(path, q))
  }

  ghost predicate NothingVisible(filter: Filter, sparse: PrefixSet, path: string, t: Tree) {
    forall q, f :: Holds(t, q, f) ==> !Visible(filter, sparse, Join(path, q))
  }

  ghost predicate FilesFiltered(filter: Filter, sparse: PrefixSet, path: string, fs: seq<File>, kept: seq<File>) {
    && UniqueFiles(kept)
    && (forall f :: f in kept <==> f in fs && Visible(filter, sparse, Join(path, f.name)))
  }

  ghost predicate SubFiltered(filter: Filter, sparse: PrefixSet, path: string, s: Sub, r: Sub) {
    s.name == r.name && Filtered(filter, sparse, Join(path, s.name), s.tree, r.tree)
  }

  /** Every kept directory is a filtered one of ds, and a directory of ds that is
      not kept shows nothing. */
  ghost predicate DirsFiltered(filter: Filter, sparse: PrefixSet, path: string, ds: seq<Sub>, kept: seq<Sub>) {
    && (forall r :: r in kept ==> exists s :: s in ds && SubFiltered(filter, sparse, path, s, r))
    && (forall s :: s in ds ==>
          || NothingVisible(filter, sparse, Join(path, s.name), s.tree)
          || (exists r :: r in kept && SubFiltered(filter, sparse, path, s, r)))
  }

  /** The step from the children to the directory. */
  lemma FilteredNode(filter: Filter, sparse: PrefixSet, path: string, t: Tree, r: Tree)
    requires WellFormed(t)
    requires FilesFiltered(filter, sparse, path, t.files, r.files) && DirsFiltered(filter, sparse, path, t.dirs, r.dirs)
    ensures Filtered(filter, sparse, path, t, r)
  {
    hide Visible, WellFormed, GoodName, Inside;
    forall q, f | Holds(t, q, f) && Visible(filter, sparse, Join(path, q)) ensures Holds(r, q, f) {
      if f in t.files && f.name == q {
      } else {
        var s :| s in t.dirs && Inside(s.name, q) && Holds(s.tree, Below(s.name, q), f);
        BelowJoins(s.name, q);
        NamesGood(t, s);
        JoinJoin(path, s.name, Below(s.name, q));
        assert !NothingVisible(filter, sparse, Join(path, s.name), s.tree);
        var u :| u in r.dirs && SubFiltered(filter, sparse, path, s, u);
        HoldsThrough(r, u, Below(s.name, q), f);
      }
    }
    forall q, f | Holds(r, q, f) ensures Holds(t, q, f) && Visible(filter, sparse, Join(path, q)) {
      if f in r.files && f.name == q {
      } else {
        var u :| u in r.dirs && Inside(u.name, q) && Holds(u.tree, Below(u.name, q), f);
        BelowJoins(u.name, q);
        var s :| s in t.dirs && SubFiltered(filter, sparse, path, s, u);
        NamesGood(t, s);
        JoinJoin(path, s.name, Below(s.name, q));
        HoldsThrough(t, s, Below(s.name, q), f);
      }
    }
  }

  /** A directory that is not entered shows nothing. */
  lemma PrunedShowsNothing(filter: Filter, sparse: PrefixSet, dir: string, t: Tree)
    requires Sound(filter) && WellFormed(t) && Clean(dir)
    requires !Enters(filter, dir) || !SetCanDescend(sparse, dir)
    ensures NothingVisible(filter, sparse, dir, t)
  {
    hide Visible, Enters, SetCanDescend, Clean, Sound, WellFormed;
    forall q, f | Holds(t, q, f) ensures !Visible(filter, sparse, Join(dir, q)) {
      if Visible(filter, sparse, Join(dir, q)) {
        HoldsClean(t, q, f);
        CleanNotEmpty(dir);
        JoinClean(dir, q);
        VisibleEnters(filter, sparse, dir, Join(dir, q));
      }
    }
  }

  lemma CleanNotEmpty(dir: string)
    requires Clean(dir)
    ensures dir != ""
  {
  }

  /** No directory is left without files below it. */
  ghost predicate NoEmptyDirs(t: Tree) {
    forall s :: s in t.dirs ==> (s.tree.files != [] || s.tree.dirs != []) && NoEmptyDirs(s.tree)
  }

  /** In a tree without empty directories every directory leads to a file. */
  lemma {:induction false} NoEmptyDirsMeans(t: Tree)
    requires NoEmptyDirs(t) && (t.files != [] || t.dirs != [])
    ensures exists q, f :: Holds(t, q, f)
  {
    if t.files != [] {
      assert Holds(t, t.files[0].name, t.files[0]);
    } else {
      var s := t.dirs[0];
      NoEmptyDirsMeans(s.tree);
      var q, f :| Holds(s.tree, q, f);
      HoldsThrough(t, s, q, f);
    }
  }

  // ---- loading ----

  method LoadFiles(files: seq<File>, path: string, filter: Filter, sparse: PrefixSet) returns (kept: seq<File>)
    requires UniqueFiles(files) && forall f :: f in files ==> GoodName(f.name)
    ensures FilesFiltered(filter, sparse, path, files, kept)
  {
    hide Visible, GoodName;
    kept := [];
    var i := 0;
    while i < |files|
      invariant 0 <= i <= |files|
      invariant FilesFiltered(filter, sparse, path, files[..i], kept)
    {
      var ok := IsVisible(filter, sparse, path, files[i].name);
      KeepFile(files, i, kept, path, filter, sparse);
      if ok {
        kept := kept + [files[i]];
      }
      i := i + 1;
    }
    assert files[..i] == files;
  }

  lemma KeepFile(files: seq<File>, i: nat, kept: seq<File>, path: string, filter: Filter, sparse: PrefixSet)
    requires UniqueFiles(files) && i < |files| && FilesFiltered(filter, sparse, path, files[..i], kept)
    ensures FilesFiltered(filter, sparse, path, files[..i + 1],
      if Visible(filter, sparse, Join(path, files[i].name)) then kept + [files[i]] else kept)
  {
    hide Visible;
    assert files[..i + 1] == files[..i] + [files[i]];
    forall k | 0 <= k < |kept| ensures kept[k].name != files[i].name {
      assert kept[k] in files[..i];
      var j :| 0 <= j < i && files[..i][j] == kept[k];
      assert files[j] == kept[k];
    }
  }

  /** The kept directories so far, with the names they may use. */
  ghost predicate KeptDirs(kept: seq<Sub>, done: seq<Sub>) {
    && UniqueDirs(kept)
    && (forall r :: r in kept ==>
          WellFormed(r.tree) && NoEmptyDirs(r.tree) && (r.tree.files != [] || r.tree.dirs != []))
    && (forall r :: r in kept ==> GoodName(r.name) && exists s :: s in done && s.name == r.name)
  }

  lemma KeepDir(ds: seq<Sub>, i: nat, kept: seq<Sub>, r: Tree)
    requires UniqueDirs(ds) && i < |ds| && KeptDirs(kept, ds[..i]) && GoodName(ds[i].name)
    requires WellFormed(r) && NoEmptyDirs(r) && (r.files != [] || r.dirs != [])
    ensures KeptDirs(kept + [Sub(ds[i].name, r)], ds[..i + 1])
  {
    hide WellFormed, NoEmptyDirs, GoodName;
    assert ds[..i + 1] == ds[..i] + [ds[i]];
    forall k | 0 <= k < |kept| ensures kept[k].name != ds[i].name {
      assert kept[k] in kept;
      var s :| s in ds[..i] && s.name == kept[k].name;
      var j :| 0 <= j < i && ds[..i][j] == s;
      assert ds[j] == s;
    }
  }

  lemma SkipDir(ds: seq<Sub>, i: nat, kept: seq<Sub>)
    requires i < |ds| && KeptDirs(kept, ds[..i])
    ensures KeptDirs(kept, ds[..i + 1])
  {
    hide WellFormed, NoEmptyDirs, GoodName;
    assert ds[..i + 1] == ds[..i] + [ds[i]];
    forall r | r in kept ensures exists s :: s in ds[..i + 1] && s.name == r.name {
      var s :| s in ds[..i] && s.name == r.name;
      assert s in ds[..i + 1];
    }
  }

  lemma DirsFilteredKeep(filter: Filter, sparse: PrefixSet, path: string, ds: seq<Sub>, i: nat, kept: seq<Sub>, r: Tree)
    requires i < |ds| && DirsFiltered(filter, sparse, path, ds[..i], kept)
    requires Filtered(filter, sparse, Join(path, ds[i].name), ds[i].tree, r)
    ensures DirsFiltered(filter, sparse, path, ds[..i + 1], kept + [Sub(ds[i].name, r)])
  {
    hide Filtered, NothingVisible;
    var u := Sub(ds[i].name, r);
    assert ds[..i + 1] == ds[..i] + [ds[i]];
    assert SubFiltered(filter, sparse, path, ds[i], u) && u in kept + [u];
    forall s | s in ds[..i + 1] && !NothingVisible(filter, sparse, Join(path, s.name), s.tree)
      ensures exists w :: w in kept + [u] && SubFiltered(filter, sparse, path, s, w)
    {
      if s in ds[..i] {
        var w :| w in kept && SubFiltered(filter, sparse, path, s, w);
        assert w in kept + [u];
      }
    }
  }

  lemma DirsFilteredSkip(filter: Filter, sparse: PrefixSet, path: string, ds: seq<Sub>, i: nat, kept: seq<Sub>)
    requires i < |ds| && DirsFiltered(filter, sparse, path, ds[..i], kept)
    requires NothingVisible(filter, sparse, Join(path, ds[i].name), ds[i].tree)
    ensures DirsFiltered(filter, sparse, path, ds[..i + 1], kept)
  {
    hide Filtered, NothingVisible, SubFiltered;
    assert ds[..i + 1] == ds[..i] + [ds[i]];
  }

  lemma EmptyShowsNothing(filter: Filter, sparse: PrefixSet, path: string, t: Tree, r: Tree)
    requires Filtered(filter, sparse, path, t, r) && r.files == [] && r.dirs == []
    ensures NothingVisible(filter, sparse, path, t)
  {
    hide Visible;
    forall q, f ensures !Holds(r, q, f) {}
  }

  /** A loaded sub-directory: what it shows, or nothing when it is pruned or empty. */
  datatype Loaded = Dropped | Loaded(tree: Tree)

  ghost predicate LoadedRight(filter: Filter, sparse: PrefixSet, dir: string, t: Tree, l: Loaded) {
    match l
    case Dropped => NothingVisible(filter, sparse, dir, t)
    case Loaded(r) =>
      && WellFormed(r) && NoEmptyDirs(r) && (r.files != [] || r.dirs != [])
      && Filtered(filter, sparse, dir, t, r)
  }

  method LoadChild(t: Tree, dir: string, filter: Filter, sparse: PrefixSet) returns (l: Loaded)
    requires WellFormed(t) && Clean(dir) && Sound(filter)
    ensures LoadedRight(filter, sparse, dir, t, l)
    decreases t, 1
  {
    hide WellFormed, Visible, Enters, SetCanDescend, Filtered, NothingVisible, NoEmptyDirs, Clean, Sound;
    var entered := Enter(filter, dir);
    if entered {
      entered := CanDescend(sparse, dir);
    }
    if !entered {
      PrunedShowsNothing(filter, sparse, dir, t);
      return Dropped;
    }
    var sub := LoadTreeManifest(t, dir, true, filter, sparse);
    if |sub.files| == 0 && |sub.dirs| == 0 {
      EmptyShowsNothing(filter, sparse, dir, t, sub);
      return Dropped;
    }
    return Loaded(sub);
  }

  /** The directories kept so far. */
  ghost predicate DirsLoaded(filter: Filter, sparse: PrefixSet, path: string, ds: seq<Sub>, kept: seq<Sub>) {
    KeptDirs(kept, ds) && DirsFiltered(filter, sparse, path, ds, kept)
  }

  lemma NextLoaded(filter: Filter, sparse: PrefixSet, path: string, ds: seq<Sub>, i: nat, kept: seq<Sub>, l: Loaded)
    requires i < |ds| && UniqueDirs(ds) && GoodName(ds[i].name) && DirsLoaded(filter, sparse, path, ds[..i], kept)
    requires LoadedRight(filter, sparse, Join(path, ds[i].name), ds[i].tree, l)
    ensures DirsLoaded(filter, sparse, path, ds[..i + 1], if l.Loaded? then kept + [Sub(ds[i].name, l.tree)] else kept)
  {
    hide WellFormed, Filtered, NothingVisible, NoEmptyDirs, GoodName, KeptDirs, DirsFiltered, Join, UniqueDirs;
    if l.Loaded? {
      KeepDir(ds, i, kept, l.tree);
      DirsFilteredKeep(filter, sparse, path, ds, i, kept, l.tree);
    } else {
      SkipDir(ds, i, kept);
      DirsFilteredSkip(filter, sparse, path, ds, i, kept);
    }
  }

  lemma NoneLoaded(filter: Filter, sparse: PrefixSet, path: string, ds: seq<Sub>)
    ensures DirsLoaded(filter, sparse, path, ds[..0], [])
  {
  }

  method LoadTreeManifest(t: Tree, path: string, recursive: bool, filter: Filter, sparse: PrefixSet) returns (r: Tree)
    requires WellFormed(t) && GoodPath(path) && Sound(filter)
    ensures WellFormed(r) && NoEmptyDirs(r) && r.hash == t.hash
    ensures recursive ==> Filtered(filter, sparse, path, t, r)
    ensures !recursive ==> r.dirs == [] && FilesFiltered(filter, sparse, path, t.files, r.files)
    decreases t, 0
  {
    hide WellFormed, Filtered, NoEmptyDirs, FilesFiltered, Clean, Sound, DirsLoaded, LoadedRight, GoodPath, UniqueFiles,
      UniqueDirs, Join, GoodName;
    Formation(t);
    var files := LoadFiles(t.files, path, filter, sparse);
    r := Tree(t.hash, files, []);
    if !recursive {
      LeafForm(r, t, path, filter, sparse);
      return;
    }
    var kept: seq<Sub> := [];
    var i := 0;
    NoneLoaded(filter, sparse, path, t.dirs);
    while i < |t.dirs|
      invariant 0 <= i <= |t.dirs| && DirsLoaded(filter, sparse, path, t.dirs[..i], kept)
    {
      var child := t.dirs[i];
      ChildOf(t, child, path);
      var loaded := LoadChild(child.tree, JoinTreePath(path, child.name), filter, sparse);
      NextLoaded(filter, sparse, path, t.dirs, i, kept, loaded);
      if loaded.Loaded? {
        kept := kept + [Sub(child.name, loaded.tree)];
      }
      i := i + 1;
    }
    assert t.dirs[..i] == t.dirs;
    r := Tree(t.hash, files, kept);
    NodeForm(r, t, path, filter, sparse);
  }

  lemma Formation(t: Tree)
    requires WellFormed(t)
    ensures UniqueFiles(t.files) && UniqueDirs(t.dirs) && forall f :: f in t.files ==> GoodName(f.name)
  {
    hide GoodName;
  }

  lemma ChildOf(t: Tree, s: Sub, path: string)
    requires WellFormed(t) && s in t.dirs && GoodPath(path)
    ensures WellFormed(s.tree) && GoodName(s.name)
    ensures JoinTreePath(path, s.name) == Join(path, s.name) && Clean(Join(path, s.name))
  {
    hide WellFormed;
    NamesGood(t, s);
    JoinTreePathIsJoin(path, s.name);
    JoinClean(path, s.name);
  }

  lemma LeafForm(r: Tree, t: Tree, path: string, filter: Filter, sparse: PrefixSet)
    requires WellFormed(t) && r.dirs == [] && FilesFiltered(filter, sparse, path, t.files, r.files)
    ensures WellFormed(r) && NoEmptyDirs(r)
  {
    hide GoodName, Visible, Join;
  }

  lemma NodeForm(r: Tree, t: Tree, path: string, filter: Filter, sparse: PrefixSet)
    requires WellFormed(t) && FilesFiltered(filter, sparse, path, t.files, r.files)
    requires DirsLoaded(filter, sparse, path, t.dirs, r.dirs)
    ensures WellFormed(r) && NoEmptyDirs(r) && Filtered(filter, sparse, path, t, r)
  {
    hide GoodName, Visible, Filtered, DirsFiltered, Join;
    FilteredNode(filter, sparse, path, t, r);
  }

  // ---- rehashing ----

  /** Every file carries the digest of its chunks. */
  ghost predicate FilesHashed(d: Digest, t: Tree) {
    forall q, f :: Holds(t, q, f) ==> f.hash == FileHash(d, f.chunks)
  }

  ghost predicate SameFiles(t: Tree, r: Tree) {
    forall q, f :: Holds(r, q, f) <==> Holds(t, q, f)
  }

  lemma {:induction false} WellHashedFiles(d: Digest, t: Tree, q: string, f: File)
    requires WellHashed(d, t) && Holds(t, q, f)
    ensures f.hash == FileHash(d, f.chunks)
    decreases t
  {
    if f in t.files && f.name == q {
    } else {
      var s :| s in t.dirs && Inside(s.name, q) && Holds(s.tree, Below(s.name, q), f);
      WellHashedFiles(d, s.tree, Below(s.name, q), f);
    }
  }

  ghost predicate SubRehashed(d: Digest, s: Sub, r: Sub) {
    r.name == s.name && WellFormed(r.tree) && WellHashed(d, r.tree) && SameFiles(s.tree, r.tree)
  }

  ghost predicate Rehashed(d: Digest, ds: seq<Sub>, rs: seq<Sub>) {
    |rs| == |ds| && forall i :: 0 <= i < |ds| ==> SubRehashed(d, ds[i], rs[i])
  }

  lemma RehashedForm(d: Digest, t: Tree, r: Tree)
    requires WellFormed(t) && r.files == t.files && Rehashed(d, t.dirs, r.dirs)
    ensures WellFormed(r)
  {
    hide WellHashed, SameFiles, GoodName;
    forall s | s in r.dirs ensures GoodName(s.name) && WellFormed(s.tree) {
      var i :| 0 <= i < |r.dirs| && r.dirs[i] == s;
      assert SubRehashed(d, t.dirs[i], s) && t.dirs[i] in t.dirs;
    }
    forall i, j | 0 <= i < j < |r.dirs| ensures r.dirs[i].name != r.dirs[j].name {
      assert SubRehashed(d, t.dirs[i], r.dirs[i]) && SubRehashed(d, t.dirs[j], r.dirs[j]);
    }
  }

  lemma RehashedSame(d: Digest, t: Tree, r: Tree)
    requires r.files == t.files && Rehashed(d, t.dirs, r.dirs)
    ensures SameFiles(t, r)
  {
    hide WellHashed, WellFormed, Inside;
    forall q, f | Holds(t, q, f) ensures Holds(r, q, f) {
      if !(f in t.files && f.name == q) {
        var s :| s in t.dirs && Inside(s.name, q) && Holds(s.tree, Below(s.name, q), f);
        var i :| 0 <= i < |t.dirs| && t.dirs[i] == s;
        assert SubRehashed(d, s, r.dirs[i]);
        BelowJoins(s.name, q);
        HoldsThrough(r, r.dirs[i], Below(s.name, q), f);
      }
    }
    forall q, f | Holds(r, q, f) ensures Holds(t, q, f) {
      if !(f in r.files && f.name == q) {
        var s :| s in r.dirs && Inside(s.name, q) && Holds(s.tree, Below(s.name, q), f);
        var i :| 0 <= i < |r.dirs| && r.dirs[i] == s;
        assert SubRehashed(d, t.dirs[i], s);
        BelowJoins(s.name, q);
        HoldsThrough(t, t.dirs[i], Below(s.name, q), f);
      }
    }
  }

  lemma FilesHashedBelow(d: Digest, t: Tree, s: Sub)
    requires FilesHashed(d, t) && s in t.dirs
    ensures FilesHashed(d, s.tree)
  {
    forall q, f | Holds(s.tree, q, f) ensures f.hash == FileHash(d, f.chunks) {
      HoldsThrough(t, s, q, f);
    }
  }

  lemma RehashedHashes(d: Digest, t: Tree, r: Tree)
    requires FilesHashed(d, t) && r.files == t.files && Rehashed(d, t.dirs, r.dirs) && r.hash == d(Serialised(r))
    ensures WellHashed(d, r)
  {
    hide WellFormed, SameFiles, Serialised;
    forall f | f in r.files ensures f.hash == FileHash(d, f.chunks) {
      assert Holds(t, f.name, f);
    }
    forall s | s in r.dirs ensures WellHashed(d, s.tree) {
      var i :| 0 <= i < |r.dirs| && r.dirs[i] == s;
      assert SubRehashed(d, t.dirs[i], s);
    }
  }

  /** Writes every directory's hash anew, bottom up. */
  method RehashTree(d: Digest, t: Tree) returns (r: Tree)
    requires WellFormed(t) && FilesHashed(d, t)
    ensures WellFormed(r) && WellHashed(d, r) && SameFiles(t, r)
    ensures r.files == t.files && |r.dirs| == |t.dirs|
    decreases t
  {
    hide FilesHashed, SameFiles, GoodName, TreeStream, WellHashed, SubRehashed;
    var subs: seq<Sub> := [];
    var i := 0;
    while i < |t.dirs|
      invariant 0 <= i <= |t.dirs|
      invariant Rehashed(d, t.dirs[..i], subs)
    {
      FilesHashedBelow(d, t, t.dirs[i]);
      NamesGood(t, t.dirs[i]);
      var sub := RehashTree(d, t.dirs[i].tree);
      RehashOne(d, t.dirs[i], Sub(t.dirs[i].name, sub));
      subs := subs + [Sub(t.dirs[i].name, sub)];
      i := i + 1;
    }
    assert t.dirs[..i] == t.dirs;
    var hash := HashTree(d, FileChildren(t.files), DirChildren(subs));
    r := Tree(hash, t.files, subs);
    RehashedForm(d, t, r);
    RehashedSame(d, t, r);
    RehashedHashes(d, t, r);
  }

  lemma RehashOne(d: Digest, s: Sub, r: Sub)
    requires r.name == s.name && WellFormed(r.tree) && WellHashed(d, r.tree) && SameFiles(s.tree, r.tree)
    ensures SubRehashed(d, s, r)
  {
  }

  // ---- sparse paths ----

  /** The path cut at its slashes. */
  function Segments(p: string): seq<string>
    decreases |p|
  {
    if '/' !in p then [p] else [Head(p)] + Segments(Below(Head(p), p))
  }

  /** Going down the named directories; empty segments stay where they are. */
  ghost function DirAt(o: MaybeTree, segments: seq<string>): MaybeTree
    decreases |segments|
  {
    if segments == [] then o
    else DirAt(if segments[0] == "" then o else SubDir(o, segments[0]), segments[1..])
  }

  lemma {:induction false} MissingStays(segments: seq<string>)
    ensures DirAt(Missing, segments) == Missing
  {
    if segments != [] {
      MissingStays(segments[1..]);
    }
  }

  method FindTreeNode(t: Tree, path: string) returns (o: MaybeTree)
    requires WellFormed(t)
    ensures o == DirAt(Present(t), Segments(Trim(path)))
  {
    hide WellFormed, Trim;
    var segments := Segments(Trim(path));
    var node := t;
    var i := 0;
    assert segments[0..] == segments;
    while i < |segments|
      invariant 0 <= i <= |segments| && WellFormed(node)
      invariant DirAt(Present(node), segments[i..]) == DirAt(Present(t), segments)
    {
      assert segments[i..][0] == segments[i] && segments[i..][1..] == segments[i + 1..];
      if segments[i] != "" {
        var child := Lookup(Present(node), segments[i]);
        ChildWellFormed(Present(node), segments[i]);
        if child.Missing? {
          MissingStays(segments[i + 1..]);
          return Missing;
        }
        node := child.tree;
      }
      i := i + 1;
    }
    o := Present(node);
  }

  /** The directory found holds what the tree holds below its path. */
  lemma {:induction false} FoundHolds(t: MaybeTree, p: string, q: string, f: File)
    requires WellFormedSide(t) && GoodRel(p)
    ensures HoldsIn(t, p + "/" + q, f) <==> HoldsIn(DirAt(t, Segments(p)), q, f)
    decreases |p|
  {
    hide WellFormed, HoldsIn, Head, Inside, Segments, DirAt;
    if '/' in p {
      var n := Head(p);
      var r := Below(n, p);
      BelowJoins(n, p);
      LessBelow(n, p);
      assert p + "/" + q == n + "/" + (r + "/" + q);
      FirstHolds(t, n, r + "/" + q, f);
      SegmentsFirst(t, p);
      ChildWellFormed(t, n);
      FoundHolds(SubDir(t, n), r, q, f);
    } else {
      FirstHolds(t, p, q, f);
      SegmentsOne(t, p);
    }
  }

  lemma LessBelow(n: string, p: string)
    requires Inside(n, p)
    ensures |Below(n, p)| < |p|
  {
  }

  lemma SegmentsFirst(t: MaybeTree, p: string)
    requires '/' in p && Head(p) != ""
    ensures DirAt(t, Segments(p)) == DirAt(SubDir(t, Head(p)), Segments(Below(Head(p), p)))
  {
    hide Head, Inside;
    assert Segments(p)[1..] == Segments(Below(Head(p), p));
  }

  lemma SegmentsOne(t: MaybeTree, p: string)
    requires '/' !in p && p != ""
    ensures DirAt(t, Segments(p)) == SubDir(t, p)
  {
    assert [p][1..] == [];
    assert DirAt(SubDir(t, p), []) == SubDir(t, p);
  }

  /** Below a directory of the tree. */
  lemma FirstHolds(t: MaybeTree, n: string, r: string, f: File)
    requires WellFormedSide(t) && '/' !in n && n != ""
    ensures HoldsIn(t, n + "/" + r, f) <==> HoldsIn(SubDir(t, n), r, f)
  {
    hide WellFormed, HoldsIn, Head;
    var path := n + "/" + r;
    assert Inside(n, path) && Below(n, path) == r;
    HeadIs(n, path);
    HoldsInChild(t, path, f);
  }

  /** The prefix may be asked for: it can be entered and names a directory. */
  ghost predicate Known(t: Tree, filter: Filter, prefix: string) {
    prefix == "" || (Enters(filter, prefix) && DirAt(Present(t), Segments(Trim(prefix))).Present?)
  }

  datatype Verdict = Verified | Unknown(prefix: string)

  /** Refuses the first sparse prefix that is hidden or names no directory. */
  method VerifySparsePaths(t: Tree, sparse: PrefixSet, filter: Filter) returns (r: Verdict)
    requires WellFormed(t)
    ensures r.Verified? ==> forall p :: p in sparse ==> Known(t, filter, p)
    ensures r.Unknown? ==> r.prefix in sparse && !Known(t, filter, r.prefix)
  {
    hide WellFormed, Enters, Trim, Segments;
    var i := 0;
    while i < |sparse|
      invariant 0 <= i <= |sparse| && forall k :: 0 <= k < i ==> Known(t, filter, sparse[k])
    {
      if sparse[i] != "" {
        var entered := Enter(filter, sparse[i]);
        if !entered {
          return Unknown(sparse[i]);
        }
        var node := FindTreeNode(t, sparse[i]);
        if node.Missing? {
          return Unknown(sparse[i]);
        }
      }
      i := i + 1;
    }
    r := Verified;
  }

  // ---- the manifest ----

  /** The hash a client may send along. */
  datatype ClientHash = NoHash | ClientHash(hash: Hash)

  datatype Reply = NotModified | Served(root: Tree) | NotFound(prefix: string)

  /** The filter permits every path. */
  predicate PermitsAll(f: Filter) {
    f.AllowAll? || (f.Compiled? && f.permissions.orgOwner)
  }

  /** r is the manifest of t: cut down to what is visible and hashed again. */
  ghost predicate IsManifest(d: Digest, t: Tree, recursive: bool, filter: Filter, sparse: PrefixSet, r: Tree) {
    && WellFormed(r) && WellHashed(d, r)
    && if recursive then Filtered(filter, sparse, "", t, r)
       else r.dirs == [] && FilesFiltered(filter, sparse, "", t.files, r.files)
  }

  /** Cuts the tree down, hashes it again and answers "not modified" to a client
      that already names this hash, or the stored one where nothing is cut. Sparse
      prefixes that name no directory are refused. */
  method GetManifest(d: Digest, t: Tree, recursive: bool, filter: Filter, sparse: PrefixSet, known: ClientHash)
    returns (reply: Reply)
    requires WellFormed(t) && WellHashed(d, t) && Sound(filter)
    ensures reply.Served? ==>
      IsManifest(d, t, recursive, filter, sparse, reply.root) && known != ClientHash(reply.root.hash)
    ensures reply.Served? ==> !(known == ClientHash(t.hash) && |sparse| == 0 && PermitsAll(filter))
    ensures known == ClientHash(t.hash) && |sparse| == 0 && filter.AllowAll? ==> reply.NotModified?
    ensures known == ClientHash(t.hash) && |sparse| == 0 && filter.Compiled? && filter.permissions.orgOwner ==>
      reply.NotModified?
    ensures reply.NotFound? ==> reply.prefix in sparse && !Known(t, filter, reply.prefix)
    ensures !reply.NotFound? ==> forall p :: p in sparse ==> Known(t, filter, p)
    ensures reply.NotModified? ==>
      || (known == ClientHash(t.hash) && |sparse| == 0 && PermitsAll(filter))
      || (exists r :: IsManifest(d, t, recursive, filter, sparse, r) && known == ClientHash(r.hash))
  {
    hide WellFormed, WellHashed, Visible, Sound, Filtered, FilesFiltered, Known;
    if known == ClientHash(t.hash) && |sparse| == 0 && PermitsAll(filter) {
      return NotModified;
    }
    var verdict := VerifySparsePaths(t, sparse, filter);
    if verdict.Unknown? {
      return NotFound(verdict.prefix);
    }
    var cut := LoadTreeManifest(t, "", recursive, filter, sparse);
    CutHashed(d, t, cut, recursive, filter, sparse);
    var root := RehashTree(d, cut);
    SameFiltered(filter, sparse, t, cut, root);
    assert IsManifest(d, t, recursive, filter, sparse, root);
    reply := if known == ClientHash(root.hash) then NotModified else Served(root);
  }

  lemma CutHashed(d: Digest, t: Tree, cut: Tree, recursive: bool, filter: Filter, sparse: PrefixSet)
    requires WellHashed(d, t)
    requires if recursive then Filtered(filter, sparse, "", t, cut)
             else cut.dirs == [] && FilesFiltered(filter, sparse, "", t.files, cut.files)
    ensures FilesHashed(d, cut)
  {
    hide Visible, WellHashed;
    forall q, f | Holds(cut, q, f) ensures f.hash == FileHash(d, f.chunks) {
      if !recursive {
        assert f in t.files && Holds(t, f.name, f);
        WellHashedFiles(d, t, f.name, f);
      } else {
        WellHashedFiles(d, t, q, f);
      }
    }
  }

  lemma SameFiltered(filter: Filter, sparse: PrefixSet, t: Tree, cut: Tree, root: Tree)
    requires SameFiles(cut, root)
    ensures Filtered(filter, sparse, "", t, cut) ==> Filtered(filter, sparse, "", t, root)
  {
    hide Visible;
  }

  /** Where nothing is cut, the stored tree holds exactly the visible files. */
  lemma AllVisible(t: Tree, filter: Filter)
    requires PermitsAll(filter) && (filter.Compiled? ==> filter.permission <= ALL)
    ensures Filtered(filter, [], "", t, t)
  {
    forall p ensures Visible(filter, [], p) {
      if filter.Compiled? {
        assert IsEffective(filter.permissions, p, ALL);
      }
    }
  }

  /** A client whose own tree has the hash of the manifest (or of the stored tree,
      where nothing is cut) holds the visible files, content for content, and
      nothing else. */
  lemma NotModifiedMeansSame(d: Digest, client: Tree, r: Tree, t: Tree, filter: Filter, sparse: PrefixSet, q: string)
    requires WellFormed(client) && WellHashed(d, client) && WellFormed(r) && WellHashed(d, r)
    requires Filtered(filter, sparse, "", t, r)
    requires NoCollision(d, client, r) && client.hash == r.hash
    ensures forall f :: Holds(client, q, f) ==>
      Visible(filter, sparse, q) && exists g :: Holds(t, q, g) && SameContent(f, g)
    ensures forall g :: Holds(t, q, g) && Visible(filter, sparse, q) ==>
      exists f :: Holds(client, q, f) && SameContent(g, f)
  {
    hide WellFormed, WellHashed, Visible, NoCollision;
    assert Join("", q) == q;
    forall f | Holds(client, q, f)
      ensures Visible(filter, sparse, q) && exists g :: Holds(t, q, g) && SameContent(f, g)
    {
      var g := HashDecides(d, client, r, q, f);
    }
    forall g | Holds(t, q, g) && Visible(filter, sparse, q)
      ensures exists f :: Holds(client, q, f) && SameContent(g, f)
    {
      FlipCollision(d, client, r);
      var f := HashDecides(d, r, client, q, g);
    }
  }
}
