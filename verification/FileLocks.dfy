/** The file-lock table: exclusive locks on paths and path prefixes.

    Grants are serialised, but releases are not: rows may disappear between the
    moment a grant reads the table and the moment it writes. The state machine
    at the end interleaves them freely. */
module FileLocks {
  import opened Basics
  import opened Prefix

  datatype User = User(number: int)
  datatype Branch = Branch(number: int)
  datatype Request = Request(number: int)

  /** A lock without a branch belongs to the mainline. */
  datatype Lock = Lock(id: nat, branch: Option<Branch>, path: string, holder: User, request: Option<Request>)

  predicate Overlap(a: string, b: string) {
    PrefixCovers(a, b) || PrefixCovers(b, a)
  }

  ghost predicate DistinctIds(locks: seq<Lock>) {
    forall i, j :: 0 <= i < j < |locks| ==> locks[i].id != locks[j].id
  }

  ghost predicate CleanTable(locks: seq<Lock>) {
    forall l :: l in locks ==> Clean(l.path)
  }

  /** Overlapping locks of one scope have one holder. */
  ghost predicate Exclusive(locks: seq<Lock>) {
    forall l, m :: l in locks && m in locks && l.branch == m.branch && Overlap(l.path, m.path) ==> l.holder == m.holder
  }

  // ---- decisions over a listing of the table ----

  datatype Decision = Held(lock: Lock) | Conflict(lock: Lock) | Free

  /** Whether a lock stands in the way of, or already answers, a request. */
  predicate Concerns(l: Lock, path: string, branch: Option<Branch>) {
    l.branch == branch && Overlap(l.path, path)
  }

  /** The outcome of scanning the listing for a grant. */
  function Decide(locks: seq<Lock>, path: string, branch: Option<Branch>, holder: User): Decision {
    if locks == [] then Free
    else
      var l := locks[0];
      if !Concerns(l, path, branch) then Decide(locks[1..], path, branch, holder)
      else if l.holder != holder then Conflict(l)
      else if PrefixCovers(l.path, path) then Held(l)
      else Decide(locks[1..], path, branch, holder)
  }

  lemma {:induction false} DecideMeans(locks: seq<Lock>, path: string, branch: Option<Branch>, holder: User)
    ensures var d := Decide(locks, path, branch, holder);
            && (d.Free? ==> forall l :: l in locks && Concerns(l, path, branch) ==>
                              l.holder == holder && !PrefixCovers(l.path, path))
            && (d.Conflict? ==> d.lock in locks && Concerns(d.lock, path, branch) && d.lock.holder != holder)
            && (d.Held? ==>
                  d.lock in locks && d.lock.branch == branch && d.lock.holder == holder &&
                  PrefixCovers(d.lock.path, path))
  {
    hide PrefixCovers, Overlap;
    if locks != [] {
      DecideMeans(locks[1..], path, branch, holder);
    }
  }

  /** The first lock of the scope that covers the path. */
  function FindCovering(locks: seq<Lock>, branch: Option<Branch>, path: string): (r: Option<Lock>)
    ensures r.Some? ==> r.value in locks && r.value.branch == branch && PrefixCovers(r.value.path, path)
    ensures r.None? ==> forall l :: l in locks && l.branch == branch ==> !PrefixCovers(l.path, path)
  {
    if locks == [] then None
    else if locks[0].branch == branch && PrefixCovers(locks[0].path, path) then Some(locks[0])
    else FindCovering(locks[1..], branch, path)
  }

  /** Whichever covering lock comes first, its holder is everyone's holder. */
  lemma CoveringIsRepresentative(locks: seq<Lock>, branch: Option<Branch>, path: string, l: Lock)
    requires Exclusive(locks) && CleanTable(locks)
    requires l in locks && l.branch == branch && PrefixCovers(l.path, path)
    ensures FindCovering(locks, branch, path).Some? && FindCovering(locks, branch, path).value.holder == l.holder
  {
    hide PrefixCovers;
    var first := FindCovering(locks, branch, path);
    CoversComparable(first.value.path, l.path, path);
  }

  /** The gate for pushes: required paths must be covered by the caller's lock,
      checked paths must not be covered by somebody else's. */
  predicate Passes(locks: seq<Lock>, branch: Option<Branch>, required: seq<string>, checked: seq<string>,
                   holder: User) {
    && (forall i :: 0 <= i < |required| ==> OwnLock(locks, branch, required[i], holder))
    && (forall i :: 0 <= i < |checked| ==> NoForeignLock(locks, branch, checked[i], holder))
  }

  /** The first covering lock is the caller's. */
  predicate OwnLock(locks: seq<Lock>, branch: Option<Branch>, path: string, holder: User) {
    var l := FindCovering(locks, branch, path); l.Some? && l.value.holder == holder
  }

  /** There is no covering lock, or the first one is the caller's. */
  predicate NoForeignLock(locks: seq<Lock>, branch: Option<Branch>, path: string, holder: User) {
    var l := FindCovering(locks, branch, path); l.None? || l.value.holder == holder
  }

  method EnsureLocks(locks: seq<Lock>, branch: Option<Branch>, required: seq<string>, checked: seq<string>,
                     holder: User)
    returns (ok: bool)
    ensures ok == Passes(locks, branch, required, checked, holder)
  {
    if |required| == 0 && |checked| == 0 {
      return true;
    }
    ok := HoldsAll(locks, branch, required, holder);
    if ok {
      ok := NoneForeign(locks, branch, checked, holder);
    }
  }

  method HoldsAll(locks: seq<Lock>, branch: Option<Branch>, required: seq<string>, holder: User) returns (ok: bool)
    ensures ok == forall i :: 0 <= i < |required| ==> OwnLock(locks, branch, required[i], holder)
  {
    hide FindCovering;
    var i := 0;
    while i < |required|
      invariant 0 <= i <= |required| && forall k :: 0 <= k < i ==> OwnLock(locks, branch, required[k], holder)
    {
      var lock := FindCovering(locks, branch, required[i]);
      if lock.None? || lock.value.holder != holder {
        assert !OwnLock(locks, branch, required[i], holder);
        return false;
      }
      assert OwnLock(locks, branch, required[i], holder);
      i := i + 1;
    }
    return true;
  }

  method NoneForeign(locks: seq<Lock>, branch: Option<Branch>, checked: seq<string>, holder: User) returns (ok: bool)
    ensures ok == forall i :: 0 <= i < |checked| ==> NoForeignLock(locks, branch, checked[i], holder)
  {
    hide FindCovering, NoForeignLock;
    var i := 0;
    while i < |checked|
      invariant 0 <= i <= |checked| && forall k :: 0 <= k < i ==> NoForeignLock(locks, branch, checked[k], holder)
    {
      var lock := FindCovering(locks, branch, checked[i]);
      NoForeignIs(locks, branch, checked[i], holder);
      if lock.Some? && lock.value.holder != holder {
        return false;
      }
      i := i + 1;
    }
    return true;
  }

  lemma NoForeignIs(locks: seq<Lock>, branch: Option<Branch>, path: string, holder: User)
    ensures var l := FindCovering(locks, branch, path);
            NoForeignLock(locks, branch, path, holder) <==> l.None? || l.value.holder == holder
  {
    hide FindCovering;
  }

  /** Two users never both pass the gate for the same path, however each of
      them reads the table. */
  lemma OneUserPasses(locks: seq<Lock>, listing: seq<Lock>, branch: Option<Branch>, path: string, u: User, v: User,
                      ru: seq<string>, cu: seq<string>, rv: seq<string>, cv: seq<string>)
    requires Exclusive(locks) && CleanTable(locks) && (forall l :: l in listing <==> l in locks)
    requires Passes(locks, branch, ru, cu, u) && Passes(listing, branch, rv, cv, v)
    requires path in ru && path in rv
    ensures u == v
  {
    hide PrefixCovers, FindCovering;
    var i :| 0 <= i < |ru| && ru[i] == path;
    var j :| 0 <= j < |rv| && rv[j] == path;
    assert OwnLock(locks, branch, path, u) && OwnLock(listing, branch, path, v);
    var l := FindCovering(listing, branch, path).value;
    CoveringIsRepresentative(locks, branch, path, l);
  }

  // ---- what every change of the table keeps ----

  lemma SubsetExclusive(locks: seq<Lock>, kept: seq<Lock>)
    requires Exclusive(locks) && CleanTable(locks) && forall l :: l in kept ==> l in locks
    ensures Exclusive(kept) && CleanTable(kept)
  {
    hide Overlap;
  }

  /** Adding a lock keeps the table exclusive exactly when every lock it
      overlaps in its scope has the same holder. */
  lemma AddExclusive(locks: seq<Lock>, l: Lock)
    requires Exclusive(locks)
    ensures Exclusive(locks + [l]) <==>
            forall m :: m in locks && m.branch == l.branch && Overlap(m.path, l.path) ==> m.holder == l.holder
  {
    hide PrefixCovers;
    assert forall m :: m in locks + [l] <==> m in locks || m == l;
    if Exclusive(locks + [l]) {
      forall m | m in locks && m.branch == l.branch && Overlap(m.path, l.path)
        ensures m.holder == l.holder
      {
        assert m in locks + [l] && l in locks + [l];
      }
    }
  }

  /** A request-linked lock is added when nothing covers the path. That keeps
      the table exclusive exactly when no other user holds a lock strictly below
      the path. */
  lemma RequestLockExact(locks: seq<Lock>, l: Lock)
    requires Exclusive(locks) && CleanTable(locks) && Clean(l.path) && FindCovering(locks, l.branch, l.path).None?
    ensures Exclusive(locks + [l]) <==> NoForeignBelow(locks, l)
  {
    hide PrefixCovers, FindCovering;
    AddExclusive(locks, l);
    forall m | m in locks && m.branch == l.branch
      ensures Overlap(m.path, l.path) <==> Inside(l.path, m.path)
    {
      CoversClean(l.path, m.path);
      CoversClean(m.path, l.path);
    }
  }

  ghost predicate NoForeignBelow(locks: seq<Lock>, l: Lock) {
    forall m :: m in locks && m.branch == l.branch && Inside(l.path, m.path) ==> m.holder == l.holder
  }

  // ---- the table ----

  /** What a release removes. */
  datatype Release =
    | Row(path: string, branch: Option<Branch>)
    | Landed(branch: Option<Branch>, paths: seq<string>, holder: User)
    | OfRequest(request: Request)
    | OfBranch(b: Branch)
  {
    predicate Removes(l: Lock) {
      match this
      case Row(p, br) => l.path == p && l.branch == br
      case Landed(br, ps, h) => l.branch == br && l.holder == h && l.request.None? && l.path in ps
      case OfRequest(r) => l.request == Some(r)
      case OfBranch(br) => l.branch == Some(br)
    }
  }

  function Keep(locks: seq<Lock>, release: Release): (kept: seq<Lock>)
    ensures forall l :: l in kept <==> l in locks && !release.Removes(l)
  {
    if locks == [] then []
    else (if release.Removes(locks[0]) then [] else [locks[0]]) + Keep(locks[1..], release)
  }

  /** Which rows each release leaves. */
  lemma KeepMeans(locks: seq<Lock>, l: Lock, path: string, scope: Option<Branch>, request: Request, b: Branch)
    requires l in locks
    ensures l in Keep(locks, Row(path, scope)) <==> l.path != path || l.branch != scope
    ensures l in Keep(locks, OfRequest(request)) <==> l.request != Some(request)
    ensures l in Keep(locks, OfBranch(b)) <==> l.branch != Some(b)
  {
  }

  lemma KeepNone(release: Release)
    ensures Keep([], release) == []
  {
  }

  /** What a release leaves of one row. */
  function Left(l: Lock, release: Release): seq<Lock> {
    if release.Removes(l) then [] else [l]
  }

  lemma KeepFirst(s: seq<Lock>, release: Release)
    requires s != []
    ensures Keep(s, release) == Left(s[0], release) + Keep(s[1..], release)
  {
  }

  lemma Assoc(a: seq<Lock>, b: seq<Lock>, c: seq<Lock>)
    ensures a + (b + c) == (a + b) + c
  {
  }

  lemma {:induction false} KeepAppend(s: seq<Lock>, l: Lock, release: Release)
    ensures Keep(s + [l], release) == Keep(s, release) + Left(l, release)
  {
    hide Left, Keep;
    KeepNone(release);
    KeepFirst(s + [l], release);
    if s == [] {
      assert s + [l] == [l] && [l][1..] == [];
    } else {
      assert (s + [l])[1..] == s[1..] + [l] && (s + [l])[0] == s[0];
      KeepAppend(s[1..], l, release);
      KeepFirst(s, release);
      Assoc(Left(s[0], release), Keep(s[1..], release), Left(l, release));
    }
  }

  /** The locks after trying to take request-linked locks for the paths in
      order; stops at the first path somebody else holds. */
  function WithRequest(locks: seq<Lock>, paths: seq<string>, branch: Option<Branch>, request: Request,
                       holder: User, author: User, id: nat): seq<Lock>
    decreases |paths|
  {
    if paths == [] then locks
    else
      var l := FindCovering(locks, branch, paths[0]);
      if l.Some? then
        if Accepted(l.value, request, holder, author) then
          WithRequest(locks, paths[1..], branch, request, holder, author, id)
        else locks
      else
        WithRequest(locks + [Lock(id, branch, paths[0], holder, Some(request))], paths[1..], branch, request, holder,
                    author, id + 1)
  }

  predicate Accepted(l: Lock, request: Request, holder: User, author: User) {
    l.request == Some(request) || l.holder == holder || l.holder == author
  }

  /** A row with this scope and path exists; the database refuses a second one. */
  predicate Taken(table: seq<Lock>, branch: Option<Branch>, path: string) {
    exists l :: l in table && l.branch == branch && l.path == path
  }

  /** The table after a grant that decided on a listing of it. */
  function Granted(listing: seq<Lock>, table: seq<Lock>, id: nat, path: string, branch: Option<Branch>,
                   holder: User): seq<Lock> {
    if Decide(listing, path, branch, holder).Free? && !Taken(table, branch, path)
    then table + [Lock(id, branch, path, holder, None)]
    else table
  }

  /** A row on the very path is covering, so a free path is not taken. */
  lemma FreeIsNotTaken(locks: seq<Lock>, path: string, branch: Option<Branch>, holder: User)
    requires Clean(path) && Decide(locks, path, branch, holder).Free?
    ensures !Taken(locks, branch, path)
  {
    hide Decide, Overlap;
    DecideMeans(locks, path, branch, holder);
    CoversItself(path);
  }

  lemma CoversItself(path: string)
    requires Clean(path)
    ensures PrefixCovers(path, path) && Overlap(path, path)
  {
    CoversClean(path, path);
  }

  lemma UncoveredIsNotTaken(locks: seq<Lock>, branch: Option<Branch>, path: string)
    requires Clean(path) && FindCovering(locks, branch, path).None?
    ensures !Taken(locks, branch, path)
  {
    hide PrefixCovers, FindCovering;
    CoversItself(path);
  }

  method HasPath(paths: seq<string>, path: string) returns (found: bool)
    ensures found == (path in paths)
  {
    var j := 0;
    while j < |paths|
      invariant 0 <= j <= |paths| && path !in paths[..j]
    {
      if paths[j] == path {
        return true;
      }
      j := j + 1;
    }
    return false;
  }

  class LockTable {
    var locks: seq<Lock>
    var nextId: nat

    ghost predicate WellFormed()
      reads this
    {
      CleanTable(locks) && DistinctIds(locks) && forall l :: l in locks ==> l.id < nextId
    }

    ghost predicate Valid()
      reads this
    {
      WellFormed() && Exclusive(locks)
    }

    constructor ()
      ensures Valid() && locks == []
    {
      locks, nextId := [], 0;
    }

    /** Takes a lock unless somebody else's lock overlaps it. */
    method Grant(path: string, branch: Option<Branch>, holder: User) returns (decision: Decision)
      requires Valid() && Clean(path)
      modifies this
      ensures Valid() && decision == Decide(old(locks), path, branch, holder)
      ensures decision.Free? ==> locks == old(locks) + [Lock(old(nextId), branch, path, holder, None)]
      ensures !decision.Free? ==> locks == old(locks)
      ensures locks == Granted(old(locks), old(locks), old(nextId), path, branch, holder)
    {
      hide PrefixCovers, Overlap, Exclusive, DistinctIds, Taken;
      DecideMeans(locks, path, branch, holder);
      decision := Free;
      var i := 0;
      while i < |locks| && decision.Free?
        invariant 0 <= i <= |locks| && locks == old(locks) && nextId == old(nextId)
        invariant Decide(locks, path, branch, holder) ==
                  if decision.Free? then Decide(locks[i..], path, branch, holder) else decision
      {
        var lock := locks[i];
        assert locks[i..][1..] == locks[i + 1..];
        if Concerns(lock, path, branch) {
          if lock.holder == holder {
            if PrefixCovers(lock.path, path) {
              decision := Held(lock);
            }
          } else {
            decision := Conflict(lock);
          }
        }
        i := i + 1;
      }
      if decision.Free? {
        FreeIsNotTaken(locks, path, branch, holder);
        var lock := Lock(nextId, branch, path, holder, None);
        AddExclusive(locks, lock);
        AppendDistinct(locks, lock);
        locks, nextId := locks + [lock], nextId + 1;
      }
    }

    /** Removes the caller's own unlinked locks on paths that landed, one row at
        a time; directory locks stay because their path is not among them. */
    method ReleaseLanded(branch: Option<Branch>, paths: seq<string>, holder: User)
      requires Valid()
      modifies this`locks
      ensures Valid() && locks == Keep(old(locks), Landed(branch, paths, holder))
      ensures forall l :: l in locks <==>
        l in old(locks) && !(l.branch == branch && l.holder == holder && l.request == None && l.path in paths)
    {
      hide Exclusive, CleanTable, DistinctIds, Keep, PrefixCovers;
      var listed := locks;
      KeepNone(Landed(branch, paths, holder));
      var kept: seq<Lock> := [];
      var i := 0;
      while i < |listed|
        invariant 0 <= i <= |listed| && listed == old(locks) && locks == old(locks)
        invariant kept == Keep(listed[..i], Landed(branch, paths, holder))
      {
        var lock := listed[i];
        KeepAppend(listed[..i], lock, Landed(branch, paths, holder));
        assert listed[..i + 1] == listed[..i] + [lock];
        var deleted := false;
        if lock.branch == branch && lock.holder == holder && lock.request.None? {
          deleted := HasPath(paths, lock.path);
        }
        if !deleted {
          kept := kept + [lock];
        }
        i := i + 1;
      }
      assert listed[..i] == listed;
      SubsetExclusive(locks, kept);
      KeepDistinct(locks, Landed(branch, paths, holder));
      locks := kept;
    }

    /** Removes every row a release names. */
    method Drop(release: Release)
      requires Valid()
      modifies this`locks
      ensures Valid() && locks == Keep(old(locks), release)
    {
      hide Exclusive, CleanTable, DistinctIds;
      SubsetExclusive(locks, Keep(locks, release));
      KeepDistinct(locks, release);
      locks := Keep(locks, release);
    }

    /** Takes request-linked locks for the changed paths of a merge request. The
        table stays exclusive when nobody else holds a lock strictly below one
        of the paths. */
    method EnsureMergeRequestLocks(request: Request, branch: Option<Branch>, paths: seq<string>, holder: User,
                                   author: User)
      returns (ok: bool)
      requires Valid() && forall p :: p in paths ==> Clean(p)
      modifies this
      ensures WellFormed() && locks == WithRequest(old(locks), paths, branch, request, holder, author, old(nextId))
      ensures NoneBelow(old(locks), branch, paths, holder) ==> Exclusive(locks)
      ensures ok ==> forall p :: p in paths ==>
        var l := FindCovering(locks, branch, p); l.Some? && Accepted(l.value, request, holder, author)
      ensures ok <==> forall p :: p in paths ==> Answered(locks, branch, p, request, holder, author)
      ensures AddedFor(old(locks), locks, paths, branch, request, holder)
    {
      hide PrefixCovers, Exclusive, FindCovering, DistinctIds, NoneBelow, WithRequest;
      ghost var quiet := NoneBelow(locks, branch, paths, holder);
      var i := 0;
      assert paths[0..] == paths;
      while i < |paths|
        invariant 0 <= i <= |paths| && WellFormed()
        invariant quiet ==> Exclusive(locks) && NoneBelow(locks, branch, paths, holder)
        invariant WithRequest(locks, paths[i..], branch, request, holder, author, nextId) ==
                  WithRequest(old(locks), paths, branch, request, holder, author, old(nextId))
        invariant forall k :: 0 <= k < i ==>
          var l := FindCovering(locks, branch, paths[k]); l.Some? && Accepted(l.value, request, holder, author)
      {
        var path := paths[i];
        WithRequestStep(locks, paths, i, branch, request, holder, author, nextId);
        var lock := FindCovering(locks, branch, path);
        if lock.Some? {
          if !Accepted(lock.value, request, holder, author) {
            WithRequestAdds(old(locks), paths, branch, request, holder, author, old(nextId));
            NotAnswered(locks, branch, path, request, holder, author);
            assert path in paths;
            return false;
          }
          i := i + 1;
          continue;
        }
        var created := Lock(nextId, branch, path, holder, Some(request));
        if quiet {
          QuietAdd(locks, created, paths);
        }
        AppendDistinct(locks, created);
        forall k | 0 <= k < i
          ensures FindCovering(locks + [created], branch, paths[k]) == FindCovering(locks, branch, paths[k])
        {
          FindCoveringAppend(locks, created, branch, paths[k]);
        }
        FindCoveringAppend(locks, created, branch, path);
        locks, nextId := locks + [created], nextId + 1;
        i := i + 1;
      }
      WithRequestNone(locks, paths[i..], branch, request, holder, author, nextId);
      WithRequestAdds(old(locks), paths, branch, request, holder, author, old(nextId));
      forall p | p in paths ensures Answered(locks, branch, p, request, holder, author) {
        IsAnswered(locks, branch, p, request, holder, author);
      }
      return true;
    }
  }

  /** The first lock that covers the path is linked to the request, or held by the
      one who asks or by the request's author. */
  ghost predicate Answered(locks: seq<Lock>, branch: Option<Branch>, p: string, request: Request, holder: User,
                           author: User) {
    var l := FindCovering(locks, branch, p);
    l.Some? && (l.value.request == Some(request) || l.value.holder == holder || l.value.holder == author)
  }

  lemma IsAnswered(locks: seq<Lock>, branch: Option<Branch>, p: string, request: Request, holder: User, author: User)
    requires var l := FindCovering(locks, branch, p); l.Some? && Accepted(l.value, request, holder, author)
    ensures Answered(locks, branch, p, request, holder, author)
  {
    hide FindCovering;
  }

  lemma NotAnswered(locks: seq<Lock>, branch: Option<Branch>, p: string, request: Request, holder: User, author: User)
    requires var l := FindCovering(locks, branch, p); l.Some? && !Accepted(l.value, request, holder, author)
    ensures !Answered(locks, branch, p, request, holder, author)
  {
    hide FindCovering;
  }

  /** Nothing is lost, and every new lock is the holder's, linked to the request, on one
      of the paths that no lock covered. */
  ghost predicate AddedFor(locks: seq<Lock>, r: seq<Lock>, paths: seq<string>, branch: Option<Branch>,
                           request: Request, holder: User) {
    && locks <= r
    && (forall k :: |locks| <= k < |r| ==>
          && r[k].branch == branch && r[k].holder == holder && r[k].request == Some(request) && r[k].path in paths
          && FindCovering(locks, branch, r[k].path).None?)
  }

  lemma {:induction false} WithRequestAdds(locks: seq<Lock>, paths: seq<string>, branch: Option<Branch>,
                                           request: Request, holder: User, author: User, id: nat)
    ensures AddedFor(locks, WithRequest(locks, paths, branch, request, holder, author, id), paths, branch, request,
                     holder)
    decreases |paths|
  {
    hide FindCovering, Accepted, WithRequest;
    WithRequestCases(locks, paths, branch, request, holder, author, id);
    if paths != [] {
      var l, rest := FindCovering(locks, branch, paths[0]), paths[1..];
      if l.Some? {
        if Accepted(l.value, request, holder, author) {
          WithRequestAdds(locks, rest, branch, request, holder, author, id);
        }
      } else {
        var made := Lock(id, branch, paths[0], holder, Some(request));
        WithRequestAdds(locks + [made], rest, branch, request, holder, author, id + 1);
        AddedMore(locks, made, WithRequest(locks + [made], rest, branch, request, holder, author, id + 1), paths,
                  branch, request, holder);
      }
    }
  }

  lemma AddedMore(locks: seq<Lock>, made: Lock, r: seq<Lock>, paths: seq<string>, branch: Option<Branch>,
                  request: Request, holder: User)
    requires paths != [] && made.path == paths[0] && made.branch == branch && made.holder == holder
    requires made.request == Some(request) && FindCovering(locks, branch, made.path).None?
    requires AddedFor(locks + [made], r, paths[1..], branch, request, holder)
    ensures AddedFor(locks, r, paths, branch, request, holder)
  {
    hide FindCovering;
    forall k | |locks| <= k < |r|
      ensures r[k].branch == branch && r[k].holder == holder && r[k].request == Some(request) && r[k].path in paths
      ensures FindCovering(locks, branch, r[k].path).None?
    {
      if k == |locks| {
        assert r[k] == (locks + [made])[k];
      } else {
        FindCoveringAppend(locks, made, branch, r[k].path);
      }
    }
  }

  /** Nobody else holds a lock of the scope strictly below one of the paths. */
  ghost predicate NoneBelow(locks: seq<Lock>, branch: Option<Branch>, paths: seq<string>, holder: User) {
    forall l, p :: l in locks && l.branch == branch && p in paths && Inside(p, l.path) ==> l.holder == holder
  }

  lemma QuietAdd(locks: seq<Lock>, l: Lock, paths: seq<string>)
    requires Exclusive(locks) && CleanTable(locks) && Clean(l.path) && FindCovering(locks, l.branch, l.path).None?
    requires NoneBelow(locks, l.branch, paths, l.holder) && l.path in paths
    ensures Exclusive(locks + [l]) && NoneBelow(locks + [l], l.branch, paths, l.holder)
  {
    hide Exclusive, FindCovering, Clean;
    assert NoForeignBelow(locks, l);
    RequestLockExact(locks, l);
  }

  lemma WithRequestNone(locks: seq<Lock>, paths: seq<string>, branch: Option<Branch>, request: Request,
                        holder: User, author: User, id: nat)
    requires paths == []
    ensures WithRequest(locks, paths, branch, request, holder, author, id) == locks
  {
  }

  lemma WithRequestStep(locks: seq<Lock>, paths: seq<string>, i: nat, branch: Option<Branch>, request: Request,
                        holder: User, author: User, id: nat)
    requires i < |paths|
    ensures WithRequest(locks, paths[i..], branch, request, holder, author, id) ==
            var l := FindCovering(locks, branch, paths[i]);
            if l.None? then
              WithRequest(locks + [Lock(id, branch, paths[i], holder, Some(request))], paths[i + 1..], branch, request,
                          holder, author, id + 1)
            else if Accepted(l.value, request, holder, author) then
              WithRequest(locks, paths[i + 1..], branch, request, holder, author, id)
            else locks
  {
    hide FindCovering;
    assert paths[i..][1..] == paths[i + 1..];
  }

  lemma {:induction false} FindCoveringAppend(locks: seq<Lock>, l: Lock, branch: Option<Branch>, path: string)
    ensures FindCovering(locks, branch, path).Some? ==>
      FindCovering(locks + [l], branch, path) == FindCovering(locks, branch, path)
    ensures FindCovering(locks, branch, path).None? && l.branch == branch && l.path == path && Clean(path) ==>
              FindCovering(locks + [l], branch, path) == Some(l)
  {
    if Clean(path) {
      CoversClean(path, path);
    }
    hide PrefixCovers;
    if locks == [] {
      assert locks + [l] == [l] && [l][1..] == [];
    } else {
      assert (locks + [l])[1..] == locks[1..] + [l];
      FindCoveringAppend(locks[1..], l, branch, path);
    }
  }

  lemma {:induction false} KeepDistinct(locks: seq<Lock>, release: Release)
    requires DistinctIds(locks)
    ensures DistinctIds(Keep(locks, release))
  {
    if locks != [] {
      var rest := Keep(locks[1..], release);
      KeepDistinct(locks[1..], release);
      forall i | 0 <= i < |rest|
        ensures rest[i].id != locks[0].id
      {
        assert rest[i] in rest;
        var j :| 0 <= j < |locks[1..]| && locks[1..][j] == rest[i];
        assert locks[j + 1] == rest[i];
      }
    }
  }

  lemma AppendDistinct(locks: seq<Lock>, l: Lock)
    requires DistinctIds(locks) && forall m :: m in locks ==> m.id != l.id
    ensures DistinctIds(locks + [l])
  {
  }

  // ---- concurrent runs ----

  /** The grant that holds the mutex, with the listing it works from. */
  datatype Task =
    | Idle
    | Granting(listing: seq<Lock>, path: string, branch: Option<Branch>, holder: User)
    | Requesting(listing: seq<Lock>, paths: seq<string>, branch: Option<Branch>, request: Request, holder: User,
                 author: User)

  datatype State = State(table: seq<Lock>, task: Task)

  datatype Event =
    | StartGrant(path: string, branch: Option<Branch>, holder: User)
    | FinishGrant(id: nat)
    | StartRequest(paths: seq<string>, branch: Option<Branch>, request: Request, holder: User, author: User)
    | RequestPath(id: nat)
    | FinishRequest
    | Remove(kept: seq<Lock>)

  /** One step. Releases happen at any time, also while a grant is under way, so
      the listing a grant works from may name rows that are gone. */
  ghost predicate Step(s: State, e: Event, t: State) {
    match e
    case StartGrant(path, branch, holder) =>
      s.task.Idle? && Clean(path) && t == s.(task := Granting(s.table, path, branch, holder))
    case FinishGrant(id) =>
      s.task.Granting? && t.task.Idle? &&
      var g := s.task; t.table == Granted(g.listing, s.table, id, g.path, g.branch, g.holder)
    case StartRequest(paths, branch, request, holder, author) =>
      s.task.Idle? && (forall p :: p in paths ==> Clean(p)) &&
      t == s.(task := Requesting(s.table, paths, branch, request, holder, author))
    case RequestPath(id) =>
      s.task.Requesting? && s.task.paths != [] &&
      (var r := s.task;
       var l := FindCovering(r.listing, r.branch, r.paths[0]);
       var created := Lock(id, r.branch, r.paths[0], r.holder, Some(r.request));
       if l.Some? then
         t == if Accepted(l.value, r.request, r.holder, r.author) then s.(task := r.(paths := r.paths[1..]))
              else s.(task := Idle)
       else if Taken(s.table, r.branch, r.paths[0]) then
         t.table == s.table && (t.task.Idle? || t.task == r.(paths := r.paths[1..]))
       else t == State(s.table + [created], r.(listing := r.listing + [created], paths := r.paths[1..])))
    case FinishRequest =>
      s.task.Requesting? && s.task.paths == [] && t == s.(task := Idle)
    case Remove(kept) =>
      (forall l :: l in kept ==> l in s.table) && t == s.(table := kept)
  }

  /** The step adds a request-linked lock. */
  ghost predicate Creates(s: State, e: Event) {
    && e.RequestPath? && s.task.Requesting? && s.task.paths != []
    && FindCovering(s.task.listing, s.task.branch, s.task.paths[0]).None?
    && !Taken(s.table, s.task.branch, s.task.paths[0])
  }

  /** A request-linked lock is only added where nobody else holds a lock strictly
      below it. */
  ghost predicate Orderly(s: State, e: Event) {
    Creates(s, e) ==>
      NoForeignBelow(s.table, Lock(e.id, s.task.branch, s.task.paths[0], s.task.holder, Some(s.task.request)))
  }

  ghost predicate Inv(s: State) {
    && Exclusive(s.table) && CleanTable(s.table)
    && (s.task.Granting? ==> Clean(s.task.path))
    && (s.task.Requesting? ==> forall p :: p in s.task.paths ==> Clean(p))
    && (!s.task.Idle? ==> forall l :: l in s.table ==> l in s.task.listing)
  }

  lemma GrantKeepsInv(s: State, id: nat, t: State)
    requires Inv(s) && Step(s, FinishGrant(id), t)
    ensures Inv(t)
  {
    hide Exclusive, Overlap, Decide;
    var g := s.task;
    DecideMeans(g.listing, g.path, g.branch, g.holder);
    AddExclusive(s.table, Lock(id, g.branch, g.path, g.holder, None));
  }

  lemma RequestKeepsInv(s: State, id: nat, t: State)
    requires Inv(s) && Step(s, RequestPath(id), t) && Orderly(s, RequestPath(id))
    ensures Inv(t)
  {
    hide Exclusive, PrefixCovers, NoForeignBelow, Taken, Accepted;
    var r := s.task;
    var created := Lock(id, r.branch, r.paths[0], r.holder, Some(r.request));
    if Creates(s, RequestPath(id)) {
      UncoveredSubset(r.listing, s.table, r.branch, r.paths[0]);
      RequestLockExact(s.table, created);
    }
  }

  lemma UncoveredSubset(listing: seq<Lock>, table: seq<Lock>, branch: Option<Branch>, path: string)
    requires FindCovering(listing, branch, path).None? && forall l :: l in table ==> l in listing
    ensures FindCovering(table, branch, path).None?
  {
  }

  /** Every step keeps overlapping locks with one holder. */
  lemma StepKeepsInv(s: State, e: Event, t: State)
    requires Inv(s) && Step(s, e, t) && Orderly(s, e)
    ensures Inv(t)
  {
    hide Exclusive, Orderly, Decide, FindCovering;
    match e
    case FinishGrant(id) => GrantKeepsInv(s, id, t);
    case RequestPath(id) => RequestKeepsInv(s, id, t);
    case Remove(kept) => SubsetExclusive(s.table, kept);
    case _ =>
  }

  ghost predicate Run(states: seq<State>, events: seq<Event>) {
    && |states| == |events| + 1 && states[0] == State([], Idle)
    && forall i :: 0 <= i < |events| ==> Step(states[i], events[i], states[i + 1]) && Orderly(states[i], events[i])
  }

  /** Over every run, overlapping locks of one scope have one holder, so no two
      users can pass the gate for the same path in any state of the run. */
  lemma {:induction false} RunsAreExclusive(states: seq<State>, events: seq<Event>, n: nat)
    requires Run(states, events) && n < |states|
    ensures Inv(states[n])
  {
    hide Step, Orderly;
    if n == 0 {
      assert Exclusive([]) && CleanTable([]);
    } else {
      RunsAreExclusive(states, events, n - 1);
      StepKeepsInv(states[n - 1], events[n - 1], states[n]);
    }
  }

  // ---- the table's methods are runs of the machine ----

  /** Steps from one state to another. */
  ghost predicate Steps(states: seq<State>, events: seq<Event>) {
    && |states| == |events| + 1
    && forall i :: 0 <= i < |events| ==> Step(states[i], events[i], states[i + 1])
  }

  /** A grant that is not interrupted does what the table's method does. */
  lemma GrantIsSteps(table: seq<Lock>, id: nat, path: string, branch: Option<Branch>, holder: User)
    requires Clean(path)
    ensures var busy := State(table, Granting(table, path, branch, holder));
      && Step(State(table, Idle), StartGrant(path, branch, holder), busy)
      && Step(busy, FinishGrant(id), State(Granted(table, table, id, path, branch, holder), Idle))
  {
    hide Decide, Taken, Granted;
  }

  /** A release is one step. */
  lemma {:induction false} ReleaseIsStep(table: seq<Lock>, task: Task, release: Release)
    ensures Step(State(table, task), Remove(Keep(table, release)), State(Keep(table, release), task))
  {
    KeepFrom(table, release);
  }

  lemma {:induction false} KeepFrom(locks: seq<Lock>, release: Release)
    ensures forall l :: l in Keep(locks, release) ==> l in locks
  {
    if locks != [] {
      KeepFrom(locks[1..], release);
    }
  }

  lemma PrependStep(s: State, e: Event, states: seq<State>, events: seq<Event>)
    requires Steps(states, events) && Step(s, e, states[0])
    ensures Steps([s] + states, [e] + events)
  {
    hide Step;
    var ss, es := [s] + states, [e] + events;
    forall i | 0 <= i < |es| ensures Step(ss[i], es[i], ss[i + 1]) {
      if i > 0 {
        assert ss[i] == states[i - 1] && es[i] == events[i - 1] && ss[i + 1] == states[i];
        var k := i - 1;
        assert Step(states[k], events[k], states[k + 1]);
      }
    }
  }

  /** A request that is not interrupted takes the locks the table's method takes. */
  lemma {:induction false} RequestIsSteps(table: seq<Lock>, paths: seq<string>, branch: Option<Branch>,
                                          request: Request, holder: User, author: User, id: nat)
    returns (states: seq<State>, events: seq<Event>)
    requires forall p :: p in paths ==> Clean(p)
    ensures Steps(states, events)
    ensures states[0] == State(table, Requesting(table, paths, branch, request, holder, author))
    ensures states[|states| - 1] == State(WithRequest(table, paths, branch, request, holder, author, id), Idle)
    decreases |paths|
  {
    hide FindCovering, Accepted, Taken, Step, Steps, WithRequest, Clean;
    var s := State(table, Requesting(table, paths, branch, request, holder, author));
    WithRequestCases(table, paths, branch, request, holder, author, id);
    if paths == [] {
      states, events := [s, State(table, Idle)], [FinishRequest];
      LastStep(s, FinishRequest, State(table, Idle));
    } else {
      assert paths[0] in paths && forall p :: p in paths[1..] ==> p in paths;
      var l := FindCovering(table, branch, paths[0]);
      RequestStep(table, paths, branch, request, holder, author, id);
      if l.Some? && !Accepted(l.value, request, holder, author) {
        states, events := [s, State(table, Idle)], [RequestPath(id)];
        LastStep(s, RequestPath(id), State(table, Idle));
      } else {
        var more := if l.Some? then table else table + [Lock(id, branch, paths[0], holder, Some(request))];
        var next := if l.Some? then id else id + 1;
        states, events := RequestIsSteps(more, paths[1..], branch, request, holder, author, next);
        StepsShape(states, events);
        PrependStep(s, RequestPath(id), states, events);
        states, events := [s] + states, [RequestPath(id)] + events;
      }
    }
    StepsShape(states, events);
  }

  lemma StepsShape(states: seq<State>, events: seq<Event>)
    requires Steps(states, events)
    ensures |states| == |events| + 1
  {
    hide Step;
  }

  lemma LastStep(s: State, e: Event, t: State)
    requires Step(s, e, t) || (e == FinishRequest && s.task.Requesting? && s.task.paths == [] && t == s.(task := Idle))
    ensures Steps([s, t], [e])
  {
  }

  lemma WithRequestCases(locks: seq<Lock>, paths: seq<string>, branch: Option<Branch>, request: Request,
                         holder: User, author: User, id: nat)
    ensures paths == [] ==> WithRequest(locks, paths, branch, request, holder, author, id) == locks
    ensures paths != [] ==> var l := FindCovering(locks, branch, paths[0]);
      WithRequest(locks, paths, branch, request, holder, author, id) ==
        if l.Some? && !Accepted(l.value, request, holder, author) then locks
        else if l.Some? then WithRequest(locks, paths[1..], branch, request, holder, author, id)
        else WithRequest(locks + [Lock(id, branch, paths[0], holder, Some(request))], paths[1..], branch, request,
                         holder, author, id + 1)
  {
    hide FindCovering, Accepted;
  }

  /** One path of a request, as the machine takes it. */
  lemma RequestStep(table: seq<Lock>, paths: seq<string>, branch: Option<Branch>, request: Request,
                    holder: User, author: User, id: nat)
    requires paths != [] && Clean(paths[0])
    ensures var s := State(table, Requesting(table, paths, branch, request, holder, author));
      var l := FindCovering(table, branch, paths[0]);
      var more := table + [Lock(id, branch, paths[0], holder, Some(request))];
      if l.Some? && !Accepted(l.value, request, holder, author) then Step(s, RequestPath(id), State(table, Idle))
      else if l.Some? then
        Step(s, RequestPath(id), State(table, Requesting(table, paths[1..], branch, request, holder, author)))
      else Step(s, RequestPath(id), State(more, Requesting(more, paths[1..], branch, request, holder, author)))
  {
    hide FindCovering, Accepted, Taken, Clean;
    if FindCovering(table, branch, paths[0]).None? {
      UncoveredIsNotTaken(table, branch, paths[0]);
    }
  }

  lemma BelowIsUncovered(l: Lock, path: string)
    requires l.branch == None && Clean(path) && Clean(l.path) && Inside(path, l.path)
    ensures FindCovering([l], None, path) == None && Overlap(path, l.path) && path != l.path
  {
    hide PrefixCovers;
    assert |path| < |path + "/"| <= |l.path|;
    CoversClean(l.path, path);
    CoversClean(path, l.path);
    assert [l][1..] == [];
  }

  /** A run from the empty table: one user locks q, and another user's request
      locks the path p. */
  ghost function OverlapStates(u: User, v: User, r: Request, p: string, q: string): seq<State> {
    var below, created := Lock(0, None, q, u, None), Lock(1, None, p, v, Some(r));
    [State([], Idle), State([], Granting([], q, None, u)), State([below], Idle),
     State([below], Requesting([below], [p], None, r, v, v)),
     State([below, created], Requesting([below, created], [], None, r, v, v))]
  }

  ghost function OverlapEvents(u: User, v: User, r: Request, p: string, q: string): seq<Event> {
    [StartGrant(q, None, u), FinishGrant(0), StartRequest([p], None, r, v, v), RequestPath(1)]
  }

  /** Without that care two users end up with overlapping locks: one locks any
      path below p, then another user's request locks p itself. */
  lemma RequestCanOverlap(u: User, v: User, r: Request, p: string, q: string)
    requires u != v && Clean(p) && Clean(q) && Inside(p, q)
    ensures var states := OverlapStates(u, v, r, p, q);
            Steps(states, OverlapEvents(u, v, r, p, q)) && states[0] == State([], Idle) && !Exclusive(states[4].table)
  {
    hide Step, Overlap, Clean, Exclusive;
    FirstGrant(u, q);
    RequestOverlaps(u, v, r, p, q);
    var states, events := OverlapStates(u, v, r, p, q), OverlapEvents(u, v, r, p, q);
    forall i | 0 <= i < |events| ensures Step(states[i], events[i], states[i + 1]) {
      if i < 2 {
        assert i == 0 || i == 1;
      } else {
        assert i == 2 || i == 3;
      }
    }
  }

  /** The first lock of an empty table is granted. */
  lemma FirstGrant(u: User, q: string)
    requires Clean(q)
    ensures Step(State([], Idle), StartGrant(q, None, u), State([], Granting([], q, None, u)))
    ensures Step(State([], Granting([], q, None, u)), FinishGrant(0), State([Lock(0, None, q, u, None)], Idle))
  {
    hide Clean;
    GrantIsSteps([], 0, q, None, u);
    assert [] + [Lock(0, None, q, u, None)] == [Lock(0, None, q, u, None)];
  }

  lemma RequestOverlaps(u: User, v: User, r: Request, p: string, q: string)
    requires u != v && Clean(p) && Clean(q) && Inside(p, q)
    ensures var below, created := Lock(0, None, q, u, None), Lock(1, None, p, v, Some(r));
            var busy := State([below], Requesting([below], [p], None, r, v, v));
            && Step(State([below], Idle), StartRequest([p], None, r, v, v), busy)
            && Step(busy, RequestPath(1), State([below, created], Requesting([below, created], [], None, r, v, v)))
            && !Exclusive([below, created])
  {
    hide FindCovering, PrefixCovers, Clean, Overlap;
    var below := Lock(0, None, q, u, None);
    var created := Lock(1, None, p, v, Some(r));
    BelowIsUncovered(below, p);
    assert [below] + [created] == [below, created] && [p][1..] == [];
    assert below in [below, created] && created in [below, created];
    assert [p][0] == p;
  }
}
