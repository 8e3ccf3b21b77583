/** Path-keyed file entries and the comparison of two such maps. */
module EntryMaps {
  import opened Prefix
  import opened TreeHash
  import opened Trees
  import Order

  datatype Entry = Entry(path: string, mode: int, size: int, isBinary: bool, encoding: string, hash: Hash,
                         chunks: seq<Hash>)

  /** The side of a change that is missing. */
  function NoEntry(): Entry {
    Entry("", 0, 0, false, "", ZERO, [])
  }

  type Entries = map<string, Entry>

  function EntryOf(d: Digest, path: string, f: File): Entry {
    Entry(path, f.mode, f.size, f.isBinary, f.encoding, FileHash(d, f.chunks), f.chunks)
  }

  // ---- comparing ----

  datatype Status = Added | Modified | Deleted | Renamed

  /** One changed path; for a rename `before.path` is the source. */
  datatype Change = Change(path: string, status: Status, before: Entry, after: Entry, similarity: int)

  function PathOf(c: Change): string {
    c.path
  }

  datatype MaybeChange = Same | Differs(change: Change)

  /** What happened to one path. */
  function ChangeAt(o: Entries, n: Entries, p: string): MaybeChange {
    if p in o && p !in n then Differs(Change(p, Deleted, o[p], NoEntry(), 0))
    else if p in n && p !in o then Differs(Change(p, Added, NoEntry(), n[p], 0))
    else if p in o && p in n && (o[p].hash != n[p].hash || o[p].mode != n[p].mode)
      then Differs(Change(p, Modified, o[p], n[p], 0))
    else Same
  }

  ghost predicate IsDiff(o: Entries, n: Entries, changes: seq<Change>) {
    && Order.StrictBy(changes, PathOf)
    && (forall c :: c in changes <==> ChangeAt(o, n, c.path) == Differs(c))
  }

  /** The changes found so far are those at the paths visited. */
  ghost predicate Found(o: Entries, n: Entries, changes: seq<Change>, done: set<string>) {
    && (forall c :: c in changes <==> c.path in done && ChangeAt(o, n, c.path) == Differs(c))
    && (forall i, j :: 0 <= i < j < |changes| ==> changes[i].path != changes[j].path)
  }

  lemma FindOne(o: Entries, n: Entries, changes: seq<Change>, done: set<string>, p: string)
    requires Found(o, n, changes, done) && p !in done
    ensures ChangeAt(o, n, p).Same? ==> Found(o, n, changes, done + {p})
    ensures ChangeAt(o, n, p).Differs? ==> Found(o, n, changes + [ChangeAt(o, n, p).change], done + {p})
  {
    forall i | 0 <= i < |changes| ensures changes[i].path != p {
      assert changes[i] in changes;
    }
  }

  /** The paths of the old map: deleted or modified. */
  method CompareOld(o: Entries, n: Entries) returns (changes: seq<Change>, ghost done: set<string>)
    ensures Found(o, n, changes, done) && done == o.Keys
  {
    hide Found;
    changes, done := [], {};
    FoundNone(o, n);
    var rest := o.Keys;
    while rest != {}
      invariant rest <= o.Keys && done == o.Keys - rest && Found(o, n, changes, done)
      decreases |rest|
    {
      var p :| p in rest;
      FindOne(o, n, changes, done, p);
      rest, done := rest - {p}, done + {p};
      if p !in n {
        changes := changes + [Change(p, Deleted, o[p], NoEntry(), 0)];
      } else if o[p].hash != n[p].hash || o[p].mode != n[p].mode {
        changes := changes + [Change(p, Modified, o[p], n[p], 0)];
      }
    }
  }

  /** The paths of the new map alone: added. */
  method CompareNew(o: Entries, n: Entries, earlier: seq<Change>, ghost before: set<string>)
    returns (changes: seq<Change>, ghost done: set<string>)
    requires Found(o, n, earlier, before) && before == o.Keys
    ensures Found(o, n, changes, done) && done == o.Keys + n.Keys
  {
    hide Found;
    changes, done := earlier, before;
    var rest := n.Keys;
    while rest != {}
      invariant rest <= n.Keys && Found(o, n, changes, done)
      invariant forall p :: p in done <==> p in o || (p in n && p !in rest)
      decreases |rest|
    {
      var p :| p in rest;
      if p !in o {
        FindOne(o, n, changes, done, p);
        changes := changes + [Change(p, Added, NoEntry(), n[p], 0)];
        done := done + {p};
      }
      rest := rest - {p};
    }
  }

  method Compare(o: Entries, n: Entries) returns (changes: seq<Change>)
    ensures IsDiff(o, n, changes)
  {
    hide Order.Less, Found, ChangeAt, Order.SortedBy, Order.StrictBy;
    ghost var done: set<string>;
    changes, done := CompareOld(o, n);
    changes, done := CompareNew(o, n, changes, done);
    FoundDistinct(o, n, changes, done);
    changes := Order.SortBy(changes, PathOf);
    FoundAll(o, n, changes, done);
  }

  lemma FoundNone(o: Entries, n: Entries)
    ensures Found(o, n, [], {})
  {
  }

  lemma FoundDistinct(o: Entries, n: Entries, changes: seq<Change>, done: set<string>)
    requires Found(o, n, changes, done)
    ensures Order.DistinctBy(changes, PathOf)
    ensures forall c :: c in changes <==> c.path in done && ChangeAt(o, n, c.path) == Differs(c)
  {
  }

  lemma FoundAll(o: Entries, n: Entries, changes: seq<Change>, done: set<string>)
    requires forall c :: c in changes <==> c.path in done && ChangeAt(o, n, c.path) == Differs(c)
    requires done == o.Keys + n.Keys
    ensures forall c :: c in changes <==> ChangeAt(o, n, c.path) == Differs(c)
  {
  }

  /** Adding the entries one change names to a map, or taking them out. */
  function Apply(m: Entries, c: Change): Entries {
    match c.status
    case Added => m[c.path := c.after]
    case Modified => m[c.path := c.after]
    case Deleted => m - {c.path}
    case Renamed => (m - {c.before.path})[c.path := c.after]
  }
}
