/** The versioned permission cache.

    A load looks the entry up under the mutex, fetches outside it in several
    queries, and stores the result under the mutex only if the project's version
    is the one it saw at the start. A rule change is followed by an invalidation,
    which raises every version and empties the cache. Loads, changes and
    invalidations interleave freely. */
module PermissionCache {
  import opened Basics

  datatype Project = Project(number: int)
  datatype Key = Key(project: Project, user: int)
  datatype Thread = Thread(number: int)

  /** What a load fetches: rules, path defaults and organisation ownership. */
  datatype Rules = Rules(text: string)
  datatype PermissionSet = PermissionSet(rules: Rules, defaults: Rules, owner: bool)

  datatype Entry = Entry(version: nat, set_: PermissionSet)

  type Versions = map<Project, nat>
  type Entries = map<Key, Entry>

  // ---- the critical sections ----

  function VersionOf(versions: Versions, p: Project): nat {
    if p in versions then versions[p] else 0
  }

  function Registered(versions: Versions, p: Project): Versions {
    if p in versions then versions else versions[p := 0]
  }

  function Raised(versions: Versions): Versions {
    map p | p in versions :: versions[p] + 1
  }

  /** An entry answers when it carries the project's version. */
  predicate IsHit(versions: Versions, entries: Entries, key: Key) {
    key in entries && entries[key].version == VersionOf(versions, key.project)
  }

  /** A fetched set is kept unless the version changed meanwhile. */
  function Stored(versions: Versions, entries: Entries, key: Key, version: nat, s: PermissionSet): Entries {
    if VersionOf(versions, key.project) == version then entries[key := Entry(version, s)] else entries
  }

  class Cache {
    var versions: Versions
    var entries: Entries

    constructor ()
      ensures versions == map[] && entries == map[]
    {
      versions, entries := map[], map[];
    }

    /** The first critical section of a load: a hit, or the version to fetch
        under. `expired` stands for the clock. */
    method Lookup(key: Key, expired: bool) returns (hit: Option<PermissionSet>, version: nat)
      modifies this`versions
      ensures version == VersionOf(old(versions), key.project) && versions == Registered(old(versions), key.project)
      ensures hit == if IsHit(old(versions), entries, key) && !expired then Some(entries[key].set_) else None
    {
      version := if key.project in versions then versions[key.project] else 0;
      if key.project !in versions {
        versions := versions[key.project := 0];
      }
      if key in entries && entries[key].version == version && !expired {
        return Some(entries[key].set_), version;
      }
      return None, version;
    }

    /** The second critical section: keep the result unless a version changed. */
    method Store(key: Key, version: nat, s: PermissionSet)
      modifies this`entries
      ensures entries == Stored(versions, old(entries), key, version, s)
    {
      if (if key.project in versions then versions[key.project] else 0) == version {
        entries := entries[key := Entry(version, s)];
      }
    }

    method InvalidateAll()
      modifies this
      ensures versions == Raised(old(versions)) && entries == map[]
    {
      var todo := versions.Keys;
      while todo != {}
        invariant todo <= old(versions).Keys == versions.Keys
        invariant forall p :: p in versions ==> versions[p] == old(versions)[p] + if p in todo then 0 else 1
        decreases |todo|
      {
        var p :| p in todo;
        versions := versions[p := versions[p] + 1];
        todo := todo - {p};
      }
      entries := map[];
    }
  }

  // ---- all interleavings ----

  /** The database the loads read. */
  datatype Db = Db(rules: map<Key, Rules>, defaults: map<Project, Rules>, owners: map<Key, bool>) {
    function RulesOf(k: Key): Rules { if k in rules then rules[k] else Rules("") }
    function DefaultsOf(k: Key): Rules { if k.project in defaults then defaults[k.project] else Rules("") }
    function OwnerOf(k: Key): bool { k in owners && owners[k] }

    /** What an uninterrupted fetch would return now. */
    function Fetch(k: Key): PermissionSet {
      PermissionSet(RulesOf(k), DefaultsOf(k), OwnerOf(k))
    }
  }

  /** A value with the time it was read. */
  datatype Read<T> = Read(value: T, at: nat)

  /** A fetch under way. */
  datatype Load = Load(key: Key, version: nat, started: nat, rules: Option<Read<Rules>>, defaults: Option<Read<Rules>>,
                       owner: Option<Read<bool>>)

  /** When the three parts of a cached set were read, kept for the proof. */
  datatype Times = Times(rules: nat, defaults: nat, owner: nat)

  datatype State = State(
    db: Db, versions: Versions, entries: Entries, loads: map<Thread, Load>,
    times: map<Key, Times>, now: nat, changed: nat, invalidated: nat)

  const START := State(Db(map[], map[], map[]), map[], map[], map[], map[], 1, 0, 0)

  datatype Event =
    | Hit(key: Key)
    | Miss(thread: Thread, key: Key)
    | ReadRules(thread: Thread)
    | ReadDefaults(thread: Thread)
    | ReadOwner(thread: Thread)
    | Finish(thread: Thread)
    | Abort(thread: Thread)
    | Change(db: Db)
    | Invalidate

  predicate Enabled(s: State, e: Event) {
    match e
    case Hit(k) => IsHit(s.versions, s.entries, k)
    case Miss(t, _) => t !in s.loads
    case ReadRules(t) => t in s.loads && s.loads[t].rules.None?
    case ReadDefaults(t) => t in s.loads && s.loads[t].rules.Some? && s.loads[t].defaults.None?
    case ReadOwner(t) => t in s.loads && s.loads[t].defaults.Some? && s.loads[t].owner.None?
    case Finish(t) => t in s.loads && s.loads[t].rules.Some? && s.loads[t].defaults.Some? && s.loads[t].owner.Some?
    case Abort(t) => t in s.loads
    case Change(_) => true
    case Invalidate => true
  }

  /** One atomic step; every step takes one tick. */
  function Next(s: State, e: Event): State
    requires Enabled(s, e)
  {
    var s := s.(now := s.now + 1);
    match e
    case Hit(k) => s.(versions := Registered(s.versions, k.project))
    case Miss(t, k) =>
      s.(versions := Registered(s.versions, k.project),
         loads := s.loads[t := Load(k, VersionOf(s.versions, k.project), s.now, None, None, None)])
    case ReadRules(t) =>
      var l := s.loads[t];
      s.(loads := s.loads[t := l.(rules := Some(Read(s.db.RulesOf(l.key), s.now)))])
    case ReadDefaults(t) =>
      var l := s.loads[t];
      s.(loads := s.loads[t := l.(defaults := Some(Read(s.db.DefaultsOf(l.key), s.now)))])
    case ReadOwner(t) =>
      var l := s.loads[t];
      s.(loads := s.loads[t := l.(owner := Some(Read(s.db.OwnerOf(l.key), s.now)))])
    case Finish(t) =>
      var l := s.loads[t];
      var fetched := PermissionSet(l.rules.value.value, l.defaults.value.value, l.owner.value.value);
      s.(loads := s.loads - {t},
         entries := Stored(s.versions, s.entries, l.key, l.version, fetched),
         times := if VersionOf(s.versions, l.key.project) == l.version
                  then s.times[l.key := Times(l.rules.value.at, l.defaults.value.at, l.owner.value.at)] else s.times)
    case Abort(t) => s.(loads := s.loads - {t})
    case Change(db) => s.(db := db, changed := s.now)
    case Invalidate => s.(versions := Raised(s.versions), entries := map[], times := map[], invalidated := s.now)
  }

  /** A value read at a time is still what the database says, unless the
      database changed since. */
  predicate Current<T(==)>(s: State, value: T, now: T, at: nat) {
    at <= s.now && (at > s.changed ==> value == now)
  }

  ghost predicate LoadOk(s: State, l: Load) {
    && l.key.project in s.versions && l.version <= s.versions[l.key.project] && l.started <= s.now
    && (l.version == s.versions[l.key.project] ==> l.started > s.invalidated)
    && (l.rules.Some? ==>
          l.rules.value.at >= l.started && Current(s, l.rules.value.value, s.db.RulesOf(l.key), l.rules.value.at))
    && (l.defaults.Some? ==>
          l.defaults.value.at >= l.started &&
          Current(s, l.defaults.value.value, s.db.DefaultsOf(l.key), l.defaults.value.at))
    && (l.owner.Some? ==>
          l.owner.value.at >= l.started && Current(s, l.owner.value.value, s.db.OwnerOf(l.key), l.owner.value.at))
  }

  /** A cached entry carries the current version, and every part of it was read
      after the last invalidation. */
  ghost predicate EntryOk(s: State, k: Key)
    requires k in s.entries && k in s.times
  {
    var e, t := s.entries[k], s.times[k];
    && k.project in s.versions && e.version == s.versions[k.project]
    && t.rules > s.invalidated && t.defaults > s.invalidated && t.owner > s.invalidated
    && Current(s, e.set_.rules, s.db.RulesOf(k), t.rules)
    && Current(s, e.set_.defaults, s.db.DefaultsOf(k), t.defaults)
    && Current(s, e.set_.owner, s.db.OwnerOf(k), t.owner)
  }

  ghost predicate Inv(s: State) {
    && s.changed <= s.now && s.invalidated <= s.now
    && s.entries.Keys == s.times.Keys
    && (forall t :: t in s.loads ==> LoadOk(s, s.loads[t]))
    && (forall k :: k in s.entries ==> EntryOk(s, k))
  }

  /** A tick in which neither the database nor a known version changes. */
  ghost predicate Quiet(s: State, t: State) {
    && t.db == s.db && t.changed == s.changed && t.invalidated == s.invalidated && t.now == s.now + 1
    && forall p :: p in s.versions ==> p in t.versions && t.versions[p] == s.versions[p]
  }

  lemma QuietLoad(s: State, t: State, l: Load)
    requires Quiet(s, t) && LoadOk(s, l)
    ensures LoadOk(t, l)
  {
  }

  lemma QuietEntry(s: State, t: State, k: Key)
    requires Quiet(s, t) && k in s.entries && k in s.times && EntryOk(s, k)
    requires k in t.entries && k in t.times && t.entries[k] == s.entries[k] && t.times[k] == s.times[k]
    ensures EntryOk(t, k)
  {
  }

  /** A quiet tick that adds at most one load and at most one entry. */
  lemma QuietKeepsInv(s: State, t: State)
    requires Inv(s) && Quiet(s, t) && t.entries.Keys == t.times.Keys
    requires forall h :: h in t.loads ==> (h in s.loads && t.loads[h] == s.loads[h]) || LoadOk(t, t.loads[h])
    requires forall k :: k in t.entries ==>
      (k in s.entries && t.entries[k] == s.entries[k] && t.times[k] == s.times[k]) || EntryOk(t, k)
    ensures Inv(t)
  {
    hide LoadOk, EntryOk;
    forall h | h in t.loads
      ensures LoadOk(t, t.loads[h])
    {
      if h in s.loads && t.loads[h] == s.loads[h] {
        QuietLoad(s, t, s.loads[h]);
      }
    }
    forall k | k in t.entries
      ensures EntryOk(t, k)
    {
      if k in s.entries && t.entries[k] == s.entries[k] && t.times[k] == s.times[k] {
        QuietEntry(s, t, k);
      }
    }
  }

  lemma FinishKeepsInv(s: State, h: Thread)
    requires Inv(s) && Enabled(s, Finish(h))
    ensures Inv(Next(s, Finish(h)))
  {
    var t, l := Next(s, Finish(h)), s.loads[h];
    assert LoadOk(s, l);
    assert t.entries.Keys == t.times.Keys;
    if VersionOf(s.versions, l.key.project) == l.version {
      assert EntryOk(t, l.key);
    }
    hide LoadOk, EntryOk;
    QuietKeepsInv(s, t);
  }

  lemma LoadingKeepsInv(s: State, e: Event)
    requires Inv(s) && Enabled(s, e) && (e.Miss? || e.ReadRules? || e.ReadDefaults? || e.ReadOwner?)
    ensures Inv(Next(s, e))
  {
    hide LoadOk, EntryOk;
    var t := Next(s, e);
    LoadStaysOk(s, e);
    QuietKeepsInv(s, t);
  }

  lemma LoadStaysOk(s: State, e: Event)
    requires Inv(s) && Enabled(s, e) && (e.Miss? || e.ReadRules? || e.ReadDefaults? || e.ReadOwner?)
    ensures e.thread in Next(s, e).loads && LoadOk(Next(s, e), Next(s, e).loads[e.thread])
  {
    hide EntryOk;
    assert !e.Miss? ==> LoadOk(s, s.loads[e.thread]);
  }

  lemma InvalidateKeepsInv(s: State)
    requires Inv(s)
    ensures Inv(Next(s, Invalidate))
  {
    var t := Next(s, Invalidate);
    forall h | h in t.loads
      ensures LoadOk(t, t.loads[h])
    {
      assert LoadOk(s, s.loads[h]);
    }
  }

  lemma ChangeKeepsInv(s: State, db: Db)
    requires Inv(s)
    ensures Inv(Next(s, Change(db)))
  {
    var t := Next(s, Change(db));
    forall h | h in t.loads
      ensures LoadOk(t, t.loads[h])
    {
      assert LoadOk(s, s.loads[h]);
    }
    forall k | k in t.entries
      ensures EntryOk(t, k)
    {
      assert EntryOk(s, k);
    }
  }

  lemma StepKeepsInv(s: State, e: Event)
    requires Inv(s) && Enabled(s, e)
    ensures Inv(Next(s, e))
  {
    hide LoadOk, EntryOk;
    match e
    case Finish(h) => FinishKeepsInv(s, h);
    case Invalidate => InvalidateKeepsInv(s);
    case Change(db) => ChangeKeepsInv(s, db);
    case Hit(_) => QuietKeepsInv(s, Next(s, e));
    case Abort(_) => QuietKeepsInv(s, Next(s, e));
    case _ => LoadingKeepsInv(s, e);
  }

  ghost predicate Run(states: seq<State>, events: seq<Event>) {
    && |states| == |events| + 1 && states[0] == START
    && forall i :: 0 <= i < |events| ==> Enabled(states[i], events[i]) && states[i + 1] == Next(states[i], events[i])
  }

  lemma {:induction false} RunsKeepInv(states: seq<State>, events: seq<Event>, n: nat)
    requires Run(states, events) && n < |states|
    ensures Inv(states[n])
  {
    hide Inv, Next, Enabled;
    if n == 0 {
      StartOk();
    } else {
      RunsKeepInv(states, events, n - 1);
      StepKeepsInv(states[n - 1], events[n - 1]);
    }
  }

  lemma StartOk()
    ensures Inv(START)
  {
  }

  /** A hit serves a set whose every part was read after the last invalidation;
      once a change has been invalidated and nothing changed since, it serves
      exactly what the database holds. */
  lemma HitsAreFresh(states: seq<State>, events: seq<Event>, n: nat)
    requires Run(states, events) && n < |events| && events[n].Hit?
    ensures var s, k := states[n], events[n].key;
            && k in s.times
            && s.times[k].rules > s.invalidated && s.times[k].defaults > s.invalidated &&
               s.times[k].owner > s.invalidated
            && (s.changed < s.invalidated ==> s.entries[k].set_ == s.db.Fetch(k))
  {
    hide Next;
    RunsKeepInv(states, events, n);
    assert Enabled(states[n], events[n]);
  }
}
