/** The three-way merge of file sets, and the file set it produces. */
module ThreeWay {
  import opened EntryMaps
  import MergeFiles
  import Order

  // ---- sides ----

  /** What one file set has at a path. */
  datatype Side = Absent | Has(entry: Entry)

  function At(m: Entries, p: string): Side {
    if p in m then Has(m[p]) else Absent
  }

  predicate SameFile(a: Entry, b: Entry) {
    a.hash == b.hash && a.mode == b.mode
  }

  /** Equal up to content hash and mode. */
  predicate Alike(x: Side, y: Side) {
    if x.Has? && y.Has? then SameFile(x.entry, y.entry) else x.Absent? && y.Absent?
  }

  ghost predicate AlikeMaps(m: Entries, n: Entries) {
    forall p :: Alike(At(m, p), At(n, p))
  }

  function EntryOr(s: Side): Entry {
    if s.Has? then s.entry else NoEntry()
  }

  // ---- what a merge should do ----

  datatype Decision =
    | KeepOurs
    | KeepTheirs
    | TextMerge
    | BinaryConflict
    | AddAddConflict
    | ModifyDeleteConflict
    | DeleteModifyConflict

  datatype Wish = Keep(side: Side) | MergeTexts | Clash(kind: Decision)

  /** A side that kept the base yields to the other; sides that agree stay; two
      texts are merged; anything else is a conflict. */
  function Wanted(b: Side, o: Side, t: Side): Wish {
    if Alike(o, b) then Keep(t)
    else if Alike(t, b) || Alike(o, t) then Keep(o)
    else if b.Absent? then Clash(AddAddConflict)
    else if t.Absent? then Clash(ModifyDeleteConflict)
    else if o.Absent? then Clash(DeleteModifyConflict)
    else if o.entry.isBinary || t.entry.isBinary then Clash(BinaryConflict)
    else MergeTexts
  }

  // ---- the plan ----

  datatype Planned = Planned(decision: Decision, base: Entry, ours: Entry, theirs: Entry)

  function Sides(d: Decision, b: Side, o: Side, t: Side): Planned {
    Planned(d, EntryOr(b), EntryOr(o), EntryOr(t))
  }

  datatype Conflict = Conflict(path: string, planned: Planned)

  datatype Plan = Plan(entries: map<string, Planned>, deleted: seq<string>, conflicts: seq<Conflict>)

  function Enter(plan: Plan, p: string, e: Planned): Plan {
    plan.(entries := plan.entries[p := e])
  }

  function Delete(plan: Plan, p: string): Plan {
    plan.(deleted := plan.deleted + [p])
  }

  function Refuse(plan: Plan, p: string, e: Planned): Plan {
    plan.(entries := plan.entries[p := e], conflicts := plan.conflicts + [Conflict(p, e)])
  }

  ghost predicate ConflictAt(plan: Plan, p: string) {
    exists c :: c in plan.conflicts && c.path == p
  }

  /** The path is not mentioned. */
  ghost predicate Silent(plan: Plan, p: string) {
    p !in plan.entries && p !in plan.deleted && !ConflictAt(plan, p)
  }

  /** What the plan leaves at a path that is neither merged nor in conflict. */
  function Left(plan: Plan, o: Side, p: string): Side {
    if p in plan.deleted then Absent
    else if p in plan.entries && plan.entries[p].decision == KeepTheirs then Has(plan.entries[p].theirs)
    else o
  }

  /** The plan does the right thing at the path. */
  ghost predicate Right(plan: Plan, b: Side, o: Side, t: Side, p: string) {
    match Wanted(b, o, t)
    case Keep(side) =>
      && Alike(Left(plan, o, p), side) && !ConflictAt(plan, p)
      && (p in plan.entries ==>
            || plan.entries[p] == Sides(KeepOurs, b, o, t)
            || (plan.entries[p] == Sides(KeepTheirs, b, o, t) && t.Has?))
    case MergeTexts =>
      p in plan.entries && plan.entries[p] == Sides(TextMerge, b, o, t) && p !in plan.deleted && !ConflictAt(plan, p)
    case Clash(kind) =>
      p in plan.entries && plan.entries[p] == Sides(kind, b, o, t) &&
      Conflict(p, Sides(kind, b, o, t)) in plan.conflicts
  }

  /** r differs from the plan at p alone. */
  ghost predicate OnlyAt(plan: Plan, r: Plan, p: string) {
    || r == plan || r == Delete(plan, p)
    || (exists e :: r == Enter(plan, p, e))
    || (exists e :: r == Refuse(plan, p, e))
  }

  lemma OnlyAtElsewhere(plan: Plan, r: Plan, p: string, q: string)
    requires OnlyAt(plan, r, p) && q != p
    ensures q in r.entries <==> q in plan.entries
    ensures q in plan.entries ==> r.entries[q] == plan.entries[q]
    ensures q in r.deleted <==> q in plan.deleted
    ensures forall c: Conflict :: c.path == q ==> (c in r.conflicts <==> c in plan.conflicts)
    ensures ConflictAt(r, q) <==> ConflictAt(plan, q)
  {
    assert forall c: Conflict :: c.path == q ==> (c in r.conflicts <==> c in plan.conflicts);
  }

  lemma RightElsewhere(plan: Plan, r: Plan, p: string, q: string, b: Side, o: Side, t: Side)
    requires OnlyAt(plan, r, p) && q != p && Right(plan, b, o, t, q)
    ensures Right(r, b, o, t, q)
  {
    hide Wanted, Alike, OnlyAt, ConflictAt;
    OnlyAtElsewhere(plan, r, p, q);
  }

  lemma SilentElsewhere(plan: Plan, r: Plan, p: string, q: string)
    requires OnlyAt(plan, r, p) && q != p && Silent(plan, q)
    ensures Silent(r, q)
  {
    hide OnlyAt, ConflictAt;
    OnlyAtElsewhere(plan, r, p, q);
  }

  /** One path of the three-way merge. */
  method PlanPath(plan: Plan, p: string, b: Side, o: Side, t: Side) returns (r: Plan)
    requires Silent(plan, p) && (b.Has? || o.Has? || t.Has?)
    ensures Right(r, b, o, t, p)
    ensures forall q, x, y, z :: q != p && Right(plan, x, y, z, q) ==> Right(r, x, y, z, q)
    ensures forall q :: q != p && Silent(plan, q) ==> Silent(r, q)
  {
    hide Right, Silent;
    r := plan;
    if b.Has? {
      if o.Has? && t.Has? {
        if SameFile(o.entry, b.entry) && SameFile(t.entry, b.entry) {
        } else if SameFile(o.entry, t.entry) {
          r := Enter(plan, p, Sides(KeepOurs, b, o, t));
        } else if SameFile(o.entry, b.entry) {
          r := Enter(plan, p, Sides(KeepTheirs, b, o, t));
        } else if SameFile(t.entry, b.entry) {
          r := Enter(plan, p, Sides(KeepOurs, b, o, t));
        } else if o.entry.isBinary || t.entry.isBinary {
          r := Refuse(plan, p, Sides(BinaryConflict, b, o, t));
        } else {
          r := Enter(plan, p, Sides(TextMerge, b, o, t));
        }
      } else if o.Has? {
        if SameFile(o.entry, b.entry) {
          r := Delete(plan, p);
        } else {
          r := Refuse(plan, p, Sides(ModifyDeleteConflict, b, o, t));
        }
      } else if t.Has? {
        if SameFile(t.entry, b.entry) {
          r := Delete(plan, p);
        } else {
          r := Refuse(plan, p, Sides(DeleteModifyConflict, b, o, t));
        }
      } else {
        r := Delete(plan, p);
      }
    } else if o.Has? && t.Has? {
      if SameFile(o.entry, t.entry) {
        r := Enter(plan, p, Sides(KeepOurs, b, o, t));
      } else {
        r := Refuse(plan, p, Sides(AddAddConflict, b, o, t));
      }
    } else if o.Has? {
      r := Enter(plan, p, Sides(KeepOurs, b, o, t));
    } else if t.Has? {
      r := Enter(plan, p, Sides(KeepTheirs, b, o, t));
    }
    RightHere(plan, r, p, b, o, t);
    forall q, x, y, z | q != p && Right(plan, x, y, z, q) ensures Right(r, x, y, z, q) {
      RightElsewhere(plan, r, p, q, x, y, z);
    }
    forall q | q != p && Silent(plan, q) ensures Silent(r, q) {
      SilentElsewhere(plan, r, p, q);
    }
  }

  /** Entering, deleting or refusing as the cases say is right. */
  lemma RightHere(plan: Plan, r: Plan, p: string, b: Side, o: Side, t: Side)
    requires Silent(plan, p) && (b.Has? || o.Has? || t.Has?)
    requires match Wanted(b, o, t)
      case Keep(s) =>
        || (r == plan && Alike(o, s))
        || (r == Enter(plan, p, Sides(KeepOurs, b, o, t)) && Alike(o, s))
        || (r == Enter(plan, p, Sides(KeepTheirs, b, o, t)) && t.Has? && Alike(t, s))
        || (r == Delete(plan, p) && s.Absent?)
      case MergeTexts => r == Enter(plan, p, Sides(TextMerge, b, o, t))
      case Clash(kind) => r == Refuse(plan, p, Sides(kind, b, o, t))
    ensures Right(r, b, o, t, p)
  {
    hide Wanted;
  }

  /** The plan is right at every path. */
  ghost predicate RightEverywhere(plan: Plan, base: Entries, ours: Entries, theirs: Entries) {
    forall p :: Right(plan, At(base, p), At(ours, p), At(theirs, p), p)
  }

  lemma ConflictsMean(plan: Plan, base: Entries, ours: Entries, theirs: Entries)
    requires RightEverywhere(plan, base, ours, theirs)
    ensures plan.conflicts == [] <==> forall p :: !Wanted(At(base, p), At(ours, p), At(theirs, p)).Clash?
  {
    hide Wanted, Alike, At;
    if plan.conflicts != [] {
      var p := plan.conflicts[0].path;
      assert ConflictAt(plan, p);
      assert Right(plan, At(base, p), At(ours, p), At(theirs, p), p);
    } else {
      forall p ensures !Wanted(At(base, p), At(ours, p), At(theirs, p)).Clash? {
        assert Right(plan, At(base, p), At(ours, p), At(theirs, p), p);
      }
    }
  }

  lemma ConflictClashes(plan: Plan, base: Entries, ours: Entries, theirs: Entries, c: Conflict)
    requires RightEverywhere(plan, base, ours, theirs) && c in plan.conflicts
    ensures Wanted(At(base, c.path), At(ours, c.path), At(theirs, c.path)).Clash?
  {
    hide Wanted, Alike, At;
    assert ConflictAt(plan, c.path);
    assert Right(plan, At(base, c.path), At(ours, c.path), At(theirs, c.path), c.path);
  }

  lemma SilentRight(plan: Plan, p: string)
    requires Silent(plan, p)
    ensures Right(plan, Absent, Absent, Absent, p)
  {
  }

  lemma NothingPlanned()
    ensures forall p :: Silent(Plan(map[], [], []), p)
  {
  }

  lemma NotBefore(sorted: seq<string>, i: nat)
    requires Order.Sorted(sorted) && i < |sorted|
    ensures sorted[i] !in sorted[..i]
  {
    hide Order.Less;
    forall k | 0 <= k < i ensures sorted[k] != sorted[i] {
      Order.LessIrreflexive(sorted[k], sorted[i]);
    }
  }

  method PlanMerge(base: Entries, ours: Entries, theirs: Entries) returns (plan: Plan)
    ensures RightEverywhere(plan, base, ours, theirs)
  {
    hide Right, Silent, Order.Less, Wanted;
    var sorted := Order.SortKeys(base.Keys + ours.Keys + theirs.Keys);
    plan := Plan(map[], [], []);
    NothingPlanned();
    var i := 0;
    while i < |sorted|
      invariant 0 <= i <= |sorted|
      invariant forall p :: p in sorted[..i] ==> Right(plan, At(base, p), At(ours, p), At(theirs, p), p)
      invariant forall p :: p !in sorted[..i] ==> Silent(plan, p)
    {
      var p := sorted[i];
      assert p in sorted;
      NotBefore(sorted, i);
      plan := PlanPath(plan, p, At(base, p), At(ours, p), At(theirs, p));
      assert sorted[..i + 1] == sorted[..i] + [p];
      i := i + 1;
    }
    assert sorted[..i] == sorted;
    forall p ensures Right(plan, At(base, p), At(ours, p), At(theirs, p), p) {
      if p !in sorted {
        SilentRight(plan, p);
      }
    }
  }

  // ---- the merged file set ----

  /** Where contents come from and go to. */
  datatype Store = Store(load: Entry -> string, save: (string, int, string) -> Entry)

  ghost function TextOf(st: Store, e: Planned): MergeFiles.Outcome {
    MergeFiles.Merge(st.load(e.base), st.load(e.ours), st.load(e.theirs))
  }

  /** What the plan makes of a path. */
  ghost function Made(st: Store, plan: Plan, current: Entries, p: string): Side {
    if p in plan.deleted then Absent
    else if p in plan.entries && plan.entries[p].decision == TextMerge
      then Has(st.save(p, plan.entries[p].theirs.mode, TextOf(st, plan.entries[p]).text))
    else Left(plan, At(current, p), p)
  }

  ghost predicate TextConflict(st: Store, plan: Plan, p: string) {
    p in plan.entries && plan.entries[p].decision == TextMerge && TextOf(st, plan.entries[p]).conflicted
  }

  datatype Outcome = Merged(files: Entries) | Conflicted(paths: seq<string>)

  /** One entry of the plan, ignoring deletions. */
  ghost function MadeEntry(st: Store, plan: Plan, current: Entries, p: string): Side {
    Made(st, plan.(deleted := []), current, p)
  }

  lemma NotPlanned(st: Store, plan: Plan, current: Entries, p: string)
    requires p !in plan.entries
    ensures MadeEntry(st, plan, current, p) == At(current, p) && !TextConflict(st, plan, p)
  {
  }

  lemma MadeDeletes(st: Store, plan: Plan, current: Entries, p: string)
    ensures Made(st, plan, current, p) == if p in plan.deleted then Absent else MadeEntry(st, plan, current, p)
  {
  }

  method MaterializeEntry(st: Store, plan: Plan, ghost current: Entries, merged: Entries, p: string)
    returns (r: Entries, conflicted: bool)
    requires p in plan.entries && At(merged, p) == At(current, p)
    ensures conflicted == TextConflict(st, plan, p)
    ensures !conflicted ==> At(r, p) == MadeEntry(st, plan, current, p)
    ensures forall q :: q != p ==> At(r, q) == At(merged, q)
  {
    hide MergeFiles.Merge;
    var e := plan.entries[p];
    r, conflicted := merged, false;
    if e.decision == KeepTheirs {
      r := merged[p := e.theirs];
    } else if e.decision == TextMerge {
      var text;
      text, conflicted := MergeFiles.MergeContents(st.load(e.base), st.load(e.ours), st.load(e.theirs));
      if !conflicted {
        r := merged[p := st.save(p, e.theirs.mode, text)];
      }
    }
  }

  method DropDeleted(files: Entries, deleted: seq<string>) returns (r: Entries)
    ensures forall p :: At(r, p) == if p in deleted then Absent else At(files, p)
  {
    r := files;
    var i := 0;
    while i < |deleted|
      invariant 0 <= i <= |deleted|
      invariant forall p :: At(r, p) == if p in deleted[..i] then Absent else At(files, p)
    {
      r := r - {deleted[i]};
      assert deleted[..i + 1] == deleted[..i] + [deleted[i]];
      i := i + 1;
    }
    assert deleted[..i] == deleted;
  }

  method Materialize(st: Store, plan: Plan, current: Entries) returns (r: Outcome)
    ensures r.Merged? ==> forall p :: At(r.files, p) == Made(st, plan, current, p) && !TextConflict(st, plan, p)
    ensures r.Conflicted? ==> exists p :: r.paths == [p] && TextConflict(st, plan, p)
  {
    hide MadeEntry, TextConflict, Made;
    var merged := current;
    forall p | p !in plan.entries
      ensures MadeEntry(st, plan, current, p) == At(current, p) && !TextConflict(st, plan, p)
    {
      NotPlanned(st, plan, current, p);
    }
    var rest := plan.entries.Keys;
    while rest != {}
      invariant rest <= plan.entries.Keys
      invariant forall p :: At(merged, p) == if p in rest then At(current, p) else MadeEntry(st, plan, current, p)
      invariant forall p :: p !in rest ==> !TextConflict(st, plan, p)
      decreases |rest|
    {
      var p :| p in rest;
      var conflicted;
      merged, conflicted := MaterializeEntry(st, plan, current, merged, p);
      if conflicted {
        return Conflicted([p]);
      }
      rest := rest - {p};
    }
    merged := DropDeleted(merged, plan.deleted);
    forall p ensures At(merged, p) == Made(st, plan, current, p) {
      MadeDeletes(st, plan, current, p);
    }
    r := Merged(merged);
  }

  // ---- the merge law ----

  ghost predicate TextsClash(st: Store, b: Side, o: Side, t: Side) {
    Wanted(b, o, t).MergeTexts? && TextOf(st, Sides(TextMerge, b, o, t)).conflicted
  }

  /** Every path can be merged. */
  ghost predicate Mergeable(st: Store, base: Entries, ours: Entries, theirs: Entries) {
    forall p :: MergeableAt(st, At(base, p), At(ours, p), At(theirs, p))
  }

  ghost predicate MergeableAt(st: Store, b: Side, o: Side, t: Side) {
    !Wanted(b, o, t).Clash? && !TextsClash(st, b, o, t)
  }

  /** m at the path is what the merge should yield. */
  ghost predicate MergedAt(st: Store, b: Side, o: Side, t: Side, m: Side, p: string) {
    match Wanted(b, o, t)
    case Keep(side) => Alike(m, side)
    case MergeTexts => m == Has(st.save(p, EntryOr(t).mode, TextOf(st, Sides(TextMerge, b, o, t)).text))
    case Clash(_) => false
  }

  ghost predicate IsMerge(st: Store, base: Entries, ours: Entries, theirs: Entries, m: Entries) {
    forall p :: MergedAt(st, At(base, p), At(ours, p), At(theirs, p), At(m, p), p)
  }

  /** Every file of m is one of ours, one of theirs or a merged text. */
  ghost predicate MadeFrom(st: Store, ours: Entries, theirs: Entries, m: Entries) {
    forall p :: p in m ==> FromSides(st, At(ours, p), At(theirs, p), m[p], p)
  }

  ghost predicate FromSides(st: Store, o: Side, t: Side, e: Entry, p: string) {
    || Has(e) == o || Has(e) == t
    || (o.Has? && t.Has? && exists mode, text :: e == st.save(p, mode, text))
  }

  lemma MadeIsFrom(st: Store, plan: Plan, base: Entries, ours: Entries, theirs: Entries, p: string)
    requires RightEverywhere(plan, base, ours, theirs) && plan.conflicts == []
    ensures var s := Made(st, plan, ours, p); s.Has? ==> FromSides(st, At(ours, p), At(theirs, p), s.entry, p)
  {
    hide Alike, MergeFiles.Merge;
    assert Right(plan, At(base, p), At(ours, p), At(theirs, p), p);
  }

  lemma MadeIsMerged(st: Store, plan: Plan, base: Entries, ours: Entries, theirs: Entries, p: string)
    requires RightEverywhere(plan, base, ours, theirs) && plan.conflicts == []
    ensures TextConflict(st, plan, p) <==> TextsClash(st, At(base, p), At(ours, p), At(theirs, p))
    ensures MergedAt(st, At(base, p), At(ours, p), At(theirs, p), Made(st, plan, ours, p), p)
  {
    hide Wanted, Alike, MergeFiles.Merge;
    assert Right(plan, At(base, p), At(ours, p), At(theirs, p), p);
  }

  /** A side that kept the base yields to the other, and equal sides stay, all
      without conflict and up to hash and mode. */
  ghost predicate Lawful(base: Entries, ours: Entries, theirs: Entries, r: Outcome) {
    && (AlikeMaps(ours, base) ==> r.Merged? && AlikeMaps(r.files, theirs))
    && (AlikeMaps(theirs, base) ==> r.Merged? && AlikeMaps(r.files, ours))
    && (AlikeMaps(ours, theirs) ==> r.Merged? && AlikeMaps(r.files, ours) && AlikeMaps(r.files, theirs))
  }

  lemma MergeIsLawful(st: Store, base: Entries, ours: Entries, theirs: Entries, r: Outcome)
    requires r.Merged? <==> Mergeable(st, base, ours, theirs)
    requires r.Merged? ==> IsMerge(st, base, ours, theirs, r.files)
    ensures Lawful(base, ours, theirs, r)
  {
    hide Mergeable, IsMerge, AlikeMaps;
    var m := if r.Merged? then r.files else map[];
    if AlikeMaps(ours, base) { OursKeptBase(st, base, ours, theirs, m); }
    if AlikeMaps(theirs, base) { TheirsKeptBase(st, base, ours, theirs, m); }
    if AlikeMaps(ours, theirs) { SidesAgree(st, base, ours, theirs, m); }
  }

  // ---- the rule, path by path ----

  /** The same content hash and mode, or no file on either side. */
  predicate Agrees(m: Entries, n: Entries, p: string) {
    if p in m && p in n then m[p].hash == n[p].hash && m[p].mode == n[p].mode else p !in m && p !in n
  }

  /** Both sides changed the path, and not alike. */
  predicate BothChanged(base: Entries, ours: Entries, theirs: Entries, p: string) {
    !Agrees(ours, base, p) && !Agrees(theirs, base, p) && !Agrees(ours, theirs, p)
  }

  predicate AllTexts(base: Entries, ours: Entries, theirs: Entries, p: string) {
    p in base && p in ours && p in theirs && !ours[p].isBinary && !theirs[p].isBinary
  }

  /** The files themselves cannot be merged. */
  predicate FileClash(base: Entries, ours: Entries, theirs: Entries, p: string) {
    BothChanged(base, ours, theirs, p) && !AllTexts(base, ours, theirs, p)
  }

  ghost function MergedText(st: Store, base: Entries, ours: Entries, theirs: Entries, p: string): MergeFiles.Outcome
    requires AllTexts(base, ours, theirs, p)
  {
    MergeFiles.Merge(st.load(base[p]), st.load(ours[p]), st.load(theirs[p]))
  }

  ghost predicate TextClash(st: Store, base: Entries, ours: Entries, theirs: Entries, p: string) {
    && BothChanged(base, ours, theirs, p) && AllTexts(base, ours, theirs, p)
    && MergedText(st, base, ours, theirs, p).conflicted
  }

  /** A side that kept the base at the path yields to the other, sides that agree
      stay, and where both changed it the texts are merged without conflict. */
  ghost predicate PathRule(st: Store, base: Entries, ours: Entries, theirs: Entries, m: Entries, p: string) {
    && (Agrees(ours, base, p) ==> Agrees(m, theirs, p))
    && (Agrees(theirs, base, p) ==> Agrees(m, ours, p))
    && (Agrees(ours, theirs, p) ==> Agrees(m, ours, p))
    && (BothChanged(base, ours, theirs, p) ==>
          && AllTexts(base, ours, theirs, p)
          && var text := MergedText(st, base, ours, theirs, p);
             !text.conflicted && p in m && m[p] == st.save(p, theirs[p].mode, text.text))
  }

  /** Which paths stand in the way, and which of them a refusal names. */
  ghost predicate RefusalRule(st: Store, base: Entries, ours: Entries, theirs: Entries, r: Outcome) {
    && (r.Conflicted? <==> exists p :: FileClash(base, ours, theirs, p) || TextClash(st, base, ours, theirs, p))
    && (r.Conflicted? ==>
          if exists p :: FileClash(base, ours, theirs, p)
          then forall p :: p in r.paths <==> FileClash(base, ours, theirs, p)
          else exists p :: r.paths == [p] && TextClash(st, base, ours, theirs, p))
  }

  /** What the case table wants is the rule. */
  lemma WantedIsRule(st: Store, base: Entries, ours: Entries, theirs: Entries, p: string)
    ensures var b, o, t := At(base, p), At(ours, p), At(theirs, p);
            && (Wanted(b, o, t).Clash? <==> FileClash(base, ours, theirs, p))
            && (TextsClash(st, b, o, t) <==> TextClash(st, base, ours, theirs, p))
  {
    hide MergeFiles.Merge;
  }

  /** The kind of a clash says which sides have the file. */
  lemma ClashKind(b: Side, o: Side, t: Side)
    requires Wanted(b, o, t).Clash?
    ensures var kind := Wanted(b, o, t).kind;
            && (kind == AddAddConflict <==> b.Absent?)
            && (kind == ModifyDeleteConflict <==> b.Has? && t.Absent?)
            && (kind == DeleteModifyConflict <==> b.Has? && o.Absent?)
            && (kind == BinaryConflict <==> b.Has? && o.Has? && t.Has?)
    ensures b.Absent? ==> o.Has? && t.Has?
    ensures o.Absent? ==> t.Has?
  {
  }

  lemma MergedIsRule(st: Store, base: Entries, ours: Entries, theirs: Entries, m: Entries, p: string)
    requires MergeableAt(st, At(base, p), At(ours, p), At(theirs, p))
    ensures MergedAt(st, At(base, p), At(ours, p), At(theirs, p), At(m, p), p) <==>
            PathRule(st, base, ours, theirs, m, p)
  {
    hide MergeFiles.Merge;
  }

  /** A file set is the merge exactly when it follows the rule at every path. */
  lemma MergeFollowsRule(st: Store, base: Entries, ours: Entries, theirs: Entries, m: Entries)
    ensures Mergeable(st, base, ours, theirs) <==>
      forall p :: !FileClash(base, ours, theirs, p) && !TextClash(st, base, ours, theirs, p)
    ensures Mergeable(st, base, ours, theirs) ==>
      (IsMerge(st, base, ours, theirs, m) <==> forall p :: PathRule(st, base, ours, theirs, m, p))
  {
    hide PathRule, FileClash, TextClash, MergedAt, Wanted, TextsClash, At;
    forall p
      ensures MergeableAt(st, At(base, p), At(ours, p), At(theirs, p)) <==>
        !FileClash(base, ours, theirs, p) && !TextClash(st, base, ours, theirs, p)
    {
      WantedIsRule(st, base, ours, theirs, p);
    }
    if Mergeable(st, base, ours, theirs) {
      forall p
        ensures MergedAt(st, At(base, p), At(ours, p), At(theirs, p), At(m, p), p) <==>
                PathRule(st, base, ours, theirs, m, p)
      {
        MergedIsRule(st, base, ours, theirs, m, p);
      }
    }
  }

  lemma RefusalFollowsRule(st: Store, base: Entries, ours: Entries, theirs: Entries, r: Outcome)
    requires r.Merged? <==> Mergeable(st, base, ours, theirs)
    requires r.Conflicted? ==>
      if exists p :: Wanted(At(base, p), At(ours, p), At(theirs, p)).Clash?
      then forall p :: p in r.paths <==> Wanted(At(base, p), At(ours, p), At(theirs, p)).Clash?
      else exists p :: r.paths == [p] && TextsClash(st, At(base, p), At(ours, p), At(theirs, p))
    ensures RefusalRule(st, base, ours, theirs, r)
  {
    hide FileClash, TextClash, Wanted, TextsClash, At;
    forall p
      ensures Wanted(At(base, p), At(ours, p), At(theirs, p)).Clash? <==> FileClash(base, ours, theirs, p)
      ensures TextsClash(st, At(base, p), At(ours, p), At(theirs, p)) <==> TextClash(st, base, ours, theirs, p)
    {
      WantedIsRule(st, base, ours, theirs, p);
    }
  }

  /** The merge of two file sets over a base: refused exactly when some path
      cannot be merged, and otherwise right at every path. */
  method MergeOnto(st: Store, base: Entries, ours: Entries, theirs: Entries) returns (r: Outcome)
    ensures r.Merged? <==> Mergeable(st, base, ours, theirs)
    ensures r.Merged? ==> IsMerge(st, base, ours, theirs, r.files) && MadeFrom(st, ours, theirs, r.files)
    ensures r.Conflicted? ==> r.paths != [] && forall p :: p in r.paths ==>
      !MergeableAt(st, At(base, p), At(ours, p), At(theirs, p))
    ensures Lawful(base, ours, theirs, r)
    ensures r.Merged? ==> forall p :: PathRule(st, base, ours, theirs, r.files, p)
    ensures RefusalRule(st, base, ours, theirs, r)
  {
    hide RightEverywhere, Lawful, Wanted, MergedAt, TextConflict, TextsClash, Made, At, FromSides;
    hide PathRule, RefusalRule;
    var plan := PlanMerge(base, ours, theirs);
    ConflictsMean(plan, base, ours, theirs);
    if |plan.conflicts| > 0 {
      var paths: seq<string> := [];
      var i := 0;
      while i < |plan.conflicts|
        invariant 0 <= i <= |plan.conflicts| && |paths| == i
        invariant forall k :: 0 <= k < i ==> paths[k] == plan.conflicts[k].path
        invariant forall p :: p in paths ==> Wanted(At(base, p), At(ours, p), At(theirs, p)).Clash?
      {
        ConflictClashes(plan, base, ours, theirs, plan.conflicts[i]);
        paths := paths + [plan.conflicts[i].path];
        i := i + 1;
      }
      r := Conflicted(paths);
      forall p | Wanted(At(base, p), At(ours, p), At(theirs, p)).Clash? ensures p in paths {
        var k := ClashListed(plan, base, ours, theirs, p);
        assert paths[k] in paths;
      }
      MergeIsLawful(st, base, ours, theirs, r);
      RefusalFollowsRule(st, base, ours, theirs, r);
      return;
    }
    forall p
      ensures TextConflict(st, plan, p) <==> TextsClash(st, At(base, p), At(ours, p), At(theirs, p))
      ensures MergedAt(st, At(base, p), At(ours, p), At(theirs, p), Made(st, plan, ours, p), p)
    {
      MadeIsMerged(st, plan, base, ours, theirs, p);
    }
    forall p
      ensures var s := Made(st, plan, ours, p); s.Has? ==> FromSides(st, At(ours, p), At(theirs, p), s.entry, p)
    {
      MadeIsFrom(st, plan, base, ours, theirs, p);
    }
    r := Materialize(st, plan, ours);
    if r.Merged? {
      forall p | p in r.files ensures FromSides(st, At(ours, p), At(theirs, p), r.files[p], p) {
        AtHas(r.files, p);
      }
      MergeFollowsRule(st, base, ours, theirs, r.files);
    }
    MergeIsLawful(st, base, ours, theirs, r);
    RefusalFollowsRule(st, base, ours, theirs, r);
  }

  lemma ClashListed(plan: Plan, base: Entries, ours: Entries, theirs: Entries, p: string) returns (k: nat)
    requires RightEverywhere(plan, base, ours, theirs) && Wanted(At(base, p), At(ours, p), At(theirs, p)).Clash?
    ensures k < |plan.conflicts| && plan.conflicts[k].path == p
  {
    hide Wanted, At;
    var b, o, t := At(base, p), At(ours, p), At(theirs, p);
    assert Right(plan, b, o, t, p);
    k :| 0 <= k < |plan.conflicts| && plan.conflicts[k] == Conflict(p, Sides(Wanted(b, o, t).kind, b, o, t));
  }

  lemma AtHas(m: Entries, p: string)
    requires p in m
    ensures At(m, p) == Has(m[p])
  {
  }

  // ---- laws ----

  /** An unchanged target takes the source. */
  lemma OursKeptBase(st: Store, base: Entries, ours: Entries, theirs: Entries, m: Entries)
    requires AlikeMaps(ours, base)
    ensures Mergeable(st, base, ours, theirs)
    ensures IsMerge(st, base, ours, theirs, m) ==> AlikeMaps(m, theirs)
  {
    hide At, Alike, TextOf;
    forall p ensures Wanted(At(base, p), At(ours, p), At(theirs, p)) == Keep(At(theirs, p)) {
      assert Alike(At(ours, p), At(base, p));
    }
  }

  /** An unchanged source leaves the target. */
  lemma TheirsKeptBase(st: Store, base: Entries, ours: Entries, theirs: Entries, m: Entries)
    requires AlikeMaps(theirs, base)
    ensures Mergeable(st, base, ours, theirs)
    ensures IsMerge(st, base, ours, theirs, m) ==> AlikeMaps(m, ours)
  {
    hide At, TextOf;
    forall p
      ensures var w := Wanted(At(base, p), At(ours, p), At(theirs, p));
              w.Keep? && (Alike(At(m, p), w.side) ==> Alike(At(m, p), At(ours, p)))
    {
      assert Alike(At(theirs, p), At(base, p));
    }
    if IsMerge(st, base, ours, theirs, m) {
      forall p ensures Alike(At(m, p), At(ours, p)) {
        assert MergedAt(st, At(base, p), At(ours, p), At(theirs, p), At(m, p), p);
      }
    }
  }

  /** Equal sides stay as they are. */
  lemma SidesAgree(st: Store, base: Entries, ours: Entries, theirs: Entries, m: Entries)
    requires AlikeMaps(ours, theirs)
    ensures Mergeable(st, base, ours, theirs)
    ensures IsMerge(st, base, ours, theirs, m) ==> AlikeMaps(m, ours) && AlikeMaps(m, theirs)
  {
    hide At, TextOf;
    forall p ensures var w := Wanted(At(base, p), At(ours, p), At(theirs, p));
      w.Keep? && (Alike(At(m, p), w.side) ==> Alike(At(m, p), At(ours, p)) && Alike(At(m, p), At(theirs, p)))
    {
      assert Alike(At(ours, p), At(theirs, p));
    }
    if IsMerge(st, base, ours, theirs, m) {
      forall p ensures Alike(At(m, p), At(ours, p)) && Alike(At(m, p), At(theirs, p)) {
        assert MergedAt(st, At(base, p), At(ours, p), At(theirs, p), At(m, p), p);
      }
    }
  }
}
