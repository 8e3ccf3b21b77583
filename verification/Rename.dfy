/** Rename detection: deletions and additions of similar files are joined,
    best matches first. */
module Rename {
  import opened Basics
  import opened TreeHash
  import opened EntryMaps
  import opened ThreeWay
  import opened LineMatches
  import Order

  // ---- similarity ----

  /** The share of common lines, in percent of the larger file; lines are compared
      by their code. */
  function LineSimilarity(a: seq<Code>, b: seq<Code>): nat {
    var denom := Max(|a|, |b|);
    if denom == 0 then 0 else |multiset(a) * multiset(b)| * 100 / denom
  }

  lemma CommonAtMost(a: multiset<Code>, b: multiset<Code>)
    ensures |a * b| <= |a| && |a * b| <= |b|
  {
    assert a == (a * b) + (a - b);
    assert b == (a * b) + (b - a);
  }

  function CountKnown(seen: seq<Hash>, hs: seq<Hash>): nat {
    if hs == [] then 0 else CountKnown(seen, hs[..|hs| - 1]) + if hs[|hs| - 1] in seen then 1 else 0
  }

  lemma {:induction false} CountKnownAtMost(seen: seq<Hash>, hs: seq<Hash>)
    ensures CountKnown(seen, hs) <= |hs|
  {
    if hs != [] {
      CountKnownAtMost(seen, hs[..|hs| - 1]);
    }
  }

  /** The share of the new file's chunks that the old file has. */
  function ChunkSimilarity(o: Entry, n: Entry): nat {
    if o.chunks == [] || n.chunks == [] then 0
    else CountKnown(o.chunks, n.chunks) * 100 / Max(|o.chunks|, |n.chunks|)
  }

  /** The codes of a file's lines, where its content can be had. */
  datatype Lines = Unavailable | Lines(codes: seq<Code>)

  function Similarity(load: Entry -> Lines, o: Entry, n: Entry): nat {
    if o.hash == n.hash then 100
    else if !o.isBinary && !n.isBinary && load(o).Lines? &&
         load(n).Lines? then LineSimilarity(load(o).codes, load(n).codes)
    else ChunkSimilarity(o, n)
  }

  lemma PercentAtMost(x: nat, d: nat)
    requires x <= d && d > 0
    ensures x * 100 / d <= 100
  {
    QuotientAtMost(x * 100, d, 100);
  }

  lemma QuotientAtMost(a: nat, d: nat, q: nat)
    requires d > 0 && a <= q * d
    ensures a / d <= q
  {
    var r := a / d;
    assert a == r * d + a % d;
    assert (q + 1) * d == q * d + d;
    if r > q {
      Multiples(r, q + 1, d);
    }
  }

  lemma Multiples(a: nat, b: nat, d: nat)
    requires a >= b
    ensures a * d >= b * d
  {
    assert (a - b) * d >= 0;
    assert a * d == b * d + (a - b) * d;
  }

  lemma SimilarityAtMost(load: Entry -> Lines, o: Entry, n: Entry)
    ensures Similarity(load, o, n) <= 100
  {
    hide CountKnown;
    if load(o).Lines? && load(n).Lines? {
      var a, b := load(o).codes, load(n).codes;
      CommonAtMost(multiset(a), multiset(b));
      if Max(|a|, |b|) > 0 {
        PercentAtMost(|multiset(a) * multiset(b)|, Max(|a|, |b|));
      }
    }
    if o.chunks != [] && n.chunks != [] {
      CountKnownAtMost(o.chunks, n.chunks);
      PercentAtMost(CountKnown(o.chunks, n.chunks), Max(|o.chunks|, |n.chunks|));
    }
  }

  // ---- what a score says ----

  /** The percentage of k in d, rounded down; nothing of nothing is 0. */
  predicate IsPercent(score: int, k: nat, d: nat) {
    if d == 0 then score == 0 else score * d <= k * 100 < score * d + d
  }

  lemma PercentUnique(x: int, y: int, k: nat, d: nat)
    requires IsPercent(x, k, d) && IsPercent(y, k, d)
    ensures x == y
  {
    if d > 0 && x < y {
      RiseBy(x, y, d);
    } else if d > 0 && y < x {
      RiseBy(y, x, d);
    }
  }

  lemma RiseBy(x: int, y: int, d: nat)
    requires x < y
    ensures x * d + d <= y * d
  {
    var k := y - x - 1;
    assert y == x + 1 + k;
    assert y * d == x * d + d + k * d;
  }

  lemma QuotientIsPercent(k: nat, d: nat)
    requires d > 0
    ensures IsPercent(k * 100 / d, k, d)
  {
    var q := k * 100 / d;
    assert k * 100 == q * d + k * 100 % d;
  }

  /** Both contents can be had and are text. */
  predicate BothTexts(load: Entry -> Lines, o: Entry, n: Entry) {
    !o.isBinary && !n.isBinary && load(o).Lines? && load(n).Lines?
  }

  /** The chunks of the new file that occur among the old one's. */
  ghost function KnownChunks(o: Entry, n: Entry): set<int> {
    KnownAt(o.chunks, n.chunks)
  }

  ghost function KnownAt(seen: seq<Hash>, hs: seq<Hash>): set<int> {
    set j | 0 <= j < |hs| && hs[j] in seen
  }

  /** The score of two files: 100 for one hash, else the share of lines that can be
      matched one to one, else the share of new chunks that occur among the old. */
  ghost predicate ScoreOf(load: Entry -> Lines, o: Entry, n: Entry, score: int) {
    if o.hash == n.hash then score == 100
    else if BothTexts(load, o, n) then
      var a, b := load(o).codes, load(n).codes;
      exists k: nat :: MostMatched(a, b, k) && IsPercent(score, k, Max(|a|, |b|))
    else
      var d := if o.chunks == [] || n.chunks == [] then 0 else Max(|o.chunks|, |n.chunks|);
      IsPercent(score, |KnownChunks(o, n)|, d)
  }

  lemma ScoreUnique(load: Entry -> Lines, o: Entry, n: Entry, x: int, y: int)
    requires ScoreOf(load, o, n, x) && ScoreOf(load, o, n, y)
    ensures x == y
  {
    hide MostMatched, IsPercent;
    if o.hash != n.hash && BothTexts(load, o, n) {
      var a, b := load(o).codes, load(n).codes;
      var k: nat :| MostMatched(a, b, k) && IsPercent(x, k, Max(|a|, |b|));
      var l: nat :| MostMatched(a, b, l) && IsPercent(y, l, Max(|a|, |b|));
      MostUnique(a, b, k, l);
      PercentUnique(x, y, k, Max(|a|, |b|));
    } else if o.hash != n.hash {
      var d := if o.chunks == [] || n.chunks == [] then 0 else Max(|o.chunks|, |n.chunks|);
      PercentUnique(x, y, |KnownChunks(o, n)|, d);
    }
  }

  lemma {:induction false} CountKnownIs(seen: seq<Hash>, hs: seq<Hash>)
    ensures CountKnown(seen, hs) == |KnownAt(seen, hs)|
  {
    if hs == [] {
      assert KnownAt(seen, hs) == {};
    } else {
      var init, p := hs[..|hs| - 1], |hs| - 1;
      CountKnownIs(seen, init);
      assert KnownAt(seen, hs) == if hs[p] in seen then KnownAt(seen, init) + {p} else KnownAt(seen, init);
    }
  }

  /** What is computed is the score. */
  lemma SimilarityIsScore(load: Entry -> Lines, o: Entry, n: Entry)
    ensures ScoreOf(load, o, n, Similarity(load, o, n))
  {
    hide MostMatched, CountKnown, IsPercent;
    if o.hash == n.hash {
    } else if BothTexts(load, o, n) {
      var a, b := load(o).codes, load(n).codes;
      CommonIsMost(a, b);
      LinePercent(a, b);
    } else {
      CountKnownIs(o.chunks, n.chunks);
      ChunkPercent(o, n);
    }
  }

  lemma LinePercent(a: seq<Code>, b: seq<Code>)
    ensures IsPercent(LineSimilarity(a, b), |multiset(a) * multiset(b)|, Max(|a|, |b|))
  {
    if Max(|a|, |b|) > 0 {
      QuotientIsPercent(|multiset(a) * multiset(b)|, Max(|a|, |b|));
    }
  }

  lemma ChunkPercent(o: Entry, n: Entry)
    ensures var d := if o.chunks == [] || n.chunks == [] then 0 else Max(|o.chunks|, |n.chunks|);
            IsPercent(ChunkSimilarity(o, n), CountKnown(o.chunks, n.chunks), d)
  {
    hide CountKnown;
    if o.chunks != [] && n.chunks != [] {
      QuotientIsPercent(CountKnown(o.chunks, n.chunks), Max(|o.chunks|, |n.chunks|));
    }
  }

  /** The same lines in any order score 100, and nothing in common scores 0. */
  lemma ScoreExtremes(load: Entry -> Lines, o: Entry, n: Entry, score: int)
    requires ScoreOf(load, o, n, score) && o.hash != n.hash && BothTexts(load, o, n)
    ensures var a, b := load(o).codes, load(n).codes;
            && (multiset(a) == multiset(b) && a != [] ==> score == 100)
            && ((forall x :: x in a ==> x !in b) ==> score == 0)
  {
    hide MostMatched, IsPercent;
    var a, b := load(o).codes, load(n).codes;
    var k: nat :| MostMatched(a, b, k) && IsPercent(score, k, Max(|a|, |b|));
    CommonIsMost(a, b);
    MostUnique(a, b, k, |multiset(a) * multiset(b)|);
    if multiset(a) == multiset(b) && a != [] {
      SameLines(a, b);
      AllIsPercent(score, |a|);
    }
    if forall x :: x in a ==> x !in b {
      NothingShared(a, b);
      NoneIsPercent(score, Max(|a|, |b|));
    }
  }

  lemma SameLines(a: seq<Code>, b: seq<Code>)
    requires multiset(a) == multiset(b)
    ensures |multiset(a) * multiset(b)| == |a| == |b|
  {
    assert multiset(a) * multiset(b) == multiset(a);
    assert |a| == |multiset(a)| && |b| == |multiset(b)|;
  }

  lemma NothingShared(a: seq<Code>, b: seq<Code>)
    requires forall x :: x in a ==> x !in b
    ensures |multiset(a) * multiset(b)| == 0
  {
    forall x ensures (multiset(a) * multiset(b))[x] == 0 {
      assert x in multiset(a) <==> x in a;
      assert x in multiset(b) <==> x in b;
    }
    assert multiset(a) * multiset(b) == multiset{};
  }

  lemma AllIsPercent(score: int, d: nat)
    requires IsPercent(score, d, d) && d > 0
    ensures score == 100
  {
    assert IsPercent(100, d, d);
    PercentUnique(score, 100, d, d);
  }

  lemma NoneIsPercent(score: int, d: nat)
    requires IsPercent(score, 0, d)
    ensures score == 0
  {
    if d > 0 {
      assert IsPercent(0, 0, d);
      PercentUnique(score, 0, 0, d);
    }
  }

  // ---- candidate pairs ----

  datatype Candidate = Candidate(oldIdx: int, newIdx: int, score: int)

  /** A deletion and an addition that are similar enough. */
  ghost predicate Eligible(changes: seq<Change>, load: Entry -> Lines, threshold: int, c: Candidate) {
    && 0 <= c.oldIdx < |changes| && 0 <= c.newIdx < |changes|
    && changes[c.oldIdx].status == Deleted && changes[c.newIdx].status == Added
    && c.score == Similarity(load, changes[c.oldIdx].before, changes[c.newIdx].after)
    && c.score >= threshold
  }

  /** Being eligible, said by the score. */
  lemma EligibleIffScore(changes: seq<Change>, load: Entry -> Lines, threshold: int, c: Candidate)
    ensures Eligible(changes, load, threshold, c) <==>
      && 0 <= c.oldIdx < |changes| && 0 <= c.newIdx < |changes|
      && changes[c.oldIdx].status == Deleted && changes[c.newIdx].status == Added
      && ScoreOf(load, changes[c.oldIdx].before, changes[c.newIdx].after, c.score) && c.score >= threshold
  {
    hide Similarity, ScoreOf;
    if 0 <= c.oldIdx < |changes| && 0 <= c.newIdx < |changes| {
      var o, n := changes[c.oldIdx].before, changes[c.newIdx].after;
      SimilarityIsScore(load, o, n);
      if ScoreOf(load, o, n, c.score) {
        ScoreUnique(load, o, n, c.score, Similarity(load, o, n));
      }
    }
  }

  /** Better score first, then by the old path, then by the new path. */
  predicate Precedes(x: Ranked, y: Ranked) {
    if x.score != y.score then x.score > y.score
    else if x.oldPath != y.oldPath then Order.Less(x.oldPath, y.oldPath)
    else Order.Less(x.newPath, y.newPath)
  }

  datatype Ranked = Ranked(score: int, oldPath: string, newPath: string)

  function RankOf(changes: seq<Change>, c: Candidate): Ranked {
    Ranked(c.score, PathAt(changes, c.oldIdx), PathAt(changes, c.newIdx))
  }

  function PathAt(changes: seq<Change>, i: int): string {
    if 0 <= i < |changes| then changes[i].path else ""
  }

  lemma PrecedesTransitive(x: Ranked, y: Ranked, z: Ranked)
    requires !Precedes(y, x) && !Precedes(z, y)
    ensures !Precedes(z, x)
  {
    hide Order.Less;
    NotLess(x.oldPath, y.oldPath, z.oldPath);
    NotLess(x.newPath, y.newPath, z.newPath);
  }

  lemma NotLess(a: string, b: string, c: string)
    ensures !Order.Less(b, a) && !Order.Less(c, b) ==> !Order.Less(c, a)
    ensures !Order.Less(b, a) && b != a ==> Order.Less(a, b)
    ensures !Order.Less(c, b) && c != b ==> Order.Less(b, c)
    ensures !Order.Less(c, a) && c != a ==> Order.Less(a, c)
    ensures Order.Less(a, b) ==> !Order.Less(b, a)
    ensures Order.Less(b, c) ==> !Order.Less(c, b)
  {
    hide Order.Less;
    Order.LessTotal(a, b);
    Order.LessTotal(b, c);
    Order.LessTotal(a, c);
    if Order.Less(a, b) { Order.LessIrreflexive(a, b); }
    if Order.Less(b, c) { Order.LessIrreflexive(b, c); }
    if Order.Less(a, b) && Order.Less(b, c) {
      Order.LessTransitive(a, b, c);
      Order.LessIrreflexive(a, c);
    }
  }

  lemma PrecedesAsymmetric(x: Ranked, y: Ranked)
    requires Precedes(x, y)
    ensures !Precedes(y, x)
  {
    hide Order.Less;
    NotLess(x.oldPath, y.oldPath, y.oldPath);
    NotLess(x.newPath, y.newPath, y.newPath);
  }

  ghost predicate InOrder(changes: seq<Change>, ps: seq<Candidate>) {
    forall i, j :: 0 <= i < j < |ps| ==> !Precedes(RankOf(changes, ps[j]), RankOf(changes, ps[i]))
  }

  lemma InsertInOrder(changes: seq<Change>, ps: seq<Candidate>, c: Candidate, i: nat)
    requires InOrder(changes, ps) && i <= |ps|
    requires forall k :: i <= k < |ps| ==> Precedes(RankOf(changes, c), RankOf(changes, ps[k]))
    requires i > 0 ==> !Precedes(RankOf(changes, c), RankOf(changes, ps[i - 1]))
    ensures InOrder(changes, ps[..i] + [c] + ps[i..])
  {
    hide Precedes, RankOf;
    var r := ps[..i] + [c] + ps[i..];
    forall k | i <= k < |ps| ensures !Precedes(RankOf(changes, ps[k]), RankOf(changes, c)) {
      PrecedesAsymmetric(RankOf(changes, c), RankOf(changes, ps[k]));
    }
    forall k | 0 <= k < i ensures !Precedes(RankOf(changes, c), RankOf(changes, ps[k])) {
      if k < i - 1 {
        PrecedesTransitive(RankOf(changes, ps[k]), RankOf(changes, ps[i - 1]), RankOf(changes, c));
      }
    }
    assert forall k :: 0 <= k < i ==> r[k] == ps[k];
    assert forall k :: i < k < |r| ==> r[k] == ps[k - 1];
  }

  /** The candidates in the order in which they are tried. */
  method SortCandidates(changes: seq<Change>, ps: seq<Candidate>) returns (r: seq<Candidate>)
    ensures InOrder(changes, r) && forall c :: c in r <==> c in ps
  {
    hide Precedes, RankOf;
    r := [];
    var n := 0;
    while n < |ps|
      invariant 0 <= n <= |ps| && InOrder(changes, r)
      invariant forall c :: c in r <==> c in ps[..n]
    {
      var c := ps[n];
      var i := |r|;
      while i > 0 && Precedes(RankOf(changes, c), RankOf(changes, r[i - 1]))
        invariant 0 <= i <= |r|
        invariant forall k :: i <= k < |r| ==> Precedes(RankOf(changes, c), RankOf(changes, r[k]))
      {
        i := i - 1;
      }
      InsertInOrder(changes, r, c, i);
      InsertMembers(r, c, i);
      r := r[..i] + [c] + r[i..];
      assert ps[..n + 1] == ps[..n] + [c];
      n := n + 1;
    }
    assert ps[..n] == ps;
  }

  lemma InsertMembers(r: seq<Candidate>, c: Candidate, i: nat)
    requires i <= |r|
    ensures forall x :: x in r[..i] + [c] + r[i..] <==> x in r || x == c
  {
    assert r == r[..i] + r[i..];
  }

  /** All eligible pairs. */
  method Candidates(changes: seq<Change>, load: Entry -> Lines, threshold: int) returns (ps: seq<Candidate>)
    ensures forall c :: c in ps <==> Eligible(changes, load, threshold, c)
  {
    hide Similarity;
    ps := [];
    var i := 0;
    while i < |changes|
      invariant 0 <= i <= |changes|
      invariant forall c :: c in ps <==> Eligible(changes, load, threshold, c) && c.oldIdx < i
    {
      if changes[i].status == Deleted {
        var j := 0;
        while j < |changes|
          invariant 0 <= j <= |changes|
          invariant forall c :: c in ps <==>
            Eligible(changes, load, threshold, c) && (c.oldIdx < i || (c.oldIdx == i && c.newIdx < j))
        {
          if changes[j].status == Added {
            var score := Similarity(load, changes[i].before, changes[j].after);
            if score >= threshold {
              ps := ps + [Candidate(i, j, score)];
            }
          }
          j := j + 1;
        }
      }
      i := i + 1;
    }
  }

  // ---- greedy choice ----

  ghost predicate UsesOld(chosen: seq<Candidate>, i: int) {
    exists c :: c in chosen && c.oldIdx == i
  }

  ghost predicate UsesNew(chosen: seq<Candidate>, j: int) {
    exists c :: c in chosen && c.newIdx == j
  }

  /** No deletion and no addition is used twice. */
  ghost predicate OneToOne(chosen: seq<Candidate>) {
    forall i, j :: 0 <= i < j < |chosen| ==>
      chosen[i].oldIdx != chosen[j].oldIdx && chosen[i].newIdx != chosen[j].newIdx
  }

  /** The candidate is taken, or one of its files has a match at least as good. */
  ghost predicate Settled(chosen: seq<Candidate>, p: Candidate) {
    exists c :: c in chosen && c.score >= p.score && (c.oldIdx == p.oldIdx || c.newIdx == p.newIdx)
  }

  /** c has the higher score, or at the same score the smaller old path, or with the
      same old path the smaller new one. */
  ghost predicate TriedBefore(changes: seq<Change>, c: Candidate, p: Candidate) {
    || c.score > p.score
    || (c.score == p.score && Order.Less(PathAt(changes, c.oldIdx), PathAt(changes, p.oldIdx)))
    || (c.score == p.score && PathAt(changes, c.oldIdx) == PathAt(changes, p.oldIdx) &&
        Order.Less(PathAt(changes, c.newIdx), PathAt(changes, p.newIdx)))
  }

  /** The candidate is taken, or one tried before it has one of its files. */
  ghost predicate Greedy(changes: seq<Change>, chosen: seq<Candidate>, p: Candidate) {
    p in chosen || exists c :: c in chosen && TriedBefore(changes, c, p) &&
                               (c.oldIdx == p.oldIdx || c.newIdx == p.newIdx)
  }

  lemma InTurn(changes: seq<Change>, ps: seq<Candidate>, i: nat, k: nat)
    requires InOrder(changes, ps) && DistinctPaths(changes) && i < k < |ps|
    requires Indexed(changes, [ps[i], ps[k]])
    ensures ps[i] == ps[k] || TriedBefore(changes, ps[i], ps[k])
  {
    hide Order.Less;
    var c, p := ps[i], ps[k];
    assert c in [c, p] && p in [c, p];
    assert !Precedes(RankOf(changes, p), RankOf(changes, c));
    Order.LessTotal(PathAt(changes, c.oldIdx), PathAt(changes, p.oldIdx));
    Order.LessTotal(PathAt(changes, c.newIdx), PathAt(changes, p.newIdx));
    if Order.Less(PathAt(changes, c.oldIdx), PathAt(changes, p.oldIdx)) {
      Order.LessIrreflexive(PathAt(changes, c.oldIdx), PathAt(changes, p.oldIdx));
    }
  }

  lemma UsedBefore(changes: seq<Change>, ps: seq<Candidate>, chosen: seq<Candidate>, k: nat)
    requires InOrder(changes, ps) && DistinctPaths(changes) && Indexed(changes, ps) && k < |ps|
    requires forall c :: c in chosen ==> c in ps[..k]
    requires UsesOld(chosen, ps[k].oldIdx) || UsesNew(chosen, ps[k].newIdx)
    ensures Greedy(changes, chosen, ps[k])
  {
    hide InOrder, TriedBefore;
    var c :| c in chosen && (c.oldIdx == ps[k].oldIdx || c.newIdx == ps[k].newIdx);
    var i :| 0 <= i < k && ps[i] == c;
    assert ps[k] in ps && c in ps;
    InTurn(changes, ps, i, k);
  }

  lemma GreedyMore(changes: seq<Change>, chosen: seq<Candidate>, c: Candidate)
    ensures forall p :: Greedy(changes, chosen, p) ==> Greedy(changes, chosen + [c], p)
    ensures Greedy(changes, chosen + [c], c)
  {
    hide TriedBefore;
    assert forall x :: x in chosen ==> x in chosen + [c];
    assert c in chosen + [c];
  }

  method Choose(changes: seq<Change>, ps: seq<Candidate>) returns (chosen: seq<Candidate>)
    requires InOrder(changes, ps) && DistinctPaths(changes) && Indexed(changes, ps)
    ensures OneToOne(chosen) && (forall c :: c in chosen ==> c in ps)
    ensures forall p :: p in ps ==> Settled(chosen, p) && Greedy(changes, chosen, p)
  {
    hide Precedes, Greedy, InOrder;
    chosen := [];
    var usedOld: map<int, bool>, usedNew: map<int, bool> := map[], map[];
    var k := 0;
    while k < |ps|
      invariant 0 <= k <= |ps| && OneToOne(chosen)
      invariant forall c :: c in chosen ==> c in ps[..k]
      invariant forall i :: i in usedOld <==> UsesOld(chosen, i)
      invariant forall j :: j in usedNew <==> UsesNew(chosen, j)
      invariant forall p :: p in ps[..k] ==> Settled(chosen, p) && Greedy(changes, chosen, p)
    {
      var p := ps[k];
      assert ps[..k + 1] == ps[..k] + [p];
      BetterBefore(changes, ps, k);
      if p.oldIdx !in usedOld && p.newIdx !in usedNew {
        ChooseOne(chosen, p);
        GreedyMore(changes, chosen, p);
        usedOld, usedNew := usedOld[p.oldIdx := true], usedNew[p.newIdx := true];
        chosen := chosen + [p];
      } else {
        UsedBefore(changes, ps, chosen, k);
      }
      k := k + 1;
    }
    assert ps[..k] == ps;
  }

  lemma BetterBefore(changes: seq<Change>, ps: seq<Candidate>, k: nat)
    requires InOrder(changes, ps) && k < |ps|
    ensures forall c :: c in ps[..k] ==> c.score >= ps[k].score
  {
    forall i | 0 <= i < k ensures ps[i].score >= ps[k].score {
      assert !Precedes(RankOf(changes, ps[k]), RankOf(changes, ps[i]));
    }
  }

  lemma ChooseOne(chosen: seq<Candidate>, p: Candidate)
    requires OneToOne(chosen) && !UsesOld(chosen, p.oldIdx) && !UsesNew(chosen, p.newIdx)
    ensures OneToOne(chosen + [p]) && Settled(chosen + [p], p)
    ensures forall q :: Settled(chosen, q) ==> Settled(chosen + [p], q)
    ensures forall i :: UsesOld(chosen + [p], i) <==> UsesOld(chosen, i) || i == p.oldIdx
    ensures forall j :: UsesNew(chosen + [p], j) <==> UsesNew(chosen, j) || j == p.newIdx
  {
    var all := chosen + [p];
    assert p in all && forall c :: c in all <==> c in chosen || c == p;
    forall k | 0 <= k < |chosen| ensures chosen[k].oldIdx != p.oldIdx && chosen[k].newIdx != p.newIdx {
      assert chosen[k] in chosen;
    }
  }

  // ---- rewriting ----

  function RenameOf(changes: seq<Change>, c: Candidate): Change
    requires 0 <= c.oldIdx < |changes| && 0 <= c.newIdx < |changes|
  {
    Change(changes[c.newIdx].path, Renamed, changes[c.oldIdx].before, changes[c.newIdx].after, c.score)
  }

  ghost predicate Chosen(changes: seq<Change>, load: Entry -> Lines, threshold: int, chosen: seq<Candidate>) {
    OneToOne(chosen) && forall c :: c in chosen ==> Eligible(changes, load, threshold, c)
  }

  /** A change is left alone. */
  ghost predicate Untouched(changes: seq<Change>, chosen: seq<Candidate>, i: int) {
    0 <= i < |changes| && !UsesOld(chosen, i) && !UsesNew(chosen, i)
  }

  /** The output: the changes left alone and one rename per chosen pair. */
  ghost predicate Rewrites(changes: seq<Change>, chosen: seq<Candidate>, out: seq<Change>)
    requires forall c :: c in chosen ==> 0 <= c.oldIdx < |changes| && 0 <= c.newIdx < |changes|
  {
    forall x :: x in out <==>
      || (exists i :: Untouched(changes, chosen, i) && changes[i] == x)
      || (exists c :: c in chosen && RenameOf(changes, c) == x)
  }

  ghost predicate Indexed(changes: seq<Change>, chosen: seq<Candidate>) {
    forall c :: c in chosen ==> 0 <= c.oldIdx < |changes| && 0 <= c.newIdx < |changes|
  }

  /** The renames by deleted position, and the additions they use up. */
  method Record(changes: seq<Change>, chosen: seq<Candidate>)
    returns (renamed: map<int, Change>, consumed: map<int, bool>)
    requires Indexed(changes, chosen) && OneToOne(chosen)
    ensures forall i :: i in renamed <==> UsesOld(chosen, i)
    ensures forall c :: c in chosen ==> c.oldIdx in renamed && renamed[c.oldIdx] == RenameOf(changes, c)
    ensures forall j :: j in consumed <==> UsesNew(chosen, j)
  {
    hide UsesOld, UsesNew;
    renamed, consumed := map[], map[];
    NoneUsed(chosen);
    var k := 0;
    while k < |chosen|
      invariant 0 <= k <= |chosen|
      invariant forall i :: i in renamed <==> UsesOld(chosen[..k], i)
      invariant forall x :: 0 <= x < k ==>
        chosen[x] in chosen && chosen[x].oldIdx in renamed && renamed[chosen[x].oldIdx] == RenameOf(changes, chosen[x])
      invariant forall j :: j in consumed <==> UsesNew(chosen[..k], j)
    {
      var c := chosen[k];
      UsesMore(chosen, k);
      renamed := renamed[c.oldIdx := RenameOf(changes, c)];
      consumed := consumed[c.newIdx := true];
      k := k + 1;
    }
    assert chosen[..k] == chosen;
  }

  lemma NoneUsed(chosen: seq<Candidate>)
    ensures forall i :: !UsesOld(chosen[..0], i) && !UsesNew(chosen[..0], i)
  {
  }

  lemma UsesMore(chosen: seq<Candidate>, k: nat)
    requires k < |chosen|
    ensures forall i :: UsesOld(chosen[..k + 1], i) <==> UsesOld(chosen[..k], i) || i == chosen[k].oldIdx
    ensures forall j :: UsesNew(chosen[..k + 1], j) <==> UsesNew(chosen[..k], j) || j == chosen[k].newIdx
  {
    var a, b := chosen[..k], chosen[..k + 1];
    assert b == a + [chosen[k]];
    assert chosen[k] in b;
    forall i | UsesOld(a, i) ensures UsesOld(b, i) {
      var c :| c in a && c.oldIdx == i;
      assert c in b;
    }
    forall j | UsesNew(a, j) ensures UsesNew(b, j) {
      var c :| c in a && c.newIdx == j;
      assert c in b;
    }
  }

  /** x is what becomes of the change at position i. */
  ghost predicate Becomes(changes: seq<Change>, chosen: seq<Candidate>, i: int, x: Change)
    requires Indexed(changes, chosen)
  {
    && 0 <= i < |changes| && !UsesNew(chosen, i)
    && if UsesOld(chosen, i) then exists c :: c in chosen && c.oldIdx == i && RenameOf(changes, c) == x
       else changes[i] == x
  }

  /** The changes at these positions, rewritten: all that are not used up, in order. */
  ghost predicate RewrittenFrom(changes: seq<Change>, chosen: seq<Candidate>, out: seq<Change>, pos: seq<int>)
    requires Indexed(changes, chosen)
  {
    && |pos| == |out| && (forall k :: 0 <= k < |out| ==> Becomes(changes, chosen, pos[k], out[k]))
    && (forall k, l :: 0 <= k < l < |pos| ==> pos[k] < pos[l])
    && (forall i :: 0 <= i < |changes| && !UsesNew(chosen, i) ==> i in pos)
  }

  method Rewrite(changes: seq<Change>, chosen: seq<Candidate>) returns (out: seq<Change>)
    requires Indexed(changes, chosen) && OneToOne(chosen)
    ensures exists pos :: RewrittenFrom(changes, chosen, out, pos)
  {
    hide UsesOld, UsesNew, Becomes;
    var renamed, consumed := Record(changes, chosen);
    out := [];
    ghost var pos: seq<int> := [];
    var i := 0;
    while i < |changes|
      invariant 0 <= i <= |changes| && |pos| == |out|
      invariant forall k :: 0 <= k < |out| ==> pos[k] < i && Becomes(changes, chosen, pos[k], out[k])
      invariant forall k, l :: 0 <= k < l < |pos| ==> pos[k] < pos[l]
      invariant forall x :: 0 <= x < i && !UsesNew(chosen, x) ==> x in pos
    {
      if i !in consumed {
        var x := if i in renamed then renamed[i] else changes[i];
        RecordedBecomes(changes, chosen, renamed, i);
        out, pos := out + [x], pos + [i];
        assert pos[|pos| - 1] == i;
      }
      i := i + 1;
    }
    assert RewrittenFrom(changes, chosen, out, pos);
  }

  lemma RecordedBecomes(changes: seq<Change>, chosen: seq<Candidate>, renamed: map<int, Change>, i: int)
    requires Indexed(changes, chosen) && 0 <= i < |changes| && !UsesNew(chosen, i)
    requires i in renamed <==> UsesOld(chosen, i)
    requires forall c :: c in chosen ==> c.oldIdx in renamed && renamed[c.oldIdx] == RenameOf(changes, c)
    ensures Becomes(changes, chosen, i, if i in renamed then renamed[i] else changes[i])
  {
    hide UsesOld, UsesNew;
    if i in renamed {
      OldUsed(chosen, i);
    }
  }

  lemma OldUsed(chosen: seq<Candidate>, i: int)
    requires UsesOld(chosen, i)
    ensures exists c :: c in chosen && c.oldIdx == i
  {
  }

  ghost predicate DistinctPaths(changes: seq<Change>) {
    forall i, j :: 0 <= i < j < |changes| ==> changes[i].path != changes[j].path
  }

  lemma RewrittenPath(changes: seq<Change>, chosen: seq<Candidate>, i: int, x: Change) returns (s: int)
    requires Indexed(changes, chosen) && Becomes(changes, chosen, i, x)
    ensures 0 <= s < |changes| && x.path == changes[s].path
    ensures s == i || (exists c :: c in chosen && c.oldIdx == i && c.newIdx == s)
    ensures s == i ==> !UsesNew(chosen, i)
  {
    if UsesOld(chosen, i) {
      var c :| c in chosen && c.oldIdx == i && RenameOf(changes, c) == x;
      s := c.newIdx;
      assert s == i ==> UsesNew(chosen, i);
    } else {
      s := i;
    }
  }

  lemma TwoRewritten(changes: seq<Change>, chosen: seq<Candidate>, i: int, x: Change, j: int, y: Change)
    requires Indexed(changes, chosen) && OneToOne(chosen) && DistinctPaths(changes)
    requires i != j && Becomes(changes, chosen, i, x) && Becomes(changes, chosen, j, y)
    ensures x.path != y.path
  {
    var s := RewrittenPath(changes, chosen, i, x);
    var t := RewrittenPath(changes, chosen, j, y);
    if s != i && t != j {
      var c :| c in chosen && c.oldIdx == i && c.newIdx == s;
      var e :| e in chosen && e.oldIdx == j && e.newIdx == t;
      DifferentNew(chosen, c, e);
    } else if s != i {
      assert UsesNew(chosen, s);
    } else if t != j {
      assert UsesNew(chosen, t);
    }
  }

  lemma DifferentNew(chosen: seq<Candidate>, c: Candidate, e: Candidate)
    requires OneToOne(chosen) && c in chosen && e in chosen && c.oldIdx != e.oldIdx
    ensures c.newIdx != e.newIdx
  {
    var k :| 0 <= k < |chosen| && chosen[k] == c;
    var l :| 0 <= l < |chosen| && chosen[l] == e;
  }

  lemma RewriteMeans(changes: seq<Change>, chosen: seq<Candidate>, out: seq<Change>, pos: seq<int>)
    requires Indexed(changes, chosen) && |pos| == |out| &&
             (forall k :: 0 <= k < |out| ==> Becomes(changes, chosen, pos[k], out[k]))
    requires forall i :: 0 <= i < |changes| && !UsesNew(chosen, i) ==> i in pos
    requires OneToOne(chosen) && forall c :: c in chosen ==>
      changes[c.oldIdx].status == Deleted && changes[c.newIdx].status == Added
    ensures Rewrites(changes, chosen, out)
  {
    forall x | x in out
      ensures (exists i :: Untouched(changes, chosen, i) && changes[i] == x) ||
              (exists c :: c in chosen && RenameOf(changes, c) == x)
    {
      var k :| 0 <= k < |out| && out[k] == x;
      assert Becomes(changes, chosen, pos[k], x);
      if !UsesOld(chosen, pos[k]) {
        assert Untouched(changes, chosen, pos[k]);
      }
    }
    forall i | Untouched(changes, chosen, i) ensures changes[i] in out {
      assert i in pos;
      var k :| 0 <= k < |pos| && pos[k] == i;
      assert Becomes(changes, chosen, i, out[k]);
    }
    forall c | c in chosen ensures RenameOf(changes, c) in out {
      var i := c.oldIdx;
      assert UsesOld(chosen, i);
      assert !UsesNew(chosen, i);
      assert i in pos;
      var k :| 0 <= k < |pos| && pos[k] == i;
      assert Becomes(changes, chosen, i, out[k]);
      var e :| e in chosen && e.oldIdx == i && RenameOf(changes, e) == out[k];
      SameOld(chosen, c, e);
    }
  }

  lemma SameOld(chosen: seq<Candidate>, c: Candidate, e: Candidate)
    requires OneToOne(chosen) && c in chosen && e in chosen && c.oldIdx == e.oldIdx
    ensures c == e
  {
    var k :| 0 <= k < |chosen| && chosen[k] == c;
    var l :| 0 <= l < |chosen| && chosen[l] == e;
  }

  ghost predicate HasStatus(changes: seq<Change>, s: Status) {
    exists i :: 0 <= i < |changes| && changes[i].status == s
  }

  method AnyWith(changes: seq<Change>, s: Status) returns (r: bool)
    ensures r == HasStatus(changes, s)
  {
    var i := 0;
    while i < |changes|
      invariant 0 <= i <= |changes| && forall k :: 0 <= k < i ==> changes[k].status != s
    {
      if changes[i].status == s {
        return true;
      }
      i := i + 1;
    }
    return false;
  }

  /** A rename of the output joins one of the two files, with at least this score. */
  ghost predicate Joins(out: seq<Change>, o: Change, n: Change, score: int) {
    exists x :: x in out && x.status == Renamed && x.similarity >= score &&
                (x.before == o.before || (x.path == n.path && x.after == n.after))
  }

  /** Every rename carries its files' score, and every deletion and addition whose
      score reaches the threshold has one of them in a rename at least as good. */
  ghost predicate RenamesByScore(changes: seq<Change>, load: Entry -> Lines, threshold: int, out: seq<Change>) {
    && (forall x :: x in out && x !in changes ==>
          x.status == Renamed && ScoreOf(load, x.before, x.after, x.similarity) && x.similarity >= threshold)
    && (forall o, n, score: int :: Similar(changes, load, o, n, score) && score >= threshold ==>
          Joins(out, o, n, score))
  }

  /** A deletion and an addition with this score. */
  ghost predicate Similar(changes: seq<Change>, load: Entry -> Lines, o: Change, n: Change, score: int) {
    && o in changes && n in changes && o.status == Deleted && n.status == Added
    && ScoreOf(load, o.before, n.after, score)
  }

  lemma RenamesAreScored(changes: seq<Change>, load: Entry -> Lines, threshold: int, chosen: seq<Candidate>,
                         out: seq<Change>)
    requires Chosen(changes, load, threshold, chosen) && Indexed(changes, chosen) && Rewrites(changes, chosen, out)
    requires forall p :: Eligible(changes, load, threshold, p) ==> Settled(chosen, p)
    ensures RenamesByScore(changes, load, threshold, out)
  {
    hide ScoreOf, Eligible, Untouched;
    forall x | x in out && x !in changes
      ensures x.status == Renamed && ScoreOf(load, x.before, x.after, x.similarity) && x.similarity >= threshold
    {
      UntouchedIn(changes, chosen);
      var c :| c in chosen && RenameOf(changes, c) == x;
      EligibleIffScore(changes, load, threshold, c);
    }
    forall o, n, score: int | Similar(changes, load, o, n, score) && score >= threshold
      ensures Joins(out, o, n, score)
    {
      var i :| 0 <= i < |changes| && changes[i] == o;
      var j :| 0 <= j < |changes| && changes[j] == n;
      EligibleIffScore(changes, load, threshold, Candidate(i, j, score));
      var c :| c in chosen && c.score >= score && (c.oldIdx == i || c.newIdx == j);
      assert RenameOf(changes, c) in out;
    }
  }

  lemma UntouchedIn(changes: seq<Change>, chosen: seq<Candidate>)
    ensures forall i :: Untouched(changes, chosen, i) ==> 0 <= i < |changes| && changes[i] in changes
  {
  }

  /** Rewrites deletions and additions into renames. */
  method DetectRenames(changes: seq<Change>, load: Entry -> Lines, threshold: int)
    returns (out: seq<Change>, ghost chosen: seq<Candidate>)
    requires DistinctPaths(changes)
    ensures Chosen(changes, load, threshold, chosen) && Indexed(changes, chosen)
    ensures forall p :: Eligible(changes, load, threshold, p) ==> Settled(chosen, p) && Greedy(changes, chosen, p)
    ensures Rewrites(changes, chosen, out)
    ensures if HasStatus(changes, Deleted) && HasStatus(changes, Added) then Order.StrictBy(out, PathOf)
            else out == changes
    ensures RenamesByScore(changes, load, threshold, out)
  {
    hide Eligible, Settled, Order.Less, Precedes, Becomes, UsesOld, UsesNew, InOrder, RenamesByScore, Greedy;
    EligibleMeans(changes, load, threshold);
    var some := AnyWith(changes, Deleted);
    if some {
      some := AnyWith(changes, Added);
    }
    if !some {
      chosen := [];
      NothingChosen(changes);
      RenamesAreScored(changes, load, threshold, chosen, changes);
      return changes, chosen;
    }
    var ps := Candidates(changes, load, threshold);
    ps := SortCandidates(changes, ps);
    var picked := Choose(changes, ps);
    chosen := picked;
    out := Rewrite(changes, picked);
    ghost var pos :| RewrittenFrom(changes, picked, out, pos);
    RewriteMeans(changes, picked, out, pos);
    RewrittenDistinct(changes, picked, out, pos);
    ghost var unsorted := out;
    out := Order.SortBy(out, PathOf);
    SameRewrites(changes, picked, unsorted, out);
    RenamesAreScored(changes, load, threshold, picked, out);
  }

  lemma EligibleMeans(changes: seq<Change>, load: Entry -> Lines, threshold: int)
    ensures forall c :: Eligible(changes, load, threshold, c) ==>
      0 <= c.oldIdx < |changes| && 0 <= c.newIdx < |changes| && changes[c.oldIdx].status == Deleted &&
      changes[c.newIdx].status == Added
  {
  }

  lemma NothingChosen(changes: seq<Change>)
    ensures Rewrites(changes, [], changes)
  {
    assert forall i :: 0 <= i < |changes| ==> Untouched(changes, [], i);
  }

  lemma RewrittenDistinct(changes: seq<Change>, chosen: seq<Candidate>, out: seq<Change>, pos: seq<int>)
    requires Indexed(changes, chosen) && OneToOne(chosen) && DistinctPaths(changes)
    requires |pos| == |out| && (forall k :: 0 <= k < |out| ==> Becomes(changes, chosen, pos[k], out[k]))
    requires forall k, l :: 0 <= k < l < |pos| ==> pos[k] < pos[l]
    ensures Order.DistinctBy(out, PathOf)
  {
    hide Becomes;
    forall k, l | 0 <= k < l < |out| ensures out[k].path != out[l].path {
      TwoRewritten(changes, chosen, pos[k], out[k], pos[l], out[l]);
    }
  }

  lemma SameRewrites(changes: seq<Change>, chosen: seq<Candidate>, a: seq<Change>, b: seq<Change>)
    requires Indexed(changes, chosen) && Rewrites(changes, chosen, a) && Order.SameElements(b, a)
    ensures Rewrites(changes, chosen, b)
  {
    hide Untouched;
  }

  /** Scores of renames lie between the threshold and 100. */
  lemma ScoresInRange(changes: seq<Change>, load: Entry -> Lines, threshold: int, chosen: seq<Candidate>,
                      out: seq<Change>, x: Change)
    requires Chosen(changes, load, threshold, chosen) && Indexed(changes, chosen) && Rewrites(changes, chosen, out)
    requires x in out && x.status == Renamed && forall c :: c in changes ==> c.status != Renamed
    ensures threshold <= x.similarity <= 100
  {
    hide Similarity;
    assert forall i :: 0 <= i < |changes| ==> changes[i] in changes;
    var c :| c in chosen && RenameOf(changes, c) == x;
    SimilarityAtMost(load, changes[c.oldIdx].before, changes[c.newIdx].after);
  }

  // ---- meaning ----

  datatype Act = Leave | Drop | Put(entry: Entry)

  /** What a change does to a path. */
  function Effect(c: Change, p: string): Act {
    match c.status
    case Added => if p == c.path then Put(c.after) else Leave
    case Modified => if p == c.path then Put(c.after) else Leave
    case Deleted => if p == c.path then Drop else Leave
    case Renamed => if p == c.path then Put(c.after) else if p == c.before.path then Drop else Leave
  }

  function After(s: Side, a: Act): Side {
    match a
    case Leave => s
    case Drop => Absent
    case Put(e) => Has(e)
  }

  lemma ApplyIs(m: Entries, c: Change, p: string)
    ensures At(Apply(m, c), p) == After(At(m, p), Effect(c, p))
  {
  }

  function ApplyAll(m: Entries, cs: seq<Change>): Entries {
    if cs == [] then m else Apply(ApplyAll(m, cs[..|cs| - 1]), cs[|cs| - 1])
  }

  ghost predicate Does(cs: seq<Change>, p: string, a: Act) {
    a != Leave && exists c :: c in cs && Effect(c, p) == a
  }

  /** No two changes do different things to one path. */
  ghost predicate Consistent(cs: seq<Change>) {
    forall p, a, b :: Does(cs, p, a) && Does(cs, p, b) ==> a == b
  }

  lemma {:induction false} ApplyAllIs(m: Entries, cs: seq<Change>, p: string)
    requires Consistent(cs)
    ensures forall a :: Does(cs, p, a) ==> At(ApplyAll(m, cs), p) == After(At(m, p), a)
    ensures (forall a :: !Does(cs, p, a)) ==> At(ApplyAll(m, cs), p) == At(m, p)
  {
    hide Effect, At, Apply;
    if cs != [] {
      var init, last := cs[..|cs| - 1], cs[|cs| - 1];
      assert cs == init + [last];
      forall q, a ensures Does(cs, q, a) <==> Does(init, q, a) || (a != Leave && Effect(last, q) == a) {
        MoreDoes(init, last, q, a);
      }
      ApplyAllIs(m, init, p);
      ApplyIs(ApplyAll(m, init), last, p);
      var e := Effect(last, p);
      if e != Leave {
        assert Does(cs, p, e);
      }
    }
  }

  lemma MoreDoes(init: seq<Change>, last: Change, p: string, a: Act)
    ensures Does(init + [last], p, a) <==> Does(init, p, a) || (a != Leave && Effect(last, p) == a)
  {
    hide Effect;
    assert last in init + [last];
    if Does(init, p, a) {
      var c :| c in init && Effect(c, p) == a;
      assert c in init + [last];
    }
  }

  /** A diff as comparison yields it: distinct paths, no renames, deletions under
      their own path. */
  ghost predicate PlainDiff(changes: seq<Change>) {
    && DistinctPaths(changes)
    && (forall c :: c in changes ==> c.status != Renamed && (c.status == Deleted ==> c.before.path == c.path))
  }

  lemma OneByPath(changes: seq<Change>, x: Change, y: Change)
    requires DistinctPaths(changes) && x in changes && y in changes && x.path == y.path
    ensures x == y
  {
    var i :| 0 <= i < |changes| && changes[i] == x;
    var j :| 0 <= j < |changes| && changes[j] == y;
  }

  lemma PlainConsistent(changes: seq<Change>)
    requires PlainDiff(changes)
    ensures Consistent(changes)
  {
    forall p, a, b | Does(changes, p, a) && Does(changes, p, b) ensures a == b {
      var x :| x in changes && Effect(x, p) == a;
      var y :| y in changes && Effect(y, p) == b;
      OneByPath(changes, x, y);
    }
  }

  /** The rename of a chosen pair does what its deletion and its addition do. */
  lemma RenameDoes(changes: seq<Change>, c: Candidate, p: string)
    requires PlainDiff(changes) && 0 <= c.oldIdx < |changes| && 0 <= c.newIdx < |changes|
    requires changes[c.oldIdx].status == Deleted && changes[c.newIdx].status == Added
    ensures var d, n := Effect(changes[c.oldIdx], p), Effect(changes[c.newIdx], p);
      && (d == Leave || n == Leave)
      && Effect(RenameOf(changes, c), p) == (if n != Leave then n else d)
  {
    assert changes[c.oldIdx] in changes && changes[c.newIdx] in changes;
    if changes[c.oldIdx].path == changes[c.newIdx].path {
      OneByPath(changes, changes[c.oldIdx], changes[c.newIdx]);
    }
  }

  lemma SameDeeds(changes: seq<Change>, chosen: seq<Candidate>, out: seq<Change>, p: string, a: Act)
    requires PlainDiff(changes) && Indexed(changes, chosen) && Rewrites(changes, chosen, out)
    requires forall c :: c in chosen ==> changes[c.oldIdx].status == Deleted && changes[c.newIdx].status == Added
    ensures Does(changes, p, a) <==> Does(out, p, a)
  {
    hide Effect, PlainDiff;
    forall c | c in chosen
      ensures var d, n := Effect(changes[c.oldIdx], p), Effect(changes[c.newIdx], p);
        (d == Leave || n == Leave) && Effect(RenameOf(changes, c), p) == (if n != Leave then n else d)
    {
      RenameDoes(changes, c, p);
    }
    if Does(changes, p, a) {
      var x :| x in changes && Effect(x, p) == a;
      var i :| 0 <= i < |changes| && changes[i] == x;
      if c :| c in chosen && (c.oldIdx == i || c.newIdx == i) {
        assert RenameOf(changes, c) in out;
      } else {
        assert Untouched(changes, chosen, i);
        assert x in out;
      }
    }
    if Does(out, p, a) {
      var x :| x in out && Effect(x, p) == a;
      if i :| Untouched(changes, chosen, i) && changes[i] == x {
        assert x in changes;
      } else {
        var c :| c in chosen && RenameOf(changes, c) == x;
        assert changes[c.oldIdx] in changes && changes[c.newIdx] in changes;
      }
    }
  }

  lemma SameMap(m: Entries, n: Entries)
    requires forall p :: At(m, p) == At(n, p)
    ensures m == n
  {
    assert forall p :: p in m <==> At(m, p).Has?;
    assert forall p :: p in n <==> At(n, p).Has?;
    assert forall p :: p in m ==> m[p] == At(m, p).entry;
  }

  /** Applying the rewritten changes gives the map that the changes give. */
  lemma RenamesConserve(changes: seq<Change>, load: Entry -> Lines, threshold: int, chosen: seq<Candidate>,
                        out: seq<Change>, m: Entries)
    requires PlainDiff(changes) && Chosen(changes, load, threshold, chosen) && Indexed(changes, chosen)
    requires Rewrites(changes, chosen, out)
    ensures ApplyAll(m, out) == ApplyAll(m, changes)
  {
    hide PlainDiff, Rewrites, Does, ApplyAll, At;
    EligibleMeans(changes, load, threshold);
    forall p, a ensures Does(changes, p, a) <==> Does(out, p, a) {
      SameDeeds(changes, chosen, out, p, a);
    }
    PlainConsistent(changes);
    forall p ensures At(ApplyAll(m, out), p) == At(ApplyAll(m, changes), p) {
      ApplyAllIs(m, changes, p);
      ApplyAllIs(m, out, p);
      if a :| Does(changes, p, a) {
        assert Does(out, p, a);
      }
    }
    SameMap(ApplyAll(m, out), ApplyAll(m, changes));
  }

  /** Entries are kept under their own path. */
  ghost predicate Keyed(m: Entries) {
    forall p :: p in m ==> m[p].path == p
  }

  lemma DiffIsPlain(o: Entries, n: Entries, changes: seq<Change>)
    requires IsDiff(o, n, changes) && Keyed(o)
    ensures PlainDiff(changes)
  {
    hide Order.Less;
    forall i, j | 0 <= i < j < |changes| ensures changes[i].path != changes[j].path {
      Order.LessIrreflexive(PathOf(changes[i]), PathOf(changes[j]));
    }
    forall c | c in changes ensures c.status != Renamed && (c.status == Deleted ==> c.before.path == c.path) {
      assert ChangeAt(o, n, c.path) == Differs(c);
    }
  }

  /** Applied to the old map, a diff gives the new one, up to hash and mode. */
  lemma DiffApplies(o: Entries, n: Entries, changes: seq<Change>)
    requires IsDiff(o, n, changes) && Keyed(o)
    ensures AlikeMaps(ApplyAll(o, changes), n)
  {
    DiffIsPlain(o, n, changes);
    PlainConsistent(changes);
    forall p ensures Alike(At(ApplyAll(o, changes), p), At(n, p)) {
      DiffAppliesAt(o, n, changes, p);
    }
  }

  lemma DiffAppliesAt(o: Entries, n: Entries, changes: seq<Change>, p: string)
    requires IsDiff(o, n, changes) && PlainDiff(changes) && Consistent(changes)
    ensures Alike(At(ApplyAll(o, changes), p), At(n, p))
  {
    hide Order.StrictBy, ApplyAll, Consistent;
    ApplyAllIs(o, changes, p);
    if ChangeAt(o, n, p).Differs? {
      var c := ChangeAt(o, n, p).change;
      assert c in changes;
      assert Does(changes, p, Effect(c, p));
    } else {
      forall a ensures !Does(changes, p, a) {
        forall c | c in changes ensures Effect(c, p) == Leave {
          assert ChangeAt(o, n, c.path) == Differs(c);
        }
      }
    }
  }

  /** A diff with renames: applied to the old map it gives the new one, up to hash
      and mode. */
  method CompareWithRenames(o: Entries, n: Entries, load: Entry -> Lines, threshold: int) returns (out: seq<Change>)
    requires Keyed(o)
    ensures AlikeMaps(ApplyAll(o, out), n)
    ensures forall x :: x in out && x.status == Renamed ==> threshold <= x.similarity <= 100
    ensures forall x :: x in out && x.status == Renamed ==> ScoreOf(load, x.before, x.after, x.similarity)
    ensures threshold <= 100 ==> forall p, q :: Moves(o, n, p, q) ==> MoveFound(out, o[p], n[q])
  {
    hide AlikeMaps, ApplyAll, IsDiff, Chosen, Rewrites, Eligible, Settled, Order.StrictBy, PlainDiff, Keyed, ScoreOf;
    hide RenamesByScore, MoveFound;
    var changes := Compare(o, n);
    DiffIsPlain(o, n, changes);
    PlainDistinct(changes);
    ghost var chosen;
    out, chosen := DetectRenames(changes, load, threshold);
    RenamesConserve(changes, load, threshold, chosen, out, o);
    DiffApplies(o, n, changes);
    forall x | x in out && x.status == Renamed ensures threshold <= x.similarity <= 100 {
      NoneRenamed(changes);
      ScoresInRange(changes, load, threshold, chosen, out, x);
    }
    NoneRenamed(changes);
    RenamesScored(changes, load, threshold, out);
    if threshold <= 100 {
      forall p, q | Moves(o, n, p, q) ensures MoveFound(out, o[p], n[q]) {
        MoveIsFound(o, n, changes, load, threshold, out, p, q);
      }
    }
  }

  /** A file is gone from p and one of the same content hash is new at q. */
  ghost predicate Moves(o: Entries, n: Entries, p: string, q: string) {
    p in o && p !in n && q in n && q !in o && o[p].hash == n[q].hash
  }

  /** One of the two files is in a rename that scores 100. */
  ghost predicate MoveFound(out: seq<Change>, e: Entry, f: Entry) {
    exists x :: x in out && x.status == Renamed && x.similarity == 100 && (x.before == e || x.after == f)
  }

  lemma RenamesScored(changes: seq<Change>, load: Entry -> Lines, threshold: int, out: seq<Change>)
    requires RenamesByScore(changes, load, threshold, out) && forall c :: c in changes ==> c.status != Renamed
    ensures forall x :: x in out && x.status == Renamed ==> ScoreOf(load, x.before, x.after, x.similarity)
  {
    hide ScoreOf;
  }

  lemma ScoreAtMost(load: Entry -> Lines, o: Entry, n: Entry, score: int)
    requires ScoreOf(load, o, n, score)
    ensures score <= 100
  {
    hide ScoreOf, Similarity;
    SimilarityIsScore(load, o, n);
    SimilarityAtMost(load, o, n);
    ScoreUnique(load, o, n, score, Similarity(load, o, n));
  }

  lemma MoveIsFound(o: Entries, n: Entries, changes: seq<Change>, load: Entry -> Lines, threshold: int,
                    out: seq<Change>, p: string, q: string)
    requires IsDiff(o, n, changes) && RenamesByScore(changes, load, threshold, out) && threshold <= 100
    requires (forall c :: c in changes ==> c.status != Renamed) && Moves(o, n, p, q)
    ensures MoveFound(out, o[p], n[q])
  {
    hide Order.StrictBy;
    var gone, made := GoneAndMade(o, n, changes, p, q);
    assert ScoreOf(load, gone.before, made.after, 100);
    assert Similar(changes, load, gone, made, 100);
    hide ScoreOf;
    assert Joins(out, gone, made, 100);
    var x :| x in out && x.status == Renamed && x.similarity >= 100 &&
             (x.before == gone.before || (x.path == made.path && x.after == made.after));
    ScoreAtMost(load, x.before, x.after, x.similarity);
  }

  lemma GoneAndMade(o: Entries, n: Entries, changes: seq<Change>, p: string, q: string)
    returns (gone: Change, made: Change)
    requires IsDiff(o, n, changes) && Moves(o, n, p, q)
    ensures gone in changes && gone.status == Deleted && gone.before == o[p]
    ensures made in changes && made.status == Added && made.after == n[q]
  {
    hide Order.StrictBy;
    gone, made := ChangeAt(o, n, p).change, ChangeAt(o, n, q).change;
    assert ChangeAt(o, n, gone.path) == Differs(gone) && ChangeAt(o, n, made.path) == Differs(made);
  }

  lemma PlainDistinct(changes: seq<Change>)
    requires PlainDiff(changes)
    ensures DistinctPaths(changes)
  {
  }

  lemma NoneRenamed(changes: seq<Change>)
    requires PlainDiff(changes)
    ensures forall c :: c in changes ==> c.status != Renamed
  {
  }
}
