/** Aligning two lists of unique keys: every old and every new position appears
    once, and what is not marked as moved is a longest common subsequence. */
module TableAlign {
  import opened LongestRun

  /** A row of the alignment; -1 stands for no position. */
  datatype Pair = Pair(before: int, after: int, moved: bool)

  ghost predicate Unique(s: seq<string>) {
    forall i, j :: 0 <= i < j < |s| ==> s[i] != s[j]
  }

  // ---- counting ----

  function CountBefore(ps: seq<Pair>, i: int): nat {
    if ps == [] then 0
    else CountBefore(ps[..|ps| - 1], i) + if ps[|ps| - 1].before == i then 1 else 0
  }

  function CountAfter(ps: seq<Pair>, j: int): nat {
    if ps == [] then 0
    else CountAfter(ps[..|ps| - 1], j) + if ps[|ps| - 1].after == j then 1 else 0
  }

  lemma CountOne(ps: seq<Pair>, p: Pair, i: int)
    ensures CountBefore(ps + [p], i) == CountBefore(ps, i) + if p.before == i then 1 else 0
    ensures CountAfter(ps + [p], i) == CountAfter(ps, i) + if p.after == i then 1 else 0
  {
    assert (ps + [p])[..|ps|] == ps;
  }

  /** Each of the n old and m new positions appears exactly once, nothing else does. */
  ghost predicate Covers(ps: seq<Pair>, n: nat, m: nat) {
    && (forall p :: p in ps ==> -1 <= p.before < n && -1 <= p.after < m && (p.before >= 0 || p.after >= 0))
    && (forall i :: 0 <= i < n ==> CountBefore(ps, i) == 1)
    && (forall j :: 0 <= j < m ==> CountAfter(ps, j) == 1)
  }

  /** The new positions come in order. */
  ghost predicate NewInOrder(ps: seq<Pair>) {
    forall k, l :: 0 <= k < l < |ps| && ps[k].after >= 0 && ps[l].after >= 0 ==> ps[k].after < ps[l].after
  }

  // ---- matching ----

  /** For every new position the old position with the same key, or -1. */
  ghost predicate Matches(a: seq<string>, b: seq<string>, m: seq<int>) {
    && |m| == |b|
    && (forall j :: 0 <= j < |b| ==> -1 <= m[j] < |a| && if m[j] == -1 then b[j] !in a else a[m[j]] == b[j])
  }

  /** The position of every key. */
  method IndexKeys(a: seq<string>) returns (at: map<string, int>)
    ensures forall k :: k in at <==> k in a
    ensures forall k :: k in at ==> 0 <= at[k] < |a| && a[at[k]] == k
  {
    at := map[];
    var i := 0;
    while i < |a|
      invariant 0 <= i <= |a|
      invariant forall k :: k in at ==> 0 <= at[k] < i && a[at[k]] == k
      invariant forall x :: 0 <= x < i ==> a[x] in at
    {
      at := at[a[i] := i];
      i := i + 1;
    }
  }

  method MatchKeys(a: seq<string>, b: seq<string>) returns (m: seq<int>, js: seq<int>)
    ensures Matches(a, b, m) && MatchedList(m, js)
  {
    hide MatchedList;
    var at := IndexKeys(a);
    m, js := [], [];
    NoMatches();
    var j := 0;
    while j < |b|
      invariant 0 <= j <= |b| && |m| == j
      invariant forall x :: 0 <= x < j ==> -1 <= m[x] < |a| && if m[x] == -1 then b[x] !in a else a[m[x]] == b[x]
      invariant MatchedList(m, js)
    {
      var v := if b[j] in at then at[b[j]] else -1;
      ListMore(m, v, js);
      if v >= 0 {
        js := js + [j];
      }
      m := m + [v];
      j := j + 1;
    }
  }

  lemma NoMatches()
    ensures MatchedList([], [])
  {
  }

  /** The new positions that have a match, in order. */
  ghost predicate MatchedList(m: seq<int>, js: seq<int>) {
    && (forall x :: 0 <= x < |js| ==> 0 <= js[x] < |m| && m[js[x]] >= 0)
    && (forall x, y :: 0 <= x < y < |js| ==> js[x] < js[y])
    && (forall j :: 0 <= j < |m| && m[j] >= 0 ==> j in js)
  }

  lemma ListMore(m: seq<int>, v: int, js: seq<int>)
    requires MatchedList(m, js)
    ensures MatchedList(m + [v], if v >= 0 then js + [|m|] else js)
  {
    var n := m + [v];
    var ks := if v >= 0 then js + [|m|] else js;
    forall j | 0 <= j < |n| && n[j] >= 0 ensures j in ks {
      if j < |m| {
        assert j in js;
      } else {
        assert ks[|js|] == j;
      }
    }
  }

  // ---- the stable matches ----

  /** Two positions in each list with equal keys, ascending on both sides. */
  ghost predicate CommonSubsequence(a: seq<string>, b: seq<string>, ps: seq<Pair>) {
    && (forall x :: 0 <= x < |ps| ==>
          0 <= ps[x].before < |a| && 0 <= ps[x].after < |b| && a[ps[x].before] == b[ps[x].after])
    && (forall x, y :: 0 <= x < y < |ps| ==> ps[x].before < ps[y].before && ps[x].after < ps[y].after)
  }

  function At(m: seq<int>, js: seq<int>): (vals: seq<int>)
    requires forall x :: 0 <= x < |js| ==> 0 <= js[x] < |m|
    ensures |vals| == |js| && forall x :: 0 <= x < |js| ==> vals[x] == m[js[x]]
  {
    if js == [] then [] else At(m, js[..|js| - 1]) + [m[js[|js| - 1]]]
  }

  function Select(js: seq<int>, q: seq<int>): (r: seq<int>)
    requires forall x :: 0 <= x < |q| ==> 0 <= q[x] < |js|
    ensures |r| == |q| && forall x :: 0 <= x < |q| ==> r[x] == js[q[x]]
  {
    if q == [] then [] else Select(js, q[..|q| - 1]) + [js[q[|q| - 1]]]
  }

  /** New positions in order whose matches are in order. */
  ghost predicate Stable(m: seq<int>, s: seq<int>) {
    && (forall x :: 0 <= x < |s| ==> 0 <= s[x] < |m| && m[s[x]] >= 0)
    && (forall x, y :: 0 <= x < y < |s| ==> s[x] < s[y] && m[s[x]] < m[s[y]])
  }

  method StableMatches(a: seq<string>, b: seq<string>, m: seq<int>, js: seq<int>) returns (s: seq<int>)
    requires Unique(a) && Matches(a, b, m) && MatchedList(m, js)
    ensures Stable(m, s)
    ensures forall c :: CommonSubsequence(a, b, c) ==> |c| <= |s|
  {
    var vals := At(m, js);
    var q := LongestIncreasing(vals);
    s := Select(js, q);
    forall c | CommonSubsequence(a, b, c) ensures |c| <= |s| {
      var p := CommonRises(a, b, m, js, vals, c);
    }
  }

  /** A common subsequence is a rising sequence of matches. */
  lemma {:induction false} CommonRises(a: seq<string>, b: seq<string>, m: seq<int>, js: seq<int>, vals: seq<int>,
                                       c: seq<Pair>)
    returns (p: seq<int>)
    requires Unique(a) && Matches(a, b, m) && MatchedList(m, js) && CommonSubsequence(a, b, c)
    requires |vals| == |js| && forall x :: 0 <= x < |js| ==> vals[x] == m[js[x]]
    ensures Rising(vals, p) && |p| == |c|
    ensures forall x :: 0 <= x < |c| ==> js[p[x]] == c[x].after
  {
    if c == [] {
      p := [];
    } else {
      var init, last := c[..|c| - 1], c[|c| - 1];
      assert CommonSubsequence(a, b, init);
      p := CommonRises(a, b, m, js, vals, init);
      var k := MatchPosition(a, b, m, js, last);
      forall x | 0 <= x < |p| ensures p[x] < k && vals[p[x]] < vals[k] {
        var prior := c[x];
        assert prior == init[x] && js[p[x]] == prior.after;
        var other := MatchPosition(a, b, m, js, prior);
        Before(js, p[x], k);
      }
      p := p + [k];
    }
  }

  lemma MatchPosition(a: seq<string>, b: seq<string>, m: seq<int>, js: seq<int>, p: Pair) returns (k: int)
    requires Unique(a) && Matches(a, b, m) && MatchedList(m, js)
    requires 0 <= p.before < |a| && 0 <= p.after < |b| && a[p.before] == b[p.after]
    ensures 0 <= k < |js| && js[k] == p.after && m[js[k]] == p.before
  {
    assert b[p.after] in a;
    assert m[p.after] >= 0;
    k :| 0 <= k < |js| && js[k] == p.after;
  }

  lemma Before(js: seq<int>, x: int, y: int)
    requires 0 <= x < |js| && 0 <= y < |js| && js[x] < js[y]
    requires forall u, v :: 0 <= u < v < |js| ==> js[u] < js[v]
    ensures x < y
  {
  }

  // ---- emitting ----

  ghost predicate Matched(m: seq<int>, i: int) {
    exists j :: 0 <= j < |m| && m[j] == i
  }

  /** The old position is already out: matched by one of the first j new ones, or
      unmatched and before i. */
  ghost predicate Out(m: seq<int>, i: int, j: nat, x: int)
    requires j <= |m|
  {
    if Matched(m, x) then Matched(m[..j], x) else x < i
  }

  /** The matches that did not move. */
  function Kept(ps: seq<Pair>): seq<Pair> {
    if ps == [] then []
    else
      var last := ps[|ps| - 1];
      if last.before >= 0 && last.after >= 0 && !last.moved then Kept(ps[..|ps| - 1]) + [last] else Kept(ps[..|ps| - 1])
  }

  lemma KeptOne(ps: seq<Pair>, p: Pair)
    ensures Kept(ps + [p]) == if p.before >= 0 && p.after >= 0 && !p.moved then Kept(ps) + [p] else Kept(ps)
  {
    assert (ps + [p])[..|ps|] == ps;
  }

  /** What has been emitted after the first j new positions and up to old position i. */
  ghost predicate Progress(m: seq<int>, n: nat, out: seq<Pair>, i: int, j: nat)
    requires j <= |m|
  {
    && (forall p :: p in out ==> -1 <= p.before < n && -1 <= p.after < j && (p.before >= 0 || p.after >= 0))
    && (forall p :: p in out && p.after >= 0 ==> p.before == m[p.after])
    && (forall p :: p in out && p.moved ==> p.before >= 0 && p.after >= 0)
    && (forall p :: p in out && p.after < 0 ==> !Matched(m, p.before))
    && (forall x :: 0 <= x < n ==> CountBefore(out, x) == if Out(m, i, j, x) then 1 else 0)
    && (forall y :: 0 <= y < |m| ==> CountAfter(out, y) == if y < j then 1 else 0)
    && NewInOrder(out)
  }

  lemma EmitRemoved(m: seq<int>, n: nat, out: seq<Pair>, i: nat, j: nat)
    requires j <= |m| && i < n && Progress(m, n, out, i, j)
    ensures Progress(m, n, if Matched(m, i) then out else out + [Pair(i, -1, false)], i + 1, j)
  {
    hide CountBefore, CountAfter;
    if !Matched(m, i) {
      var p := Pair(i, -1, false);
      forall x
        ensures CountBefore(out + [p], x) == CountBefore(out, x) + (if x == i then 1 else 0)
        ensures CountAfter(out + [p], x) == CountAfter(out, x) + (if x == -1 then 1 else 0)
      {
        CountOne(out, p, x);
      }
    }
  }

  lemma EmitNew(m: seq<int>, n: nat, out: seq<Pair>, i: nat, j: nat, moved: bool)
    requires j < |m| && Progress(m, n, out, i, j) && -1 <= m[j] < n && (moved ==> m[j] >= 0)
    requires Injective(m)
    ensures Progress(m, n, out + [Pair(m[j], j, moved)], i, j + 1)
  {
    hide CountBefore, CountAfter;
    var p := Pair(m[j], j, moved);
    forall x
      ensures CountBefore(out + [p], x) == CountBefore(out, x) + (if x == m[j] then 1 else 0)
      ensures CountAfter(out + [p], x) == CountAfter(out, x) + (if x == j then 1 else 0)
    {
      CountOne(out, p, x);
    }
    forall x | 0 <= x < n ensures CountBefore(out + [p], x) == if Out(m, i, j + 1, x) then 1 else 0 {
      OutMore(m, i, j, x);
    }
    assert forall k :: 0 <= k < |out| ==> out[k] in out;
  }

  lemma OutMore(m: seq<int>, i: int, j: nat, x: int)
    requires j < |m| && 0 <= x
    requires Injective(m)
    ensures Out(m, i, j + 1, x) <==> Out(m, i, j, x) || x == m[j]
    ensures x == m[j] ==> !Out(m, i, j, x)
  {
    assert m[..j + 1] == m[..j] + [m[j]];
    if Matched(m[..j], x) {
      var k :| 0 <= k < j && m[..j][k] == x;
      assert m[..j + 1][k] == x && m[k] == x;
    }
    if x == m[j] {
      assert m[..j + 1][j] == x;
      assert Matched(m, x);
    }
    if Matched(m[..j + 1], x) {
      var k :| 0 <= k < j + 1 && m[..j + 1][k] == x;
      if k < j {
        assert m[..j][k] == x;
      }
    }
  }

  /** An old position below the next stable match that is skipped over is matched. */
  lemma SkipMatched(m: seq<int>, n: nat, out: seq<Pair>, i: nat, j: nat)
    requires j <= |m| && i < n && Matched(m, i) && Progress(m, n, out, i, j)
    ensures Progress(m, n, out, i + 1, j)
  {
    hide CountBefore, CountAfter;
  }

  method Flush(m: seq<int>, n: nat, out0: seq<Pair>, i0: nat, until: nat, ghost j: nat, matched: seq<bool>)
    returns (out: seq<Pair>, i: nat)
    requires j <= |m| && i0 <= until <= n && |matched| == n
    requires forall x :: 0 <= x < n ==> matched[x] == Matched(m, x)
    requires Progress(m, n, out0, i0, j)
    ensures i == until && Progress(m, n, out, i, j) && Kept(out) == Kept(out0)
  {
    hide Progress, Matched;
    out, i := out0, i0;
    while i < until
      invariant i0 <= i <= until && Progress(m, n, out, i, j) && Kept(out) == Kept(out0)
    {
      EmitRemoved(m, n, out, i, j);
      if !matched[i] {
        KeptOne(out, Pair(i, -1, false));
        out := out + [Pair(i, -1, false)];
      }
      i := i + 1;
    }
  }

  method MarkMatched(m: seq<int>, n: nat) returns (matched: seq<bool>)
    requires forall j :: 0 <= j < |m| ==> -1 <= m[j] < n
    ensures |matched| == n && forall x :: 0 <= x < n ==> matched[x] == Matched(m, x)
  {
    matched := seq(n, _ => false);
    var j := 0;
    while j < |m|
      invariant 0 <= j <= |m| && |matched| == n
      invariant forall x :: 0 <= x < n ==> matched[x] == exists k :: 0 <= k < j && m[k] == x
    {
      if m[j] >= 0 {
        matched := matched[m[j] := true];
      }
      j := j + 1;
    }
  }

  /** The kept matches are the first c stable ones. */
  ghost predicate KeptStable(m: seq<int>, s: seq<int>, c: nat, kept: seq<Pair>) {
    && c <= |s| && |kept| == c
    && (forall x :: 0 <= x < c ==> 0 <= s[x] < |m| && kept[x] == Pair(m[s[x]], s[x], false))
  }

  lemma MatchesDistinct(a: seq<string>, b: seq<string>, m: seq<int>)
    requires Unique(b) && Matches(a, b, m)
    ensures Injective(m)
  {
  }

  ghost predicate Injective(m: seq<int>) {
    forall x, y :: 0 <= x < y < |m| && m[x] >= 0 ==> m[x] != m[y]
  }

  /** The old position up to which unmatched ones are out. */
  function Frontier(m: seq<int>, s: seq<int>, c: nat): int
    requires c <= |s| && forall x :: 0 <= x < |s| ==> 0 <= s[x] < |m|
  {
    if c == 0 then 0 else m[s[c - 1]] + 1
  }

  lemma FrontierBelow(m: seq<int>, s: seq<int>, c: nat)
    requires Stable(m, s) && c < |s|
    ensures 0 <= Frontier(m, s, c) <= m[s[c]] && 0 <= s[c] < |m|
    ensures c + 1 < |s| ==> s[c] < s[c + 1] < |m|
  {
  }

  /** Emits the rows in the order of the new positions; unmatched old positions
      go in front of the next stable match. */
  method Emit(m: seq<int>, n: nat, s: seq<int>, matched: seq<bool>) returns (out: seq<Pair>)
    requires Stable(m, s) && Injective(m) && forall j :: 0 <= j < |m| ==> -1 <= m[j] < n
    requires |matched| == n && forall x :: 0 <= x < n ==> matched[x] == Matched(m, x)
    ensures Progress(m, n, out, n, |m|) && KeptStable(m, s, |s|, Kept(out))
  {
    hide Progress, Matched, Kept, Stable, Injective, KeptStable;
    StableRange(m, s);
    out := [];
    var i, j, c := 0, 0, 0;
    NothingOut(m, n);
    NoneKept(m, s);
    while j < |m|
      invariant 0 <= j <= |m| && 0 <= c <= |s| && 0 <= i <= n && i == Frontier(m, s, c)
      invariant Progress(m, n, out, i, j) && KeptStable(m, s, c, Kept(out))
      invariant c < |s| ==> s[c] >= j
    {
      if c < |s| && s[c] == j {
        FrontierBelow(m, s, c);
        out, i := Flush(m, n, out, i, m[j], j, matched);
        EmitNew(m, n, out, i, j, false);
        KeptOne(out, Pair(m[j], j, false));
        KeepStable(m, s, c, Kept(out));
        out := out + [Pair(m[j], j, false)];
        MatchedHere(m, j);
        SkipMatched(m, n, out, i, j + 1);
        i := m[j] + 1;
        c := c + 1;
      } else {
        var moved := m[j] >= 0;
        EmitNew(m, n, out, i, j, moved);
        KeptOne(out, Pair(m[j], j, moved));
        out := out + [Pair(m[j], j, moved)];
      }
      j := j + 1;
    }
    out, i := Flush(m, n, out, i, n, j, matched);
  }

  lemma StableRange(m: seq<int>, s: seq<int>)
    requires Stable(m, s)
    ensures forall x :: 0 <= x < |s| ==> 0 <= s[x] < |m| && m[s[x]] >= 0
  {
  }

  lemma NoneKept(m: seq<int>, s: seq<int>)
    ensures KeptStable(m, s, 0, Kept([]))
  {
  }

  lemma KeepStable(m: seq<int>, s: seq<int>, c: nat, kept: seq<Pair>)
    requires KeptStable(m, s, c, kept) && c < |s| && 0 <= s[c] < |m|
    ensures KeptStable(m, s, c + 1, kept + [Pair(m[s[c]], s[c], false)])
  {
  }

  // ---- what an alignment is ----

  ghost predicate AlignedPair(a: seq<string>, b: seq<string>, p: Pair) {
    && -1 <= p.before < |a| && -1 <= p.after < |b|
    && if p.before >= 0 && p.after >= 0 then a[p.before] == b[p.after]
       else !p.moved && if p.after >= 0 then b[p.after] !in a else p.before >= 0 && a[p.before] !in b
  }

  /** No common subsequence of the keys has more than n matches. */
  ghost predicate Longest(a: seq<string>, b: seq<string>, n: nat) {
    forall c :: CommonSubsequence(a, b, c) ==> |c| <= n
  }

  /** Every position once, new ones in order, equal keys and only they matched, and
      what has not moved a longest common subsequence. */
  ghost predicate Aligns(a: seq<string>, b: seq<string>, out: seq<Pair>) {
    && Covers(out, |a|, |b|) && NewInOrder(out)
    && (forall p :: p in out ==> AlignedPair(a, b, p))
    && CommonSubsequence(a, b, Kept(out)) && Longest(a, b, |Kept(out)|)
  }

  /** The positions are shown as one. */
  ghost predicate Paired(ps: seq<Pair>, i: int, j: int) {
    exists p :: p in ps && p.before == i && p.after == j
  }

  lemma {:induction false} PositionOf(ps: seq<Pair>, j: int) returns (k: nat)
    requires CountAfter(ps, j) > 0
    ensures k < |ps| && ps[k].after == j
  {
    if ps[|ps| - 1].after == j {
      k := |ps| - 1;
    } else {
      k := PositionOf(ps[..|ps| - 1], j);
    }
  }

  /** Equal keys are shown as one, and only they are. */
  lemma AlignedIffEqual(a: seq<string>, b: seq<string>, out: seq<Pair>, i: nat, j: nat)
    requires Aligns(a, b, out) && Unique(a) && i < |a| && j < |b|
    ensures Paired(out, i, j) <==> a[i] == b[j]
  {
    hide CountBefore, CountAfter, CommonSubsequence, Longest, Kept, NewInOrder;
    if a[i] == b[j] {
      assert CountAfter(out, j) == 1;
      var k := PositionOf(out, j);
      assert out[k] in out && b[j] in a;
    }
  }

  /** The alignment of two lists of unique keys. */
  method AlignUnique(a: seq<string>, b: seq<string>) returns (out: seq<Pair>)
    requires Unique(a) && Unique(b)
    ensures Covers(out, |a|, |b|) && NewInOrder(out)
    ensures forall p :: p in out && p.after >= 0 ==>
      if p.before >= 0 then a[p.before] == b[p.after] else b[p.after] !in a
    ensures forall p :: p in out && p.after < 0 ==> a[p.before] !in b
    ensures forall p :: p in out && p.moved ==> p.before >= 0 && p.after >= 0
    ensures CommonSubsequence(a, b, Kept(out))
    ensures forall c :: CommonSubsequence(a, b, c) ==> |c| <= |Kept(out)|
    ensures Aligns(a, b, out)
  {
    hide Progress, Matched, Kept, CommonSubsequence, KeptStable, Stable, Unique, NewInOrder;
    var m, js := MatchKeys(a, b);
    var s := StableMatches(a, b, m, js);
    var matched := MarkMatched(m, |a|);
    MatchesDistinct(a, b, m);
    out := Emit(m, |a|, s, matched);
    Aligned(a, b, m, s, out);
    IsAlignment(a, b, out);
  }

  lemma IsAlignment(a: seq<string>, b: seq<string>, out: seq<Pair>)
    requires Covers(out, |a|, |b|) && NewInOrder(out)
    requires forall p :: p in out && p.after >= 0 ==>
      if p.before >= 0 then a[p.before] == b[p.after] else b[p.after] !in a
    requires forall p :: p in out && p.after < 0 ==> a[p.before] !in b
    requires forall p :: p in out && p.moved ==> p.before >= 0 && p.after >= 0
    requires CommonSubsequence(a, b, Kept(out)) && forall c :: CommonSubsequence(a, b, c) ==> |c| <= |Kept(out)|
    ensures Aligns(a, b, out)
  {
    hide CountBefore, CountAfter, CommonSubsequence, Kept, NewInOrder;
  }

  lemma MatchedHere(m: seq<int>, j: nat)
    requires j < |m|
    ensures Matched(m, m[j])
  {
  }

  lemma NothingOut(m: seq<int>, n: nat)
    ensures Progress(m, n, [], 0, 0) && Kept([]) == []
  {
  }

  lemma UnmatchedNotIn(a: seq<string>, b: seq<string>, m: seq<int>, i: nat)
    requires Unique(a) && Matches(a, b, m) && i < |a| && !Matched(m, i)
    ensures a[i] !in b
  {
    forall j | 0 <= j < |b| ensures b[j] != a[i] {
      assert m[j] != i;
    }
  }

  lemma Aligned(a: seq<string>, b: seq<string>, m: seq<int>, s: seq<int>, out: seq<Pair>)
    requires Unique(a) && Unique(b) && Matches(a, b, m) && Stable(m, s) && Progress(m, |a|, out, |a|, |b|)
    requires KeptStable(m, s, |s|, Kept(out))
    ensures Covers(out, |a|, |b|) && NewInOrder(out)
    ensures forall p :: p in out && p.after >= 0 ==>
      if p.before >= 0 then a[p.before] == b[p.after] else b[p.after] !in a
    ensures forall p :: p in out && p.after < 0 ==> a[p.before] !in b
    ensures forall p :: p in out && p.moved ==> p.before >= 0 && p.after >= 0
    ensures CommonSubsequence(a, b, Kept(out)) && |Kept(out)| == |s|
  {
    hide CountBefore, CountAfter, Kept;
    assert m[..|b|] == m;
    forall p | p in out && p.after < 0 ensures a[p.before] !in b {
      UnmatchedNotIn(a, b, m, p.before);
    }
  }
}
