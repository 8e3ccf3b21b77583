/** The rows of a table diff: keys made unique, similar rows paired up, and the
    counters of the result. */
module TableRows {
  import opened TableAlign

  type Row = seq<string>

  // ---- unique keys ----

  function Digits(n: nat): (r: string)
    ensures |r| > 0 && (n < 10 <==> |r| == 1)
    ensures forall c :: c in r ==> '0' <= c <= '9'
  {
    if n < 10 then ['0' + n as char] else Digits(n / 10) + ['0' + (n % 10) as char]
  }

  lemma {:induction false} DigitsInjective(m: nat, n: nat)
    requires Digits(m) == Digits(n)
    ensures m == n
  {
    var a, b := Digits(m), Digits(n);
    if m >= 10 {
      assert a[..|a| - 1] == Digits(m / 10) && b[..|b| - 1] == Digits(n / 10);
      assert a[|a| - 1] == b[|b| - 1];
      LastDigit(m % 10, n % 10);
      DigitsInjective(m / 10, n / 10);
    } else {
      assert a[0] == b[0];
      LastDigit(m, n);
    }
  }

  lemma LastDigit(m: nat, n: nat)
    requires m < 10 && n < 10 && '0' + m as char == '0' + n as char
    ensures m == n
  {
  }

  /** A key and the number of times it came before. */
  function Numbered(k: string, n: nat): string {
    k + "\0" + Digits(n)
  }

  /** The last zero character separates the number from the key. */
  lemma NumberedInjective(k: string, l: string, m: nat, n: nat)
    requires Numbered(k, m) == Numbered(l, n)
    ensures k == l && m == n
  {
    hide Numbered, Digits;
    var x := Numbered(k, m);
    LastZero(k, m);
    LastZero(l, n);
    assert |k| == |l|;
    DigitsInjective(m, n);
  }

  lemma LastZero(k: string, n: nat)
    ensures var x := Numbered(k, n);
            && |k| < |x| && x[|k|] == '\0' && x[..|k|] == k && x[|k| + 1..] == Digits(n)
            && forall i :: |k| < i < |x| ==> x[i] != '\0'
  {
    var x, a := Numbered(k, n), Digits(n);
    forall i | |k| < i < |x| ensures x[i] != '\0' {
      assert x[i] == a[i - |k| - 1] && a[i - |k| - 1] in a;
    }
  }

  function CountKey(keys: seq<string>, k: string): nat {
    if keys == [] then 0 else CountKey(keys[..|keys| - 1], k) + if keys[|keys| - 1] == k then 1 else 0
  }

  lemma {:induction false} CountKeyGrows(keys: seq<string>, k: string, i: nat, j: nat)
    requires i <= j <= |keys|
    ensures CountKey(keys[..i], k) <= CountKey(keys[..j], k)
    decreases j
  {
    if i < j {
      CountKeyGrows(keys, k, i, j - 1);
      assert keys[..j][..j - 1] == keys[..j - 1];
    }
  }

  lemma CountKeyNone(keys: seq<string>)
    ensures forall k :: CountKey(keys[..0], k) == 0
  {
  }

  lemma CountKeyNext(keys: seq<string>, i: nat)
    requires i < |keys|
    ensures forall k :: CountKey(keys[..i + 1], k) == CountKey(keys[..i], k) + if keys[i] == k then 1 else 0
  {
    assert keys[..i + 1][..i] == keys[..i];
  }

  lemma OccursMore(keys: seq<string>, i: nat, j: nat)
    requires i < j < |keys|
    ensures CountKey(keys[..i], keys[i]) < CountKey(keys[..j], keys[i])
  {
    CountKeyGrows(keys, keys[i], i + 1, j);
    assert keys[..i + 1][..i] == keys[..i];
  }

  /** The keys with their occurrence numbers. */
  function NumberedKeys(keys: seq<string>): (out: seq<string>)
    ensures |out| == |keys|
    ensures forall i :: 0 <= i < |keys| ==> out[i] == Numbered(keys[i], CountKey(keys[..i], keys[i]))
  {
    seq(|keys|, i requires 0 <= i < |keys| => Numbered(keys[i], CountKey(keys[..i], keys[i])))
  }

  /** Numbered keys are equal exactly when the keys and their occurrences are. */
  lemma NumberedKeysEqual(a: seq<string>, b: seq<string>, i: nat, j: nat)
    requires i < |a| && j < |b|
    ensures NumberedKeys(a)[i] == NumberedKeys(b)[j] <==>
            a[i] == b[j] && CountKey(a[..i], a[i]) == CountKey(b[..j], b[j])
  {
    hide Numbered, CountKey;
    if NumberedKeys(a)[i] == NumberedKeys(b)[j] {
      NumberedInjective(a[i], b[j], CountKey(a[..i], a[i]), CountKey(b[..j], b[j]));
    }
  }

  /** Every key gets its occurrence number, which makes the list unique. */
  method Occurrences(keys: seq<string>) returns (out: seq<string>)
    ensures |out| == |keys| && Unique(out) && out == NumberedKeys(keys)
    ensures forall i :: 0 <= i < |keys| ==> out[i] == Numbered(keys[i], CountKey(keys[..i], keys[i]))
  {
    hide Numbered, Unique, CountKey;
    CountKeyNone(keys);
    var seen: map<string, nat> := map[];
    out := [];
    var i := 0;
    while i < |keys|
      invariant 0 <= i <= |keys| && |out| == i
      invariant forall k :: CountKey(keys[..i], k) == if k in seen then seen[k] else 0
      invariant forall x :: 0 <= x < i ==> out[x] == Numbered(keys[x], CountKey(keys[..x], keys[x]))
    {
      var k := keys[i];
      var n := if k in seen then seen[k] else 0;
      out := out + [Numbered(k, n)];
      seen := seen[k := n + 1];
      CountKeyNext(keys, i);
      i := i + 1;
    }
    OccurrencesUnique(keys, out);
  }

  lemma OccurrencesUnique(keys: seq<string>, out: seq<string>)
    requires |out| == |keys|
    requires forall i :: 0 <= i < |keys| ==> out[i] == Numbered(keys[i], CountKey(keys[..i], keys[i]))
    ensures Unique(out)
  {
    hide Numbered;
    forall i, j | 0 <= i < j < |out| ensures out[i] != out[j] {
      if keys[i] == keys[j] {
        OccursMore(keys, i, j);
      }
      if out[i] == out[j] {
        NumberedInjective(keys[i], keys[j], CountKey(keys[..i], keys[i]), CountKey(keys[..j], keys[j]));
      }
    }
  }

  // ---- cells ----

  /** A column of the result; -1 where a side does not have it. */
  datatype Column = Column(name: string, oldName: string, before: int, after: int)

  function Cell(row: Row, i: int): string {
    if 0 <= i < |row| then row[i] else ""
  }

  /** The column is shared and its value differs. */
  predicate Differs(c: Column, o: Row, n: Row) {
    c.before >= 0 && c.after >= 0 && Cell(o, c.before) != Cell(n, c.after)
  }

  function CountSame(cols: seq<Column>, a: Row, b: Row): nat {
    if cols == [] then 0
    else
      CountSame(cols[..|cols| - 1], a, b) +
      if Cell(a, cols[|cols| - 1].before) == Cell(b, cols[|cols| - 1].after) then 1 else 0
  }

  /** Rows with at most two shared columns, or at least half of them equal. */
  predicate AreSimilar(a: Row, b: Row, common: seq<Column>) {
    |common| <= 2 || 2 * CountSame(common, a, b) >= |common|
  }

  /** The shared columns in which two rows agree. */
  ghost function EqualColumns(common: seq<Column>, a: Row, b: Row): set<int> {
    set i | 0 <= i < |common| && Cell(a, common[i].before) == Cell(b, common[i].after)
  }

  lemma {:induction false} CountSameIs(common: seq<Column>, a: Row, b: Row)
    ensures CountSame(common, a, b) == |EqualColumns(common, a, b)|
  {
    hide Cell;
    if common == [] {
      assert EqualColumns(common, a, b) == {};
    } else {
      CountSameIs(common[..|common| - 1], a, b);
      EqualColumnsMore(common, a, b);
    }
  }

  lemma EqualColumnsMore(common: seq<Column>, a: Row, b: Row)
    requires common != []
    ensures var init, p := common[..|common| - 1], |common| - 1;
            && p !in EqualColumns(init, a, b)
            && EqualColumns(common, a, b) ==
               if Cell(a, common[p].before) == Cell(b, common[p].after) then EqualColumns(init, a, b) + {p}
               else EqualColumns(init, a, b)
  {
    hide Cell;
  }

  lemma CountSameNext(common: seq<Column>, i: nat, a: Row, b: Row)
    requires i < |common|
    ensures CountSame(common[..i + 1], a, b) ==
            CountSame(common[..i], a, b) + if Cell(a, common[i].before) == Cell(b, common[i].after) then 1 else 0
  {
    hide Cell;
    assert common[..i + 1][..i] == common[..i];
  }

  lemma NoneSame(a: Row, b: Row)
    ensures CountSame([], a, b) == 0
  {
  }

  /** Rows with no more than two shared columns are similar, and others when at least
      half of the shared columns agree. */
  lemma SimilarMeans(a: Row, b: Row, common: seq<Column>)
    ensures AreSimilar(a, b, common) <==> |common| <= 2 || 2 * |EqualColumns(common, a, b)| >= |common|
  {
    CountSameIs(common, a, b);
  }

  method Similar(a: Row, b: Row, common: seq<Column>) returns (r: bool)
    ensures r == AreSimilar(a, b, common)
    ensures r <==> |common| <= 2 || 2 * |EqualColumns(common, a, b)| >= |common|
  {
    hide CountSame, Cell, EqualColumns;
    SimilarMeans(a, b, common);
    NoneSame(a, b);
    if |common| <= 2 {
      return true;
    }
    var same := 0;
    var i := 0;
    while i < |common|
      invariant 0 <= i <= |common| && same == CountSame(common[..i], a, b)
    {
      CountSameNext(common, i, a, b);
      if Cell(a, common[i].before) == Cell(b, common[i].after) {
        same := same + 1;
      }
      i := i + 1;
    }
    assert common[..i] == common;
    r := 2 * same >= |common|;
  }

  // ---- pairing similar rows ----

  const SIMILAR_WINDOW := 64

  function CountIn(xs: seq<int>, i: int): nat {
    if xs == [] then 0 else CountIn(xs[..|xs| - 1], i) + if xs[|xs| - 1] == i then 1 else 0
  }

  lemma CountInOne(xs: seq<int>, x: int, i: int)
    ensures CountIn(xs + [x], i) == CountIn(xs, i) + if x == i then 1 else 0
  {
    assert (xs + [x])[..|xs|] == xs;
  }

  lemma {:induction false} CountInFirst(xs: seq<int>, i: int)
    requires xs != []
    ensures CountIn(xs, i) == CountIn(xs[1..], i) + if xs[0] == i then 1 else 0
  {
    if |xs| == 1 {
      assert xs[..0] == [] && xs[1..] == [];
    } else {
      var init := xs[..|xs| - 1];
      CountInFirst(init, i);
      assert init[1..] == xs[1..][..|xs| - 2] && init[0] == xs[0];
    }
  }

  lemma {:induction false} CountConcat(a: seq<Pair>, b: seq<Pair>, i: int)
    ensures CountBefore(a + b, i) == CountBefore(a, i) + CountBefore(b, i)
    ensures CountAfter(a + b, i) == CountAfter(a, i) + CountAfter(b, i)
  {
    if b == [] {
      assert a + b == a;
    } else {
      CountConcat(a, b[..|b| - 1], i);
      assert (a + b)[..|a + b| - 1] == a + b[..|b| - 1];
    }
  }

  lemma {:induction false} CountFirst(ps: seq<Pair>, i: int)
    requires ps != []
    ensures CountBefore(ps, i) == CountBefore(ps[1..], i) + if ps[0].before == i then 1 else 0
    ensures CountAfter(ps, i) == CountAfter(ps[1..], i) + if ps[0].after == i then 1 else 0
  {
    assert ps == [ps[0]] + ps[1..];
    CountConcat([ps[0]], ps[1..], i);
    assert [ps[0]][..0] == [];
  }

  /** The rows emitted, the removed and added ones at hand and the rows to come
      make up the whole, position by position. */
  ghost predicate Balanced(whole: seq<Pair>, out: seq<Pair>, removed: seq<int>, later: seq<int>, added: seq<int>,
                           rest: seq<Pair>) {
    && (forall i :: i >= 0 ==>
          CountBefore(whole, i) == CountBefore(out, i) + CountIn(removed, i) + CountBefore(rest, i))
    && (forall j :: j >= 0 ==>
          CountAfter(whole, j) == CountAfter(out, j) + CountIn(later, j) + CountIn(added, j) + CountAfter(rest, j))
  }

  /** A row with positions in range, on one side at least. */
  predicate InRange(p: Pair, n: nat, m: nat) {
    -1 <= p.before < n && -1 <= p.after < m && (p.before >= 0 || p.after >= 0)
  }

  ghost predicate AllInRange(ps: seq<Pair>, n: nat, m: nat) {
    forall p :: p in ps ==> InRange(p, n, m)
  }

  ghost predicate IndicesBelow(xs: seq<int>, n: nat) {
    forall x :: x in xs ==> 0 <= x < n
  }

  /** Reads a run of rows that are on one side only. */
  method ReadGroup(pairs: seq<Pair>, start: nat, n: nat, m: nat, ghost out: seq<Pair>)
    returns (end: nat, removed: seq<int>, added: seq<int>)
    requires start < |pairs| && AllInRange(pairs, n, m) && (pairs[start].before < 0 || pairs[start].after < 0)
    requires Balanced(pairs, out, [], [], [], pairs[start..])
    ensures start < end <= |pairs| && IndicesBelow(removed, n) && IndicesBelow(added, m)
    ensures forall x :: start <= x < end ==> pairs[x].before < 0 || pairs[x].after < 0
    ensures Balanced(pairs, out, removed, [], added, pairs[end..])
  {
    hide Balanced;
    end, removed, added := start, [], [];
    while end < |pairs| && (pairs[end].before < 0 || pairs[end].after < 0)
      invariant start <= end <= |pairs| && IndicesBelow(removed, n) && IndicesBelow(added, m)
      invariant forall x :: start <= x < end ==> pairs[x].before < 0 || pairs[x].after < 0
      invariant Balanced(pairs, out, removed, [], added, pairs[end..])
    {
      var p := pairs[end];
      assert p in pairs;
      assert pairs[end..][1..] == pairs[end + 1..] && pairs[end..][0] == p;
      TakeRow(pairs, out, removed, added, pairs[end..]);
      if p.after < 0 {
        removed := removed + [p.before];
      } else {
        added := added + [p.after];
      }
      end := end + 1;
    }
  }

  lemma TakeRow(whole: seq<Pair>, out: seq<Pair>, removed: seq<int>, added: seq<int>, rest: seq<Pair>)
    requires rest != [] && Balanced(whole, out, removed, [], added, rest)
    requires var p := rest[0]; (p.before < 0 || p.after < 0) && (p.before >= 0 || p.after >= 0)
    ensures var p := rest[0];
      if p.after < 0 then Balanced(whole, out, removed + [p.before], [], added, rest[1..])
      else Balanced(whole, out, removed, [], added + [p.after], rest[1..])
  {
    hide CountBefore, CountAfter, CountIn;
    var p := rest[0];
    forall i ensures CountBefore(rest, i) == CountBefore(rest[1..], i) + (if p.before == i then 1 else 0)
      && CountAfter(rest, i) == CountAfter(rest[1..], i) + (if p.after == i then 1 else 0)
      && CountIn(removed + [p.before], i) == CountIn(removed, i) + (if p.before == i then 1 else 0)
      && CountIn(added + [p.after], i) == CountIn(added, i) + (if p.after == i then 1 else 0)
    {
      CountFirst(rest, i);
      CountInOne(removed, p.before, i);
      CountInOne(added, p.after, i);
    }
  }

  /** Moves one row to the output: an old position from the front of the removed
      ones, a new one from the front of the added ones, or both. */
  lemma PutRow(whole: seq<Pair>, out: seq<Pair>, removed: seq<int>, later: seq<int>, added: seq<int>, rest: seq<Pair>,
               p: Pair)
    requires Balanced(whole, out, removed, later, added, rest)
    requires p.before < 0 || (removed != [] && p.before == removed[0])
    requires p.after < 0 || (added != [] && p.after == added[0])
    ensures Balanced(whole, out + [p], if p.before < 0 then removed else removed[1..], later,
                     if p.after < 0 then added else added[1..], rest)
  {
    hide CountBefore, CountAfter, CountIn;
    forall i ensures CountBefore(out + [p], i) == CountBefore(out, i) + (if p.before == i then 1 else 0)
      && CountAfter(out + [p], i) == CountAfter(out, i) + (if p.after == i then 1 else 0)
      && (removed != [] ==> CountIn(removed, i) == CountIn(removed[1..], i) + (if removed[0] == i then 1 else 0))
      && (added != [] ==> CountIn(added, i) == CountIn(added[1..], i) + (if added[0] == i then 1 else 0))
    {
      CountOne(out, p, i);
      if removed != [] { CountInFirst(removed, i); }
      if added != [] { CountInFirst(added, i); }
    }
  }

  /** Puts an added row without a partner aside. */
  lemma PutAside(whole: seq<Pair>, out: seq<Pair>, removed: seq<int>, later: seq<int>, added: seq<int>, rest: seq<Pair>)
    requires Balanced(whole, out, removed, later, added, rest) && added != []
    ensures Balanced(whole, out, removed, later + [added[0]], added[1..], rest)
  {
    hide CountBefore, CountAfter, CountIn;
    forall i ensures CountIn(added, i) == CountIn(added[1..], i) + (if added[0] == i then 1 else 0)
      && CountIn(later + [added[0]], i) == CountIn(later, i) + (if added[0] == i then 1 else 0)
    {
      CountInFirst(added, i);
      CountInOne(later, added[0], i);
    }
  }

  /** What was put aside comes last. */
  lemma TakeUp(whole: seq<Pair>, out: seq<Pair>, removed: seq<int>, later: seq<int>, rest: seq<Pair>)
    requires Balanced(whole, out, removed, later, [], rest)
    ensures Balanced(whole, out, removed, [], later, rest)
  {
    hide CountBefore, CountAfter;
  }

  /** Copies a matched row. */
  lemma CopyRow(whole: seq<Pair>, out: seq<Pair>, rest: seq<Pair>)
    requires rest != [] && Balanced(whole, out, [], [], [], rest)
    ensures Balanced(whole, out + [rest[0]], [], [], [], rest[1..])
  {
    hide CountBefore, CountAfter, CountIn;
    var p := rest[0];
    forall i ensures CountBefore(rest, i) == CountBefore(rest[1..], i) + (if p.before == i then 1 else 0)
      && CountAfter(rest, i) == CountAfter(rest[1..], i) + (if p.after == i then 1 else 0)
      && CountBefore(out + [p], i) == CountBefore(out, i) + (if p.before == i then 1 else 0)
      && CountAfter(out + [p], i) == CountAfter(out, i) + (if p.after == i then 1 else 0)
    {
      CountFirst(rest, i);
      CountOne(out, p, i);
    }
  }

  /** Everything the rows refer to. */
  datatype Tables = Tables(oldRows: seq<Row>, newRows: seq<Row>, common: seq<Column>)

  /** The first of the removed rows at hand, within the window, that is similar. */
  method FindSimilar(t: Tables, removed: seq<int>, k: nat, j: nat) returns (found: int)
    requires k <= |removed| && IndicesBelow(removed, |t.oldRows|) && j < |t.newRows|
    ensures found == -1 || (k <= found < |removed| && found < k + SIMILAR_WINDOW && 0 <= removed[found] < |t.oldRows|
      && AreSimilar(t.oldRows[removed[found]], t.newRows[j], t.common))
    ensures forall x :: k <= x < |removed| && x < k + SIMILAR_WINDOW && (found == -1 || x < found) ==>
      0 <= removed[x] < |t.oldRows| && !AreSimilar(t.oldRows[removed[x]], t.newRows[j], t.common)
  {
    hide AreSimilar;
    found := -1;
    var x := k;
    while x < |removed| && x < k + SIMILAR_WINDOW && found < 0
      invariant k <= x <= |removed| && x <= k + SIMILAR_WINDOW
      invariant found == -1 ||
                (found == x - 1 && k <= found && 0 <= removed[found] < |t.oldRows| &&
                 AreSimilar(t.oldRows[removed[found]], t.newRows[j], t.common))
      invariant forall y :: k <= y < x && (found == -1 || y < found) ==>
        0 <= removed[y] < |t.oldRows| && !AreSimilar(t.oldRows[removed[y]], t.newRows[j], t.common)
    {
      assert removed[x] in removed;
      var s := Similar(t.oldRows[removed[x]], t.newRows[j], t.common);
      if s {
        found := x;
      }
      x := x + 1;
    }
  }

  /** The rows so far: in range, and matched as before or because of similarity. */
  ghost predicate Sensible(t: Tables, pairs: seq<Pair>, out: seq<Pair>) {
    forall p :: p in out ==> SensibleRow(t, pairs, p)
  }

  ghost predicate SensibleRow(t: Tables, pairs: seq<Pair>, p: Pair) {
    && InRange(p, |t.oldRows|, |t.newRows|)
    && (p in pairs ||
        (!p.moved && (p.before >= 0 && p.after >= 0 ==> AreSimilar(t.oldRows[p.before], t.newRows[p.after], t.common))))
  }

  /** Emits removed rows k.. up to `until`. */
  method PutRemoved(t: Tables, ghost pairs: seq<Pair>, out0: seq<Pair>, removed: seq<int>, k0: nat, until: nat,
                    ghost later: seq<int>, ghost added: seq<int>, ghost rest: seq<Pair>)
    returns (out: seq<Pair>, k: nat)
    requires k0 <= until <= |removed| && IndicesBelow(removed, |t.oldRows|)
    requires Sensible(t, pairs, out0) && Balanced(pairs, out0, removed[k0..], later, added, rest)
    ensures k == until && out0 <= out && Sensible(t, pairs, out)
    ensures Balanced(pairs, out, removed[k..], later, added, rest)
  {
    hide Balanced, AreSimilar;
    out, k := out0, k0;
    while k < until
      invariant k0 <= k <= until && out0 <= out && Sensible(t, pairs, out)
      invariant Balanced(pairs, out, removed[k..], later, added, rest)
    {
      assert removed[k] in removed;
      var p := Pair(removed[k], -1, false);
      assert removed[k..][1..] == removed[k + 1..] && removed[k..][0] == removed[k];
      PutRow(pairs, out, removed[k..], later, added, rest, p);
      assert SensibleRow(t, pairs, p);
      out := out + [p];
      k := k + 1;
    }
  }

  /** Emits the added rows that found no partner. */
  method PutAdded(t: Tables, ghost pairs: seq<Pair>, out0: seq<Pair>, added: seq<int>, ghost rest: seq<Pair>)
    returns (out: seq<Pair>)
    requires IndicesBelow(added, |t.newRows|)
    requires Sensible(t, pairs, out0) && Balanced(pairs, out0, [], [], added, rest)
    ensures out0 <= out && Sensible(t, pairs, out) && Balanced(pairs, out, [], [], [], rest)
  {
    hide Balanced, AreSimilar;
    out := out0;
    var x := 0;
    assert added[0..] == added;
    while x < |added|
      invariant 0 <= x <= |added| && out0 <= out && Sensible(t, pairs, out)
      invariant Balanced(pairs, out, [], [], added[x..], rest)
    {
      assert added[x] in added;
      var p := Pair(-1, added[x], false);
      assert added[x..][1..] == added[x + 1..] && added[x..][0] == added[x];
      PutRow(pairs, out, [], [], added[x..], rest, p);
      assert SensibleRow(t, pairs, p);
      out := out + [p];
      x := x + 1;
    }
    assert added[x..] == [];
  }

  /** Pairs the added rows of one group with similar removed ones, in order. */
  method PairGroup(t: Tables, ghost pairs: seq<Pair>, out0: seq<Pair>, removed: seq<int>, added: seq<int>,
                   ghost rest: seq<Pair>)
    returns (out: seq<Pair>)
    requires IndicesBelow(removed, |t.oldRows|) && IndicesBelow(added, |t.newRows|)
    requires Sensible(t, pairs, out0) && Balanced(pairs, out0, removed, [], added, rest)
    ensures out0 <= out && Sensible(t, pairs, out) && Balanced(pairs, out, [], [], [], rest)
  {
    hide Balanced, AreSimilar, Sensible;
    out := out0;
    var k, x := 0, 0;
    var later: seq<int> := [];
    assert removed[0..] == removed && added[0..] == added;
    while x < |added|
      invariant 0 <= x <= |added| && 0 <= k <= |removed| && out0 <= out && Sensible(t, pairs, out)
      invariant IndicesBelow(later, |t.newRows|)
      invariant Balanced(pairs, out, removed[k..], later, added[x..], rest)
    {
      var j := added[x];
      assert j in added;
      assert added[x..][1..] == added[x + 1..] && added[x..][0] == j;
      var found := FindSimilar(t, removed, k, j);
      if found < 0 {
        PutAside(pairs, out, removed[k..], later, added[x..], rest);
        later := later + [j];
      } else {
        out, k := PutRemoved(t, pairs, out, removed, k, found, later, added[x..], rest);
        var p := Pair(removed[k], j, false);
        assert removed[k..][1..] == removed[k + 1..] && removed[k..][0] == removed[k];
        PutRow(pairs, out, removed[k..], later, added[x..], rest, p);
        SensibleMore(t, pairs, out, p);
        out := out + [p];
        k := found + 1;
      }
      x := x + 1;
    }
    assert added[x..] == [];
    out, k := PutRemoved(t, pairs, out, removed, k, |removed|, later, [], rest);
    assert removed[k..] == [];
    TakeUp(pairs, out, [], later, rest);
    out := PutAdded(t, pairs, out, later, rest);
  }

  lemma SensibleMore(t: Tables, pairs: seq<Pair>, out: seq<Pair>, p: Pair)
    requires Sensible(t, pairs, out) && SensibleRow(t, pairs, p)
    ensures Sensible(t, pairs, out + [p])
  {
    hide SensibleRow;
  }

  /** Matched rows stay, one-sided rows may be joined to similar ones, and every
      position is still there exactly once. */
  method PairChanged(t: Tables, pairs: seq<Pair>) returns (out: seq<Pair>)
    requires Covers(pairs, |t.oldRows|, |t.newRows|)
    ensures Covers(out, |t.oldRows|, |t.newRows|)
    ensures Sensible(t, pairs, out)
    ensures forall p :: p in pairs && p.before >= 0 && p.after >= 0 ==> p in out
  {
    hide Balanced, Covers, AreSimilar, SensibleRow;
    CoversRange(t, pairs);
    out := [];
    var start := 0;
    assert pairs[0..] == pairs;
    AllToCome(pairs);
    while start < |pairs|
      invariant 0 <= start <= |pairs| && Sensible(t, pairs, out)
      invariant Balanced(pairs, out, [], [], [], pairs[start..])
      invariant forall p :: p in pairs[..start] && p.before >= 0 && p.after >= 0 ==> p in out
    {
      ghost var was := out;
      if pairs[start].before >= 0 && pairs[start].after >= 0 {
        assert pairs[start..][1..] == pairs[start + 1..] && pairs[start..][0] == pairs[start];
        CopyRow(pairs, out, pairs[start..]);
        assert pairs[..start + 1] == pairs[..start] + [pairs[start]];
        SameRow(t, pairs, start);
        out := out + [pairs[start]];
        start := start + 1;
      } else {
        var end, removed, added := ReadGroup(pairs, start, |t.oldRows|, |t.newRows|, out);
        out := PairGroup(t, pairs, out, removed, added, pairs[end..]);
        assert forall p :: p in was ==> p in out;
        start := end;
      }
    }
    StillCovers(t, pairs, out);
  }

  lemma CoversRange(t: Tables, pairs: seq<Pair>)
    requires Covers(pairs, |t.oldRows|, |t.newRows|)
    ensures AllInRange(pairs, |t.oldRows|, |t.newRows|)
  {
  }

  lemma SameRow(t: Tables, pairs: seq<Pair>, i: nat)
    requires AllInRange(pairs, |t.oldRows|, |t.newRows|) && i < |pairs|
    ensures SensibleRow(t, pairs, pairs[i])
  {
    assert pairs[i] in pairs;
  }

  lemma AllToCome(pairs: seq<Pair>)
    ensures Balanced(pairs, [], [], [], [], pairs)
  {
  }

  lemma StillCovers(t: Tables, pairs: seq<Pair>, out: seq<Pair>)
    requires Covers(pairs, |t.oldRows|, |t.newRows|) && Balanced(pairs, out, [], [], [], []) && Sensible(t, pairs, out)
    ensures Covers(out, |t.oldRows|, |t.newRows|)
  {
    hide AreSimilar;
    forall i | i >= 0
      ensures CountBefore(out, i) == CountBefore(pairs, i) && CountAfter(out, i) == CountAfter(pairs, i)
    {
      assert CountBefore([], i) == CountAfter([], i) == CountIn([], i) == 0;
    }
  }

  // ---- counting the rows ----

  datatype Status = Same | Added | Removed | Changed

  /** The values of one row of the result. */
  datatype TableRow = TableRow(status: Status, oldLine: int, newLine: int, cells: seq<string>, oldCells: seq<string>,
                               changed: seq<int>, moved: bool)

  function RowAt(rows: seq<Row>, i: int): Row {
    if 0 <= i < |rows| then rows[i] else []
  }

  /** What a row of the result says about its pair. */
  ghost predicate Describes(cols: seq<Column>, oldRows: seq<Row>, newRows: seq<Row>, p: Pair, r: TableRow) {
    var o, n := RowAt(oldRows, p.before), RowAt(newRows, p.after);
    var both := p.before >= 0 && p.after >= 0;
    && r.moved == p.moved
    && r.oldLine == (if p.before >= 0 then p.before + 2 else 0)
    && r.newLine == (if p.after >= 0 then p.after + 2 else 0)
    && |r.cells| == |cols|
    && (forall i :: 0 <= i < |cols| ==>
          r.cells[i] == if p.after >= 0 && cols[i].after >= 0 then Cell(n, cols[i].after) else Cell(o, cols[i].before))
    && (forall i :: i in r.changed <==> both && 0 <= i < |cols| && Differs(cols[i], o, n))
    && (forall x, y :: 0 <= x < y < |r.changed| ==> r.changed[x] < r.changed[y])
    && r.status == (if p.before < 0 then Added
                    else if p.after < 0 then Removed else if r.changed != [] then Changed else Same)
    && (r.status == Changed ==> |r.oldCells| == |cols| && forall i :: 0 <= i < |cols| ==>
          r.oldCells[i] == Cell(o, cols[i].before))
  }

  /** How many rows have the status, how many moved, how many cells changed. */
  function CountStatus(rows: seq<TableRow>, s: Status): nat {
    if rows == [] then 0 else CountStatus(rows[..|rows| - 1], s) + if rows[|rows| - 1].status == s then 1 else 0
  }

  function CountMoved(rows: seq<TableRow>): nat {
    if rows == [] then 0 else CountMoved(rows[..|rows| - 1]) + if rows[|rows| - 1].moved then 1 else 0
  }

  function CountCells(rows: seq<TableRow>): nat {
    if rows == [] then 0
    else CountCells(rows[..|rows| - 1]) + if rows[|rows| - 1].status == Changed then |rows[|rows| - 1].changed| else 0
  }

  /** The columns of the result, the one that rows are matched by (-1 when they
      are matched by content), and how many are on one side only. */
  datatype Layout = Layout(columns: seq<Column>, keyColumn: int, columnsAdded: nat, columnsRemoved: nat)

  class TableDiff {
    const layout: Layout
    var rows: seq<TableRow>
    var rowsAdded: nat
    var rowsRemoved: nat
    var rowsChanged: nat
    var rowsMoved: nat
    var cellsChanged: nat

    /** The counters count the rows. */
    ghost predicate Valid()
      reads this
    {
      && rowsAdded == CountStatus(rows, Added) && rowsRemoved == CountStatus(rows, Removed)
      && rowsChanged == CountStatus(rows, Changed) && rowsMoved == CountMoved(rows) && cellsChanged == CountCells(rows)
    }

    constructor (layout: Layout)
      ensures Valid() && rows == [] && this.layout == layout
    {
      this.layout, rows := layout, [];
      rowsAdded, rowsRemoved, rowsChanged, rowsMoved, cellsChanged := 0, 0, 0, 0, 0;
    }

    /** Appends the row of one pair and counts it. */
    method Append(p: Pair, oldRows: seq<Row>, newRows: seq<Row>)
      requires Valid() && InRange(p, |oldRows|, |newRows|)
      modifies this
      ensures Valid() && |rows| == |old(rows)| + 1 && rows[..|old(rows)|] == old(rows)
      ensures Describes(layout.columns, oldRows, newRows, p, rows[|rows| - 1])
    {
      hide CountStatus, CountMoved, CountCells, Describes;
      var r := DescribePair(layout.columns, oldRows, newRows, p);
      ghost var was := rows;
      rows := rows + [r];
      CountRow(was, r);
      match r.status {
        case Added => rowsAdded := rowsAdded + 1;
        case Removed => rowsRemoved := rowsRemoved + 1;
        case Changed => rowsChanged, cellsChanged := rowsChanged + 1, cellsChanged + |r.changed|;
        case Same =>
      }
      if r.moved {
        rowsMoved := rowsMoved + 1;
      }
    }
  }

  /** The row of the result for one pair. */
  method DescribePair(columns: seq<Column>, oldRows: seq<Row>, newRows: seq<Row>, p: Pair) returns (r: TableRow)
    requires InRange(p, |oldRows|, |newRows|)
    ensures Describes(columns, oldRows, newRows, p, r)
  {
    hide Cell, Differs;
    var o, n := RowAt(oldRows, p.before), RowAt(newRows, p.after);
    var cells, changed := ReadCells(columns, p, o, n);
    var status := if p.before < 0 then Added
                  else if p.after < 0 then Removed else if |changed| > 0 then Changed else Same;
    var oldCells: seq<string> := [];
    if status == Changed {
      oldCells := OldCells(columns, o);
    }
    r := TableRow(status, if p.before >= 0 then p.before + 2 else 0, if p.after >= 0 then p.after + 2 else 0,
                  cells, oldCells, changed, p.moved);
  }

  lemma CountRow(rows: seq<TableRow>, r: TableRow)
    ensures CountMoved(rows + [r]) == CountMoved(rows) + if r.moved then 1 else 0
    ensures CountCells(rows + [r]) == CountCells(rows) + if r.status == Changed then |r.changed| else 0
    ensures forall s :: CountStatus(rows + [r], s) == CountStatus(rows, s) + if r.status == s then 1 else 0
  {
    assert (rows + [r])[..|rows|] == rows;
  }

  method ReadCells(columns: seq<Column>, p: Pair, o: Row, n: Row) returns (cells: seq<string>, changed: seq<int>)
    ensures |cells| == |columns|
    ensures forall i :: 0 <= i < |columns| ==>
      cells[i] == if p.after >= 0 && columns[i].after >= 0 then Cell(n, columns[i].after)
                  else Cell(o, columns[i].before)
    ensures forall i :: i in changed <==>
      p.before >= 0 && p.after >= 0 && 0 <= i < |columns| && Differs(columns[i], o, n)
    ensures forall x, y :: 0 <= x < y < |changed| ==> changed[x] < changed[y]
  {
    hide Cell;
    cells, changed := [], [];
    var i := 0;
    while i < |columns|
      invariant 0 <= i <= |columns| && |cells| == i
      invariant forall x :: 0 <= x < i ==>
        cells[x] == if p.after >= 0 && columns[x].after >= 0 then Cell(n, columns[x].after)
                    else Cell(o, columns[x].before)
      invariant forall x :: x in changed <==> p.before >= 0 && p.after >= 0 && 0 <= x < i && Differs(columns[x], o, n)
      invariant forall x, y :: 0 <= x < y < |changed| ==> changed[x] < changed[y]
      invariant forall x :: 0 <= x < |changed| ==> changed[x] < i
    {
      var c := columns[i];
      if p.after >= 0 && c.after >= 0 {
        cells := cells + [Cell(n, c.after)];
      } else {
        cells := cells + [Cell(o, c.before)];
      }
      if p.before >= 0 && p.after >= 0 && Differs(c, o, n) {
        changed := changed + [i];
      }
      i := i + 1;
    }
  }

  method OldCells(columns: seq<Column>, o: Row) returns (cells: seq<string>)
    ensures |cells| == |columns| && forall i :: 0 <= i < |columns| ==> cells[i] == Cell(o, columns[i].before)
  {
    cells := [];
    var i := 0;
    while i < |columns|
      invariant 0 <= i <= |columns| && |cells| == i
      invariant forall x :: 0 <= x < i ==> cells[x] == Cell(o, columns[x].before)
    {
      cells := cells + [Cell(o, columns[i].before)];
      i := i + 1;
    }
  }

  // ---- balance ----

  function TotalBefore(ps: seq<Pair>): nat {
    if ps == [] then 0 else TotalBefore(ps[..|ps| - 1]) + if ps[|ps| - 1].before >= 0 then 1 else 0
  }

  function TotalAfter(ps: seq<Pair>): nat {
    if ps == [] then 0 else TotalAfter(ps[..|ps| - 1]) + if ps[|ps| - 1].after >= 0 then 1 else 0
  }

  /** Counting rows by position: one row for each of n positions makes n rows. */
  lemma {:induction false} TotalOld(ps: seq<Pair>, n: nat, hits: seq<nat>)
    requires |hits| == n && forall i :: 0 <= i < n ==> hits[i] == CountBefore(ps, i)
    requires forall p :: p in ps ==> p.before < n
    ensures TotalBefore(ps) == Sum(hits)
    decreases |ps|
  {
    if ps == [] {
      SumZero(hits);
    } else {
      var init, last := ps[..|ps| - 1], ps[|ps| - 1];
      assert last in ps && forall p :: p in init ==> p in ps;
      if last.before >= 0 {
        var fewer := hits[last.before := hits[last.before] - 1];
        TotalOld(init, n, fewer);
        SumUpdate(hits, last.before, hits[last.before] - 1);
      } else {
        TotalOld(init, n, hits);
      }
    }
  }

  lemma {:induction false} TotalNew(ps: seq<Pair>, n: nat, hits: seq<nat>)
    requires |hits| == n && forall i :: 0 <= i < n ==> hits[i] == CountAfter(ps, i)
    requires forall p :: p in ps ==> p.after < n
    ensures TotalAfter(ps) == Sum(hits)
    decreases |ps|
  {
    if ps == [] {
      SumZero(hits);
    } else {
      var init, last := ps[..|ps| - 1], ps[|ps| - 1];
      assert last in ps && forall p :: p in init ==> p in ps;
      if last.after >= 0 {
        var fewer := hits[last.after := hits[last.after] - 1];
        TotalNew(init, n, fewer);
        SumUpdate(hits, last.after, hits[last.after] - 1);
      } else {
        TotalNew(init, n, hits);
      }
    }
  }

  function Sum(xs: seq<nat>): nat {
    if xs == [] then 0 else Sum(xs[..|xs| - 1]) + xs[|xs| - 1]
  }

  lemma {:induction false} SumZero(xs: seq<nat>)
    requires forall i :: 0 <= i < |xs| ==> xs[i] == 0
    ensures Sum(xs) == 0
  {
    if xs != [] {
      SumZero(xs[..|xs| - 1]);
    }
  }

  lemma {:induction false} SumOnes(xs: seq<nat>)
    requires forall i :: 0 <= i < |xs| ==> xs[i] == 1
    ensures Sum(xs) == |xs|
  {
    if xs != [] {
      SumOnes(xs[..|xs| - 1]);
    }
  }

  lemma {:induction false} SumUpdate(xs: seq<nat>, i: nat, v: nat)
    requires i < |xs|
    ensures Sum(xs[i := v]) == Sum(xs) - xs[i] + v
  {
    var ys := xs[i := v];
    if i == |xs| - 1 {
      assert ys[..|ys| - 1] == xs[..|xs| - 1];
    } else {
      SumUpdate(xs[..|xs| - 1], i, v);
      assert ys[..|ys| - 1] == xs[..|xs| - 1][i := v];
    }
  }

  lemma Totals(ps: seq<Pair>, n: nat, m: nat)
    requires Covers(ps, n, m)
    ensures TotalBefore(ps) == n && TotalAfter(ps) == m
  {
    var old_ := seq(n, _ => 1);
    var new_ := seq(m, _ => 1);
    TotalOld(ps, n, old_);
    TotalNew(ps, m, new_);
    SumOnes(old_);
    SumOnes(new_);
  }

  /** The rows that describe the pairs balance against both sides. */
  lemma {:induction false} StatusTotals(cols: seq<Column>, oldRows: seq<Row>, newRows: seq<Row>, ps: seq<Pair>,
                                        rows: seq<TableRow>)
    requires |rows| == |ps| && forall k :: 0 <= k < |ps| ==>
      InRange(ps[k], |oldRows|, |newRows|) && Describes(cols, oldRows, newRows, ps[k], rows[k])
    ensures CountStatus(rows, Removed) + CountStatus(rows, Changed) + CountStatus(rows, Same) == TotalBefore(ps)
    ensures CountStatus(rows, Added) + CountStatus(rows, Changed) + CountStatus(rows, Same) == TotalAfter(ps)
  {
    hide Differs, Cell;
    if ps != [] {
      var k := |ps| - 1;
      StatusTotals(cols, oldRows, newRows, ps[..k], rows[..k]);
      assert Describes(cols, oldRows, newRows, ps[k], rows[k]);
    }
  }

  ghost predicate UsableKeys(values: seq<string>) {
    Unique(values) && forall v :: v in values ==> v != ""
  }

  method UniqueNonEmpty(values: seq<string>) returns (r: bool)
    ensures r == UsableKeys(values)
  {
    var seen: set<string> := {};
    var i := 0;
    while i < |values|
      invariant 0 <= i <= |values|
      invariant forall v :: v in seen <==> v in values[..i]
      invariant forall x :: 0 <= x < i ==> values[x] != ""
      invariant forall x, y :: 0 <= x < y < i ==> values[x] != values[y]
    {
      var v := values[i];
      if v == "" || v in seen {
        assert v in values;
        if v in seen {
          ghost var x :| 0 <= x < i && values[..i][x] == v;
          assert values[x] == values[i];
        }
        return false;
      }
      seen := seen + {v};
      assert values[..i + 1] == values[..i] + [v];
      i := i + 1;
    }
    assert values[..i] == values;
    r := true;
  }

  /** The keys of the rows: the first shared column, and all shared columns. */
  datatype Keys = Keys(shared: bool, oldKey: seq<string>, newKey: seq<string>, oldContent: seq<string>,
                       newContent: seq<string>)

  predicate KeysFit(t: Tables, k: Keys) {
    |k.oldKey| == |k.oldContent| == |t.oldRows| && |k.newKey| == |k.newContent| == |t.newRows|
  }

  /** Why two rows are shown as one: equal keys, or equal contents or similarity. */
  ghost predicate PairMatched(t: Tables, k: Keys, byKey: bool, p: Pair)
    requires KeysFit(t, k)
  {
    p.before >= 0 && p.after >= 0 ==>
      && p.before < |t.oldRows| && p.after < |t.newRows|
      && if byKey then k.oldKey[p.before] == k.newKey[p.after]
         else k.oldContent[p.before] == k.newContent[p.after] ||
              AreSimilar(t.oldRows[p.before], t.newRows[p.after], t.common)
  }

  ghost predicate AllMatched(t: Tables, k: Keys, byKey: bool, pairs: seq<Pair>)
    requires KeysFit(t, k)
  {
    forall p :: p in pairs ==> PairMatched(t, k, byKey, p)
  }

  /** The pairs of an alignment are kept, and the other rows joined where similar. */
  ghost predicate Joined(t: Tables, exact: seq<Pair>, pairs: seq<Pair>) {
    Sensible(t, exact, pairs) && forall p :: p in exact && p.before >= 0 && p.after >= 0 ==> p in pairs
  }

  ghost predicate ContentAligned(t: Tables, k: Keys, exact: seq<Pair>, pairs: seq<Pair>) {
    Aligns(NumberedKeys(k.oldContent), NumberedKeys(k.newContent), exact) && Joined(t, exact, pairs)
  }

  /** The rows are an alignment of their keys, or of their numbered contents with
      similar rows joined. */
  ghost predicate RowsAligned(t: Tables, k: Keys, byKey: bool, pairs: seq<Pair>) {
    if byKey then Aligns(k.oldKey, k.newKey, pairs) else exists exact :: ContentAligned(t, k, exact, pairs)
  }

  /** Rows of equal usable key are shown as one. */
  lemma EqualKeysPaired(t: Tables, k: Keys, pairs: seq<Pair>, i: nat, j: nat)
    requires RowsAligned(t, k, true, pairs) && UsableKeys(k.oldKey) && i < |k.oldKey| && j < |k.newKey|
    ensures Paired(pairs, i, j) <==> k.oldKey[i] == k.newKey[j]
  {
    hide Aligns, UsableKeys, Paired;
    KeysUnique(k.oldKey);
    AlignedIffEqual(k.oldKey, k.newKey, pairs, i, j);
  }

  /** Rows of equal content and occurrence are shown as one. */
  lemma EqualContentPaired(t: Tables, k: Keys, pairs: seq<Pair>, i: nat, j: nat)
    requires RowsAligned(t, k, false, pairs) && i < |k.oldContent| && j < |k.newContent|
    requires k.oldContent[i] == k.newContent[j]
    requires CountKey(k.oldContent[..i], k.oldContent[i]) == CountKey(k.newContent[..j], k.newContent[j])
    ensures Paired(pairs, i, j)
  {
    hide Aligns, Sensible, CountKey, Numbered, NumberedKeys;
    var exact :| ContentAligned(t, k, exact, pairs);
    NumberedKeysEqual(k.oldContent, k.newContent, i, j);
    NumberedUnique(k.oldContent);
    AlignedIffEqual(NumberedKeys(k.oldContent), NumberedKeys(k.newContent), exact, i, j);
  }

  lemma NumberedUnique(keys: seq<string>)
    ensures Unique(NumberedKeys(keys))
  {
    hide Numbered, CountKey, Unique;
    OccurrencesUnique(keys, NumberedKeys(keys));
  }

  /** Rows matched by their key where it is usable on both sides, or else by
      content with similar rows joined. */
  method AlignRows(t: Tables, k: Keys) returns (pairs: seq<Pair>, byKey: bool)
    requires KeysFit(t, k)
    ensures Covers(pairs, |t.oldRows|, |t.newRows|)
    ensures byKey <==> k.shared && UsableKeys(k.oldKey) && UsableKeys(k.newKey)
    ensures AllMatched(t, k, byKey, pairs) && RowsAligned(t, k, byKey, pairs)
  {
    hide Covers, Unique, CommonSubsequence, Kept, CountKey, Numbered, UsableKeys, AreSimilar, Aligns, ContentAligned;
    byKey := k.shared;
    if byKey {
      byKey := UniqueNonEmpty(k.oldKey);
      if byKey {
        byKey := UniqueNonEmpty(k.newKey);
      }
    }
    if byKey {
      KeysUnique(k.oldKey);
      KeysUnique(k.newKey);
      pairs := AlignUnique(k.oldKey, k.newKey);
      CoversRange(t, pairs);
    } else {
      pairs := AlignByContent(t, k);
    }
  }

  method AlignByContent(t: Tables, k: Keys) returns (pairs: seq<Pair>)
    requires KeysFit(t, k)
    ensures Covers(pairs, |t.oldRows|, |t.newRows|) && AllMatched(t, k, false, pairs)
    ensures exists exact :: ContentAligned(t, k, exact, pairs)
  {
    hide Covers, Unique, CommonSubsequence, Kept, CountKey, Numbered, AreSimilar, Aligns;
    var o := Occurrences(k.oldContent);
    var n := Occurrences(k.newContent);
    var exact := AlignUnique(o, n);
    CoversRange(t, exact);
    forall p | p in exact && p.before >= 0 && p.after >= 0 ensures k.oldContent[p.before] == k.newContent[p.after] {
      assert InRange(p, |t.oldRows|, |t.newRows|);
      NumberedInjective(k.oldContent[p.before], k.newContent[p.after],
        CountKey(k.oldContent[..p.before], k.oldContent[p.before]),
          CountKey(k.newContent[..p.after], k.newContent[p.after]));
    }
    pairs := PairChanged(t, exact);
    assert ContentAligned(t, k, exact, pairs);
    forall p | p in pairs ensures PairMatched(t, k, false, p) {
      assert SensibleRow(t, exact, p);
    }
  }

  lemma KeysUnique(values: seq<string>)
    requires UsableKeys(values)
    ensures Unique(values)
  {
  }

  /** The rows of the diff, with counters that balance against both tables. */
  method DiffRows(t: Tables, layout: Layout, pairs: seq<Pair>) returns (d: TableDiff)
    requires Covers(pairs, |t.oldRows|, |t.newRows|)
    ensures fresh(d) && d.Valid() && d.layout == layout && |d.rows| == |pairs|
    ensures forall k :: 0 <= k < |pairs| ==> Describes(layout.columns, t.oldRows, t.newRows, pairs[k], d.rows[k])
    ensures d.rowsRemoved + d.rowsChanged + CountStatus(d.rows, Same) == |t.oldRows|
    ensures d.rowsAdded + d.rowsChanged + CountStatus(d.rows, Same) == |t.newRows|
  {
    hide Covers, Describes, CountStatus, CountMoved, CountCells;
    CoversRange(t, pairs);
    d := new TableDiff(layout);
    var i := 0;
    while i < |pairs|
      invariant 0 <= i <= |pairs| && fresh(d) && d.Valid() && d.layout == layout && |d.rows| == i
      invariant forall k :: 0 <= k < i ==> Describes(layout.columns, t.oldRows, t.newRows, pairs[k], d.rows[k])
    {
      assert pairs[i] in pairs;
      ghost var was := d.rows;
      d.Append(pairs[i], t.oldRows, t.newRows);
      assert forall k :: 0 <= k < i ==> d.rows[k] == was[k];
      i := i + 1;
    }
    Totals(pairs, |t.oldRows|, |t.newRows|);
    AllDescribed(layout.columns, t, pairs, d.rows);
  }

  /** The old value of a column of a row of the result. */
  function OldValue(r: TableRow, i: nat): string
    requires i < |r.cells| && (r.status == Changed ==> i < |r.oldCells|)
  {
    if r.status == Changed then r.oldCells[i] else r.cells[i]
  }

  /** A row of the result tells both rows it stands for: the new one in its cells,
      the old one in its old cells, or in its cells where nothing changed. */
  lemma RowReadsBack(cols: seq<Column>, oldRows: seq<Row>, newRows: seq<Row>, p: Pair, r: TableRow, i: nat)
    requires Describes(cols, oldRows, newRows, p, r) && i < |cols|
    ensures p.after >= 0 && cols[i].after >= 0 ==> r.cells[i] == Cell(RowAt(newRows, p.after), cols[i].after)
    ensures p.before >= 0 && cols[i].before >= 0 ==> OldValue(r, i) == Cell(RowAt(oldRows, p.before), cols[i].before)
    ensures 0 <= p.after < |newRows| && cols[i].after >= 0 ==> r.cells[i] == Cell(newRows[p.after], cols[i].after)
    ensures 0 <= p.before < |oldRows| && cols[i].before >= 0 ==>
      OldValue(r, i) == Cell(oldRows[p.before], cols[i].before)
  {
    hide Cell;
    if p.before >= 0 && p.after >= 0 && r.status == Same {
      assert i !in r.changed;
    }
  }

  lemma AllDescribed(columns: seq<Column>, t: Tables, pairs: seq<Pair>, rows: seq<TableRow>)
    requires |rows| == |pairs| && AllInRange(pairs, |t.oldRows|, |t.newRows|)
    requires forall k :: 0 <= k < |pairs| ==> Describes(columns, t.oldRows, t.newRows, pairs[k], rows[k])
    ensures CountStatus(rows, Removed) + CountStatus(rows, Changed) + CountStatus(rows, Same) == TotalBefore(pairs)
    ensures CountStatus(rows, Added) + CountStatus(rows, Changed) + CountStatus(rows, Same) == TotalAfter(pairs)
  {
    hide Describes;
    assert forall k :: 0 <= k < |pairs| ==> pairs[k] in pairs;
    StatusTotals(columns, t.oldRows, t.newRows, pairs, rows);
  }
}
