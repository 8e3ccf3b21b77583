/** Byte-wise string order and sorting by a string key. */
module Order {

  predicate Less(a: string, b: string) {
    if b == "" then false
    else if a == "" then true
    else a[0] < b[0] || (a[0] == b[0] && Less(a[1..], b[1..]))
  }

  /** The strings agree before k, and there a ends or has the smaller character. */
  predicate SplitsAt(a: string, b: string, k: nat) {
    k <= |a| && k < |b| && a[..k] == b[..k] && (k == |a| || a[k] < b[k])
  }

  /** The order is decided by the first character that differs; a prefix comes first. */
  lemma {:induction false} LessIff(a: string, b: string)
    ensures Less(a, b) <==> exists k: nat :: SplitsAt(a, b, k)
    decreases |a|
  {
    if Less(a, b) {
      if a == "" || a[0] < b[0] {
        assert SplitsAt(a, b, 0);
      } else {
        LessIff(a[1..], b[1..]);
        var k: nat :| SplitsAt(a[1..], b[1..], k);
        SplitsLater(a, b, k);
      }
    }
    if k: nat :| SplitsAt(a, b, k) {
      if k > 0 {
        SplitsEarlier(a, b, k);
        LessIff(a[1..], b[1..]);
      }
    }
  }

  lemma SplitsLater(a: string, b: string, k: nat)
    requires a != "" && b != "" && a[0] == b[0] && SplitsAt(a[1..], b[1..], k)
    ensures SplitsAt(a, b, k + 1)
  {
    assert a[..k + 1] == [a[0]] + a[1..][..k] && b[..k + 1] == [b[0]] + b[1..][..k];
  }

  lemma SplitsEarlier(a: string, b: string, k: nat)
    requires SplitsAt(a, b, k) && k > 0
    ensures a != "" && b != "" && a[0] == b[0] && SplitsAt(a[1..], b[1..], k - 1)
  {
    assert a[..k][0] == b[..k][0];
    assert a[1..][..k - 1] == a[..k][1..] && b[1..][..k - 1] == b[..k][1..];
  }

  lemma {:induction false} LessTransitive(a: string, b: string, c: string)
    requires Less(a, b) && Less(b, c)
    ensures Less(a, c)
    decreases |a|
  {
    if a != "" && a[0] == b[0] && b[0] == c[0] {
      LessTransitive(a[1..], b[1..], c[1..]);
    }
  }

  lemma {:induction false} LessTotal(a: string, b: string)
    ensures Less(a, b) || a == b || Less(b, a)
    decreases |a|
  {
    if a != "" && b != "" && a[0] == b[0] {
      LessTotal(a[1..], b[1..]);
      assert a == [a[0]] + a[1..] && b == [b[0]] + b[1..];
    }
  }

  lemma {:induction false} LessIrreflexive(a: string, b: string)
    requires Less(a, b)
    ensures a != b && !Less(b, a)
    decreases |a|
  {
    if a != "" && a[0] == b[0] {
      LessIrreflexive(a[1..], b[1..]);
    }
  }

  lemma NotLessTransitive(a: string, b: string, c: string)
    requires !Less(b, a) && !Less(c, b)
    ensures !Less(c, a)
  {
    hide Less;
    LessTotal(a, b);
    LessTotal(b, c);
    if Less(a, b) && Less(b, c) {
      LessTransitive(a, b, c);
    }
    LessTotal(a, c);
    if Less(a, c) {
      LessIrreflexive(a, c);
    }
  }

  /** No element comes before one with a smaller key. */
  ghost predicate SortedBy<T(!new)>(s: seq<T>, key: T -> string) {
    forall i, j :: 0 <= i < j < |s| ==> !Less(key(s[j]), key(s[i]))
  }

  ghost predicate StrictBy<T(!new)>(s: seq<T>, key: T -> string) {
    forall i, j :: 0 <= i < j < |s| ==> Less(key(s[i]), key(s[j]))
  }

  ghost predicate DistinctBy<T(!new)>(s: seq<T>, key: T -> string) {
    forall i, j :: 0 <= i < j < |s| ==> key(s[i]) != key(s[j])
  }

  /** The same elements, whatever the order. */
  ghost predicate SameElements<T(!new)>(s: seq<T>, r: seq<T>) {
    && |s| == |r|
    && (forall x :: x in s <==> x in r)
  }

  /** Puts x in front of the first element whose key is greater. */
  method Insert<T(!new)>(s: seq<T>, x: T, key: T -> string) returns (r: seq<T>)
    requires SortedBy(s, key)
    ensures SortedBy(r, key) && SameElements(r, s + [x])
    ensures DistinctBy(s + [x], key) ==> DistinctBy(r, key)
  {
    hide Less;
    var i := |s|;
    while i > 0 && Less(key(x), key(s[i - 1]))
      invariant 0 <= i <= |s|
      invariant forall k :: i <= k < |s| ==> Less(key(x), key(s[k]))
    {
      i := i - 1;
    }
    r := s[..i] + [x] + s[i..];
    InsertSorts(s, x, i, key);
  }

  lemma InsertSorts<T(!new)>(s: seq<T>, x: T, i: nat, key: T -> string)
    requires SortedBy(s, key) && i <= |s|
    requires forall k :: i <= k < |s| ==> Less(key(x), key(s[k]))
    requires i > 0 ==> !Less(key(x), key(s[i - 1]))
    ensures var r := s[..i] + [x] + s[i..];
      SortedBy(r, key) && SameElements(r, s + [x]) && (DistinctBy(s + [x], key) ==> DistinctBy(r, key))
  {
    hide Less;
    var r := s[..i] + [x] + s[i..];
    assert forall k :: 0 <= k < i ==> r[k] == s[k];
    assert forall k :: i < k < |r| ==> r[k] == s[k - 1];
    forall k | i <= k < |s| ensures !Less(key(s[k]), key(x)) {
      LessIrreflexive(key(x), key(s[k]));
    }
    forall k | 0 <= k < i ensures !Less(key(x), key(s[k])) {
      NotLessThrough(s, k, i, x, key);
    }
    forall y ensures y in r <==> y in s + [x] {
      assert s == s[..i] + s[i..];
    }
    if DistinctBy(s + [x], key) {
      var w := s + [x];
      assert forall k :: 0 <= k < |s| ==> w[k] == s[k];
      assert forall k :: 0 <= k < |s| ==> key(s[k]) != key(w[|s|]);
    }
  }

  lemma NotLessThrough<T(!new)>(s: seq<T>, k: nat, i: nat, x: T, key: T -> string)
    requires SortedBy(s, key) && k < i <= |s| && !Less(key(x), key(s[i - 1]))
    ensures !Less(key(x), key(s[k]))
  {
    hide Less;
    if k < i - 1 && Less(key(x), key(s[k])) {
      LessTotal(key(s[k]), key(s[i - 1]));
      if Less(key(s[k]), key(s[i - 1])) {
        LessTransitive(key(x), key(s[k]), key(s[i - 1]));
      }
    }
  }

  method SortBy<T(!new)>(s: seq<T>, key: T -> string) returns (r: seq<T>)
    ensures SortedBy(r, key) && SameElements(r, s)
    ensures DistinctBy(s, key) ==> StrictBy(r, key)
  {
    hide Less;
    r := [];
    var i := 0;
    while i < |s|
      invariant 0 <= i <= |s|
      invariant SortedBy(r, key) && SameElements(r, s[..i])
      invariant DistinctBy(s, key) ==> DistinctBy(r, key)
    {
      ghost var was := r;
      if DistinctBy(s, key) {
        DistinctAppend(s, r, i, key);
      }
      r := Insert(r, s[i], key);
      assert s[..i + 1] == s[..i] + [s[i]];
      assert SameElements(r, s[..i + 1]);
      i := i + 1;
    }
    assert s[..i] == s;
    if DistinctBy(s, key) {
      SortedDistinct(r, key);
    }
  }

  lemma DistinctAppend<T(!new)>(s: seq<T>, r: seq<T>, i: nat, key: T -> string)
    requires DistinctBy(s, key) && i < |s| && DistinctBy(r, key) && SameElements(r, s[..i])
    ensures DistinctBy(r + [s[i]], key)
  {
    forall k | 0 <= k < |r| ensures key(r[k]) != key(s[i]) {
      assert r[k] in s[..i];
      var j :| 0 <= j < i && s[..i][j] == r[k];
      assert s[j] == r[k];
    }
  }

  lemma SortedDistinct<T(!new)>(r: seq<T>, key: T -> string)
    requires SortedBy(r, key) && DistinctBy(r, key)
    ensures StrictBy(r, key)
  {
    hide Less;
    forall i, j | 0 <= i < j < |r| ensures Less(key(r[i]), key(r[j])) {
      LessTotal(key(r[i]), key(r[j]));
    }
  }

  // ---- sets of strings ----

  ghost predicate Sorted(r: seq<string>) {
    forall i, j :: 0 <= i < j < |r| ==> Less(r[i], r[j])
  }

  /** The keys of a map or set, in order. */
  method SortKeys(s: set<string>) returns (r: seq<string>)
    ensures Sorted(r)
    ensures forall x :: x in r <==> x in s
  {
    hide Less;
    var names: seq<string> := [];
    var rest := s;
    while rest != {}
      invariant rest <= s
      invariant forall x :: x in names <==> x in s && x !in rest
      invariant forall i, j :: 0 <= i < j < |names| ==> names[i] != names[j]
      decreases |rest|
    {
      var x :| x in rest;
      names := names + [x];
      rest := rest - {x};
    }
    r := SortBy(names, (x: string) => x);
  }
}
