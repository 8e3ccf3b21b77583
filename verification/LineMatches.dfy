/** How many elements of two lists can be matched one to one with equal values:
    the size of their common multiset. */
module LineMatches {

  type Code = string

  datatype Match = Match(before: nat, after: nat)

  /** Positions of equal codes, none of them used twice. */
  ghost predicate Matching(a: seq<Code>, b: seq<Code>, ms: seq<Match>) {
    && (forall m :: m in ms ==> m.before < |a| && m.after < |b| && a[m.before] == b[m.after])
    && (forall i, j :: 0 <= i < j < |ms| ==> ms[i].before != ms[j].before && ms[i].after != ms[j].after)
  }

  /** k is the largest number of lines that can be matched. */
  ghost predicate MostMatched(a: seq<Code>, b: seq<Code>, k: nat) {
    && (exists ms :: Matching(a, b, ms) && |ms| == k)
    && (forall ms :: Matching(a, b, ms) ==> |ms| <= k)
  }

  lemma MostUnique(a: seq<Code>, b: seq<Code>, k: nat, l: nat)
    requires MostMatched(a, b, k) && MostMatched(a, b, l)
    ensures k == l
  {
    hide Matching;
    var ms :| Matching(a, b, ms) && |ms| == k;
    var ns :| Matching(a, b, ns) && |ns| == l;
  }

  // ---- no more than the common multiset ----

  ghost predicate Positions(at: seq<nat>, n: nat) {
    && (forall k :: 0 <= k < |at| ==> at[k] < n)
    && (forall i, j :: 0 <= i < j < |at| ==> at[i] != at[j])
  }

  /** The codes at distinct positions. */
  ghost predicate Picks(a: seq<Code>, at: seq<nat>, cs: seq<Code>) {
    Positions(at, |a|) && |cs| == |at| && forall k :: 0 <= k < |at| ==> cs[k] == a[at[k]]
  }

  function Without<T>(s: seq<T>, k: nat): (r: seq<T>)
    requires k < |s|
    ensures |r| == |s| - 1 && forall x :: 0 <= x < |r| ==> r[x] == s[if x < k then x else x + 1]
  {
    s[..k] + s[k + 1..]
  }

  lemma WithoutOne(cs: seq<Code>, k: nat)
    requires k < |cs|
    ensures multiset(cs) == multiset(Without(cs, k)) + multiset{cs[k]}
  {
    assert cs == cs[..k] + [cs[k]] + cs[k + 1..];
  }

  lemma PicksWithout(a: seq<Code>, at: seq<nat>, cs: seq<Code>, k: nat)
    requires Picks(a, at, cs) && k < |at| && a != [] && at[k] == |a| - 1
    ensures Picks(a[..|a| - 1], Without(at, k), Without(cs, k))
  {
  }

  lemma PicksBefore(a: seq<Code>, at: seq<nat>, cs: seq<Code>)
    requires Picks(a, at, cs) && a != [] && forall k :: 0 <= k < |at| ==> at[k] != |a| - 1
    ensures Picks(a[..|a| - 1], at, cs)
  {
  }

  /** Distinct positions pick a part of the list. */
  lemma {:induction false} PickedPart(a: seq<Code>, at: seq<nat>, cs: seq<Code>)
    requires Picks(a, at, cs)
    ensures multiset(cs) <= multiset(a)
    decreases |a|
  {
    if at != [] {
      assert at[0] < |a|;
      var init, last := a[..|a| - 1], a[|a| - 1];
      assert a == init + [last];
      if k :| 0 <= k < |at| && at[k] == |a| - 1 {
        PicksWithout(a, at, cs, k);
        PickedPart(init, Without(at, k), Without(cs, k));
        WithoutOne(cs, k);
      } else {
        PicksBefore(a, at, cs);
        PickedPart(init, at, cs);
      }
    }
  }

  function Befores(ms: seq<Match>): (at: seq<nat>)
    ensures |at| == |ms| && forall k :: 0 <= k < |ms| ==> at[k] == ms[k].before
  {
    seq(|ms|, k requires 0 <= k < |ms| => ms[k].before)
  }

  function Afters(ms: seq<Match>): (at: seq<nat>)
    ensures |at| == |ms| && forall k :: 0 <= k < |ms| ==> at[k] == ms[k].after
  {
    seq(|ms|, k requires 0 <= k < |ms| => ms[k].after)
  }

  /** The codes of the matched lines. */
  function MatchedCodes(a: seq<Code>, ms: seq<Match>): (cs: seq<Code>)
    requires forall k :: 0 <= k < |ms| ==> ms[k].before < |a|
    ensures |cs| == |ms| && forall k :: 0 <= k < |ms| ==> cs[k] == a[ms[k].before]
  {
    seq(|ms|, k requires 0 <= k < |ms| => a[ms[k].before])
  }

  lemma AtMostCommon(a: seq<Code>, b: seq<Code>, ms: seq<Match>)
    requires Matching(a, b, ms)
    ensures |ms| <= |multiset(a) * multiset(b)|
  {
    forall k | 0 <= k < |ms| ensures ms[k].before < |a| && ms[k].after < |b| && a[ms[k].before] == b[ms[k].after] {
      assert ms[k] in ms;
    }
    var cs := MatchedCodes(a, ms);
    PickedPart(a, Befores(ms), cs);
    PickedPart(b, Afters(ms), cs);
    PartSize(multiset(cs), multiset(a) * multiset(b));
  }

  lemma PartSize(m: multiset<Code>, n: multiset<Code>)
    requires m <= n
    ensures |m| <= |n|
  {
    assert n == m + (n - m);
  }

  // ---- and as many as that ----

  lemma CommonMore(a: multiset<Code>, b: multiset<Code>, x: Code)
    ensures (a + multiset{x}) * (b + multiset{x}) == a * b + multiset{x}
  {
    forall y ensures ((a + multiset{x}) * (b + multiset{x}))[y] == (a * b + multiset{x})[y] {}
  }

  lemma CommonLess(a: multiset<Code>, b: multiset<Code>, x: Code)
    requires x !in b
    ensures (a + multiset{x}) * b == a * b
  {
    forall y ensures ((a + multiset{x}) * b)[y] == (a * b)[y] {}
  }

  /** The same matches after an element has been put in at j on the new side. */
  function Moved(ms: seq<Match>, j: nat): (ns: seq<Match>)
    ensures |ns| == |ms|
    ensures forall k :: 0 <= k < |ms| ==>
      ns[k] == Match(ms[k].before, if ms[k].after < j then ms[k].after else ms[k].after + 1)
  {
    seq(|ms|, k requires 0 <= k < |ms| =>
      Match(ms[k].before, if ms[k].after < j then ms[k].after else ms[k].after + 1))
  }

  lemma MovedIn(a: seq<Code>, b: seq<Code>, ms: seq<Match>, j: nat, k: nat)
    requires j < |b| && Matching(a, Without(b, j), ms) && k < |ms|
    ensures var m := Moved(ms, j)[k]; m.before < |a| && m.after < |b| && m.after != j && a[m.before] == b[m.after]
  {
    assert ms[k] in ms;
  }

  lemma MatchOneMore(a: seq<Code>, b: seq<Code>, ms: seq<Match>, j: nat, x: Code)
    requires j < |b| && b[j] == x && Matching(a, Without(b, j), ms)
    ensures Matching(a + [x], b, Moved(ms, j) + [Match(|a|, j)])
  {
    hide Without;
    var ns := Moved(ms, j);
    var all := ns + [Match(|a|, j)];
    forall k | 0 <= k < |ms|
      ensures ns[k].before < |a| && ns[k].after < |b| && ns[k].after != j && a[ns[k].before] == b[ns[k].after]
    {
      MovedIn(a, b, ms, j, k);
    }
    forall m | m in all ensures m.before < |a + [x]| && m.after < |b| && (a + [x])[m.before] == b[m.after] {
      var k :| 0 <= k < |all| && all[k] == m;
    }
  }

  lemma MatchingGrows(a: seq<Code>, b: seq<Code>, ms: seq<Match>, x: Code)
    requires Matching(a, b, ms)
    ensures Matching(a + [x], b, ms)
  {
  }

  lemma {:induction false} MatchCommon(a: seq<Code>, b: seq<Code>) returns (ms: seq<Match>)
    ensures Matching(a, b, ms) && |ms| == |multiset(a) * multiset(b)|
    decreases |a|
  {
    if a == [] {
      ms := [];
      assert multiset(a) * multiset(b) == multiset{};
    } else {
      hide Matching;
      var init, x := a[..|a| - 1], a[|a| - 1];
      assert a == init + [x];
      if x in b {
        var j :| 0 <= j < |b| && b[j] == x;
        var rest := Without(b, j);
        WithoutOne(b, j);
        ms := MatchCommon(init, rest);
        MatchOneMore(init, b, ms, j, x);
        CommonMore(multiset(init), multiset(rest), x);
        ms := Moved(ms, j) + [Match(|init|, j)];
      } else {
        ms := MatchCommon(init, b);
        MatchingGrows(init, b, ms, x);
        CommonLess(multiset(init), multiset(b), x);
      }
    }
  }

  /** The common multiset is as large as the largest matching. */
  lemma CommonIsMost(a: seq<Code>, b: seq<Code>)
    ensures MostMatched(a, b, |multiset(a) * multiset(b)|)
  {
    hide Matching;
    var ms := MatchCommon(a, b);
    forall ns | Matching(a, b, ns) ensures |ns| <= |multiset(a) * multiset(b)| {
      AtMostCommon(a, b, ns);
    }
  }
}
