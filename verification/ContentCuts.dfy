/** What makes chunking content-defined: a boundary depends on the last few bytes
    before it, through the sum of their gear words weighted by powers of two. */
module ContentCuts {
  import opened Basics
  import opened Chunker

  // ---- powers of two ----

  function Pow2(m: nat): (p: nat)
    ensures p > 0
  {
    if m == 0 then 1 else 2 * Pow2(m - 1)
  }

  lemma {:induction false} Pow2Sum(a: nat, b: nat)
    ensures Pow2(a + b) == Pow2(a) * Pow2(b)
  {
    if a > 0 {
      Pow2Sum(a - 1, b);
      assert Pow2(a + b) == 2 * (Pow2(a - 1) * Pow2(b));
    }
  }

  /** The exponent of a power of two. */
  function Bits(n: int): (m: nat)
    requires PowerOfTwo(n)
    ensures Pow2(m) == n
  {
    if n == 1 then 0 else 1 + Bits(n / 2)
  }

  lemma {:induction false} PowersOfTwo(m: nat)
    ensures PowerOfTwo(Pow2(m))
  {
    if m > 0 {
      PowersOfTwo(m - 1);
    }
  }

  // ---- the fingerprint as a sum ----

  /** The gear words of the first n bytes, each doubled once for every byte of s
      that follows it. */
  function Terms(gear: Gear, s: Bytes, n: nat): nat
    requires n <= |s|
  {
    if n == 0 then 0 else Terms(gear, s, n - 1) + gear[s[n - 1]] * Pow2(|s| - n)
  }

  /** The sum over i of gear[s[i]] * 2^(|s| - 1 - i). */
  function WeightedSum(gear: Gear, s: Bytes): nat {
    Terms(gear, s, |s|)
  }

  lemma DoubleTerm(g: nat, p: nat)
    ensures g * (2 * p) == 2 * (g * p)
  {
  }

  lemma {:induction false} TermsDouble(gear: Gear, s: Bytes, b: Byte, n: nat)
    requires n <= |s|
    ensures Terms(gear, s + [b], n) == 2 * Terms(gear, s, n)
  {
    if n > 0 {
      TermsDouble(gear, s, b, n - 1);
      assert (s + [b])[n - 1] == s[n - 1];
      DoubleTerm(gear[s[n - 1]], Pow2(|s| - n));
    }
  }

  /** One more byte doubles what is there and adds its word. */
  lemma SumStep(gear: Gear, s: Bytes, b: Byte)
    ensures WeightedSum(gear, s + [b]) == 2 * WeightedSum(gear, s) + gear[b]
  {
    TermsDouble(gear, s, b, |s|);
    assert (s + [b])[|s|] == b;
  }

  lemma RollMod(x: nat, g: nat)
    ensures (x % WORD * 2 + g) % WORD == (2 * x + g) % WORD
  {
    var q := x / WORD;
    assert 2 * x + g == (x % WORD * 2 + g) + 2 * q * WORD;
    AddMultiple(x % WORD * 2 + g, 2 * q, WORD);
  }

  lemma {:induction false} AddMultiple(x: nat, q: nat, d: nat)
    requires d > 0
    ensures (x + q * d) % d == x % d
  {
    if q > 0 {
      AddMultiple(x, q - 1, d);
      var y := x + (q - 1) * d;
      assert x + q * d == y + d;
      OneMore(y, d);
    }
  }

  lemma OneMore(y: nat, d: nat)
    requires d > 0
    ensures (y + d) % d == y % d
  {
    var q, r := y / d, y % d;
    assert y == q * d + r;
    assert y + d == (q + 1) * d + r;
    Remainder(y + d, q + 1, r, d);
  }

  /** Quotient and remainder are determined. */
  lemma Remainder(x: nat, q: nat, r: nat, d: nat)
    requires d > 0 && x == q * d + r && r < d
    ensures x % d == r
  {
    var q', r' := x / d, x % d;
    assert x == q' * d + r';
    if q' < q {
      LessBy(q', q, d);
    } else if q < q' {
      LessBy(q, q', d);
    }
  }

  lemma LessBy(a: nat, b: nat, d: nat)
    requires a < b
    ensures a * d + d <= b * d
  {
    var k := b - a - 1;
    assert b * d == a * d + d + k * d;
  }

  /** The fingerprint is the weighted sum of the gear words, modulo 2^64. */
  lemma {:induction false} FingerprintIsSum(gear: Gear, s: Bytes)
    ensures Fingerprint(gear, s) == WeightedSum(gear, s) % WORD
  {
    if s != [] {
      var init, b := s[..|s| - 1], s[|s| - 1];
      FingerprintIsSum(gear, init);
      assert s == init + [b];
      SumStep(gear, init, b);
      RollMod(WeightedSum(gear, init), gear[b]);
    }
  }

  // ---- the last bytes decide ----

  lemma {:induction false} SumConcat(gear: Gear, s: Bytes, t: Bytes)
    ensures WeightedSum(gear, s + t) == WeightedSum(gear, s) * Pow2(|t|) + WeightedSum(gear, t)
  {
    if t == [] {
      assert s + t == s;
    } else {
      hide WeightedSum;
      var init, b := t[..|t| - 1], t[|t| - 1];
      SumConcat(gear, s, init);
      assert t == init + [b] && s + t == (s + init) + [b];
      SumStep(gear, s + init, b);
      SumStep(gear, init, b);
      DoubleTerm(WeightedSum(gear, s), Pow2(|init|));
    }
  }

  lemma ModDivisor(x: nat, k: nat, p: nat, d: nat)
    requires k > 0 && p > 0 && d == k * p && d > 0
    ensures x % d % p == x % p
  {
    var q, r := x / d, x % d;
    assert x == q * d + r;
    Regroup(q, k, p);
    AddMultiple(r, q * k, p);
  }

  /** Remainders by a power of two do not see more of a number than its last bits. */
  lemma ModMod(x: nat, m: nat, n: nat)
    requires m <= n
    ensures x % Pow2(n) % Pow2(m) == x % Pow2(m)
  {
    hide Pow2;
    Pow2Sum(n - m, m);
    ModDivisor(x, Pow2(n - m), Pow2(m), Pow2(n));
  }

  lemma Regroup(q: nat, k: nat, p: nat)
    ensures q * (k * p) == (q * k) * p
  {
  }

  lemma LowBits(gear: Gear, s: Bytes, t: Bytes, m: nat)
    requires m <= |t|
    ensures WeightedSum(gear, s + t) % Pow2(m) == WeightedSum(gear, t) % Pow2(m)
  {
    hide WeightedSum, Pow2;
    SumConcat(gear, s, t);
    var x, k := WeightedSum(gear, s), Pow2(|t| - m);
    Pow2Sum(|t| - m, m);
    Regroup(x, k, Pow2(m));
    AddMultiple(WeightedSum(gear, t), x * k, Pow2(m));
  }

  lemma WordIsPower()
    ensures Pow2(64) == WORD
  {
    hide Pow2;
    Pow2One();
    Pow2Sum(1, 1);
    Pow2Sum(2, 2);
    Pow2Sum(4, 4);
    Pow2Sum(8, 8);
    Pow2Sum(16, 16);
    Pow2Sum(32, 32);
  }

  lemma Pow2One()
    ensures Pow2(1) == 2
  {
  }

  lemma {:induction false} Pow2Rises(a: nat, b: nat)
    requires a < b
    ensures Pow2(a) < Pow2(b)
  {
    if a < b - 1 {
      Pow2Rises(a, b - 1);
    }
  }

  /** The last m bytes before position k, or all of them. */
  function Tail(w: Bytes, k: nat, m: nat): Bytes
    requires k <= |w|
  {
    w[Max(0, k - m)..k]
  }

  /** Position k ends a chunk by its content: the weighted sum of the bytes before it,
      as many as avg has bits, is divisible by avg, or by half of it past avg. */
  predicate EndsChunk(gear: Gear, cfg: Config, w: Bytes, k: nat)
    requires Good(cfg) && k <= |w|
  {
    var divisor := if k <= cfg.avg then cfg.avg else cfg.avg / 2;
    WeightedSum(gear, Tail(w, k, Bits(cfg.avg))) % divisor == 0
  }

  lemma TailDecides(gear: Gear, w: Bytes, k: nat, m: nat, n: nat)
    requires k <= |w| && n <= m <= 64
    ensures Fingerprint(gear, w[..k]) % Pow2(n) == WeightedSum(gear, Tail(w, k, m)) % Pow2(n)
  {
    hide WeightedSum, Fingerprint;
    FingerprintIsSum(gear, w[..k]);
    WordIsPower();
    ModMod(WeightedSum(gear, w[..k]), n, 64);
    if k >= m {
      assert w[..k] == w[..k - m] + Tail(w, k, m);
      LowBits(gear, w[..k - m], Tail(w, k, m), n);
    } else {
      assert w[..k] == Tail(w, k, m);
    }
  }

  /** Whether a position is a boundary depends on the last bytes before it, and on
      which side of avg it lies. */
  lemma BoundaryIsLocal(gear: Gear, cfg: Config, w: Bytes, k: nat)
    requires Good(cfg) && k <= |w|
    ensures Boundary(gear, cfg, w, k) <==> EndsChunk(gear, cfg, w, k)
  {
    hide WeightedSum, Fingerprint, Tail, PowerOfTwo;
    var m := Bits(cfg.avg);
    WordIsPower();
    if m > 64 {
      Pow2Rises(64, m);
    }
    TailDecides(gear, w, k, m, m);
    if m > 0 {
      TailDecides(gear, w, k, m, m - 1);
      assert cfg.avg / 2 == Pow2(m - 1);
    }
  }

  /** Equal bytes before two positions on the same side of avg: both end a chunk or
      neither does. */
  lemma SameTailSameCut(gear: Gear, cfg: Config, w: Bytes, k: nat, u: Bytes, l: nat)
    requires Good(cfg) && k <= |w| && l <= |u| && (k <= cfg.avg <==> l <= cfg.avg)
    requires Tail(w, k, Bits(cfg.avg)) == Tail(u, l, Bits(cfg.avg))
    ensures Boundary(gear, cfg, w, k) <==> Boundary(gear, cfg, u, l)
  {
    hide Boundary, WeightedSum, PowerOfTwo, Tail;
    BoundaryIsLocal(gear, cfg, w, k);
    BoundaryIsLocal(gear, cfg, u, l);
  }

  // ---- the chunks ----

  /** A first chunk of c bytes: everything when that is no more than the minimum,
      otherwise up to the first position past the minimum that ends a chunk by its
      content, at the latest at the maximum. */
  ghost predicate CutByContent(gear: Gear, cfg: Config, data: Bytes, c: nat)
    requires Good(cfg)
  {
    var limit := Min(|data|, cfg.max);
    if |data| <= cfg.min then c == |data|
    else
      && cfg.min < c <= limit
      && (forall k :: cfg.min < k < c ==> !EndsChunk(gear, cfg, data, k))
      && (c < limit ==> EndsChunk(gear, cfg, data, c))
  }

  lemma WindowEnds(gear: Gear, cfg: Config, data: Bytes, k: nat)
    requires Good(cfg) && k <= |Window(cfg, data)|
    ensures Boundary(gear, cfg, Window(cfg, data), k) <==> EndsChunk(gear, cfg, data, k)
  {
    hide WeightedSum, Fingerprint, PowerOfTwo;
    var w := Window(cfg, data);
    BoundaryIsLocal(gear, cfg, w, k);
    assert Tail(w, k, Bits(cfg.avg)) == Tail(data, k, Bits(cfg.avg));
  }

  lemma FirstChunk(gear: Gear, cfg: Config, data: Bytes)
    requires Good(cfg)
    ensures CutByContent(gear, cfg, data, FirstCut(gear, cfg, data))
  {
    hide Boundary, EndsChunk, PowerOfTwo, CutOf;
    var w, c := Window(cfg, data), FirstCut(gear, cfg, data);
    CutOfIs(gear, cfg, w);
    forall k | 0 <= k <= |w| ensures Boundary(gear, cfg, w, k) <==> EndsChunk(gear, cfg, data, k) {
      WindowEnds(gear, cfg, data, k);
    }
  }

  /** The pieces are cut by content, one after the other. */
  ghost predicate CutsByContent(gear: Gear, cfg: Config, data: Bytes, chunks: seq<Bytes>)
    requires Good(cfg)
    decreases |chunks|
  {
    if data == [] then chunks == []
    else
      && chunks != [] && 0 < |chunks[0]| && chunks[0] <= data
      && CutByContent(gear, cfg, data, |chunks[0]|)
      && CutsByContent(gear, cfg, data[|chunks[0]|..], chunks[1..])
  }

  /** Chunks are what the content says, and nothing else is. */
  lemma {:induction false} ChunksByContent(gear: Gear, cfg: Config, data: Bytes)
    requires Good(cfg)
    ensures CutsByContent(gear, cfg, data, Chunks(gear, cfg, data))
    decreases |data|
  {
    hide CutByContent, FirstCut, PowerOfTwo;
    if data != [] {
      var c := FirstCut(gear, cfg, data);
      FirstChunk(gear, cfg, data);
      ChunksByContent(gear, cfg, data[c..]);
      var rest := Chunks(gear, cfg, data[c..]);
      assert ([data[..c]] + rest)[1..] == rest;
    }
  }
}
