/** Content-defined chunking: a bounded buffer is refilled from a reader and cut
    where a rolling fingerprint of its bytes hits a mask. */
module Chunker {

  type Byte = b: int | 0 <= b < 256

  type Bytes = seq<Byte>

  // ---- configuration ----

  type Int64 = x: int | -0x8000_0000_0000_0000 <= x < 0x8000_0000_0000_0000

  datatype Config = Config(min: Int64, avg: Int64, max: Int64)

  const DEFAULT := Config(0x4000, 0x1_0000, 0x4_0000)

  const WORD: nat := 0x1_0000_0000_0000_0000

  /** A 64-bit signed result. */
  function Signed(x: int): Int64 {
    var r := x % WORD;
    if r < WORD / 2 then r else r - WORD
  }

  function Quarter(x: int): (q: int)
    ensures if x >= 0 then 0 <= q <= x else x <= q <= 0
  {
    if x >= 0 then x / 4 else -((-x) / 4)
  }

  predicate PowerOfTwo(n: int) {
    n == 1 || (n > 1 && n % 2 == 0 && PowerOfTwo(n / 2))
  }

  datatype Checked = Usable(config: Config) | Unusable

  /** Sizes that can be chunked with. */
  predicate Good(c: Config) {
    16 <= c.min < c.avg < c.max && PowerOfTwo(c.avg)
  }

  /** The default for a missing average, a quarter and four times the average for
      a missing bound. */
  function Completed(c: Config): Config {
    var a := if c.avg == 0 then DEFAULT else c;
    var b := if a.min == 0 then a.(min := Quarter(a.avg)) else a;
    if b.max == 0 then b.(max := Signed(b.avg * 4)) else b
  }

  /** Sizes that are given stay as they are; without an average all are the defaults,
      and a missing bound is a quarter of the average, rounded down, or four times it. */
  lemma CompletedMeans(c: Config)
    ensures c.avg == 0 ==> Completed(c) == Config(16384, 65536, 262144)
    ensures c.avg != 0 ==> Completed(c).avg == c.avg
    ensures c.avg != 0 && c.min != 0 ==> Completed(c).min == c.min
    ensures c.avg != 0 && c.max != 0 ==> Completed(c).max == c.max
    ensures c.avg > 0 && c.min == 0 ==> 4 * Completed(c).min <= c.avg < 4 * Completed(c).min + 4
    ensures c.avg > 0 && c.max == 0 && 4 * c.avg < WORD / 2 ==> Completed(c).max == 4 * c.avg
  {
  }

  method Sanitized(c: Config) returns (r: Checked)
    ensures r == if Good(Completed(c)) then Usable(Completed(c)) else Unusable
  {
    hide PowerOfTwo, Signed;
    var s := c;
    if s.avg == 0 {
      s := DEFAULT;
    }
    if s.min == 0 {
      s := s.(min := Quarter(s.avg));
    }
    if s.max == 0 {
      s := s.(max := Signed(s.avg * 4));
    }
    if s.min <= 0 || s.avg <= 0 || s.max <= 0 {
      return Unusable;
    }
    if s.min >= s.avg || s.avg >= s.max {
      return Unusable;
    }
    if !PowerOfTwo(s.avg) {
      return Unusable;
    }
    if s.min < 16 {
      return Unusable;
    }
    r := Usable(s);
  }

  // ---- where to cut ----

  /** One 64-bit word per byte value. */
  type Gear = g: seq<nat> | |g| == 256 witness seq(256, _ => 0)

  function Roll(gear: Gear, fp: nat, b: Byte): nat {
    (fp * 2 + gear[b]) % WORD
  }

  /** The fingerprint after these bytes. */
  function Fingerprint(gear: Gear, s: Bytes): nat {
    if s == [] then 0 else Roll(gear, Fingerprint(gear, s[..|s| - 1]), s[|s| - 1])
  }

  /** Masking with avg - 1, or with avg / 2 - 1, leaves zero; avg is a power of two. */
  predicate Hits(cfg: Config, fp: nat, strict: bool)
    requires Good(cfg)
  {
    if strict then fp % cfg.avg == 0 else fp % (cfg.avg / 2) == 0
  }

  /** A chunk may end after the first k bytes. */
  predicate Boundary(gear: Gear, cfg: Config, w: Bytes, k: nat)
    requires Good(cfg) && k <= |w|
  {
    Hits(cfg, Fingerprint(gear, w[..k]), k <= cfg.avg)
  }

  function Limit(cfg: Config, w: Bytes): (n: nat)
    requires Good(cfg)
    ensures n <= |w|
  {
    if cfg.max > |w| then |w| else cfg.max
  }

  /** The first chunk ends after c bytes: all of it when short, otherwise at the
      first boundary past the minimum, at the latest at the maximum. */
  ghost predicate IsCut(gear: Gear, cfg: Config, w: Bytes, c: nat)
    requires Good(cfg)
  {
    if |w| <= cfg.min then c == |w|
    else
      && cfg.min < c <= Limit(cfg, w)
      && (forall k :: cfg.min < k < c ==> !Boundary(gear, cfg, w, k))
      && (c < Limit(cfg, w) ==> Boundary(gear, cfg, w, c))
  }

  lemma CutUnique(gear: Gear, cfg: Config, w: Bytes, c: nat, e: nat)
    requires Good(cfg) && IsCut(gear, cfg, w, c) && IsCut(gear, cfg, w, e)
    ensures c == e
  {
    hide Boundary, PowerOfTwo;
  }

  /** The search from position k on. */
  function CutFrom(gear: Gear, cfg: Config, w: Bytes, k: nat): (c: nat)
    requires Good(cfg) && |w| > cfg.min && cfg.min < k <= Limit(cfg, w)
    ensures k <= c <= Limit(cfg, w)
    decreases |w| - k
  {
    if k == Limit(cfg, w) || Boundary(gear, cfg, w, k) then k else CutFrom(gear, cfg, w, k + 1)
  }

  function CutOf(gear: Gear, cfg: Config, w: Bytes): (c: nat)
    requires Good(cfg)
    ensures c <= |w| && c <= cfg.max && (w != [] ==> c > 0)
  {
    if |w| <= cfg.min then |w| else CutFrom(gear, cfg, w, cfg.min + 1)
  }

  lemma {:induction false} CutFromIs(gear: Gear, cfg: Config, w: Bytes, k: nat)
    requires Good(cfg) && |w| > cfg.min && cfg.min < k <= Limit(cfg, w)
    requires forall j :: cfg.min < j < k ==> !Boundary(gear, cfg, w, j)
    ensures IsCut(gear, cfg, w, CutFrom(gear, cfg, w, k))
    decreases |w| - k
  {
    hide Boundary, PowerOfTwo;
    if k != Limit(cfg, w) && !Boundary(gear, cfg, w, k) {
      CutFromIs(gear, cfg, w, k + 1);
    }
  }

  lemma CutOfIs(gear: Gear, cfg: Config, w: Bytes)
    requires Good(cfg)
    ensures IsCut(gear, cfg, w, CutOf(gear, cfg, w))
  {
    hide Boundary, PowerOfTwo;
    if |w| > cfg.min {
      CutFromIs(gear, cfg, w, cfg.min + 1);
    }
  }

  lemma FingerprintStep(gear: Gear, w: Bytes, i: nat)
    requires i < |w|
    ensures Fingerprint(gear, w[..i + 1]) == Roll(gear, Fingerprint(gear, w[..i]), w[i])
  {
    assert w[..i + 1][..i] == w[..i];
  }

  /** The cut over the buffer's bytes: two loops with two masks after a first run
      that only rolls. */
  method Cut(gear: Gear, cfg: Config, a: array<Byte>, n: nat) returns (c: nat)
    requires Good(cfg) && n <= a.Length
    ensures c == CutOf(gear, cfg, a[..n])
  {
    hide Fingerprint, Roll, PowerOfTwo, CutOf;
    ghost var w := a[..n];
    CutOfIs(gear, cfg, w);
    if n <= cfg.min {
      CutUnique(gear, cfg, w, n, CutOf(gear, cfg, w));
      return n;
    }
    var avg := if cfg.avg > n then n else cfg.avg;
    var hard := if cfg.max > n then n else cfg.max;
    var fp := 0;
    FingerprintNone(gear, w);
    var i := 0;
    while i < cfg.min
      invariant 0 <= i <= cfg.min && fp == Fingerprint(gear, w[..i])
    {
      FingerprintStep(gear, w, i);
      fp := Roll(gear, fp, a[i]);
      i := i + 1;
    }
    while i < avg
      invariant cfg.min <= i <= avg && fp == Fingerprint(gear, w[..i])
      invariant forall k :: cfg.min < k <= i ==> !Boundary(gear, cfg, w, k)
    {
      FingerprintStep(gear, w, i);
      fp := Roll(gear, fp, a[i]);
      if Hits(cfg, fp, true) {
        assert Boundary(gear, cfg, w, i + 1);
        CutUnique(gear, cfg, w, i + 1, CutOf(gear, cfg, w));
        return i + 1;
      }
      i := i + 1;
    }
    while i < hard
      invariant avg <= i <= hard && fp == Fingerprint(gear, w[..i])
      invariant forall k :: cfg.min < k <= i ==> !Boundary(gear, cfg, w, k)
    {
      FingerprintStep(gear, w, i);
      fp := Roll(gear, fp, a[i]);
      if Hits(cfg, fp, false) {
        assert Boundary(gear, cfg, w, i + 1);
        CutUnique(gear, cfg, w, i + 1, CutOf(gear, cfg, w));
        return i + 1;
      }
      i := i + 1;
    }
    CutUnique(gear, cfg, w, hard, CutOf(gear, cfg, w));
    return hard;
  }

  lemma FingerprintNone(gear: Gear, w: Bytes)
    ensures Fingerprint(gear, w[..0]) == 0
  {
  }

  // ---- the chunks of an input ----

  function Window(cfg: Config, data: Bytes): Bytes
    requires Good(cfg)
  {
    data[..Limit(cfg, data)]
  }

  function FirstCut(gear: Gear, cfg: Config, data: Bytes): (c: nat)
    requires Good(cfg)
    ensures c <= |data| && c <= cfg.max && (data != [] ==> c > 0)
  {
    CutOf(gear, cfg, Window(cfg, data))
  }

  /** The chunks depend on the bytes alone. */
  function Chunks(gear: Gear, cfg: Config, data: Bytes): seq<Bytes>
    requires Good(cfg)
    decreases |data|
  {
    if data == [] then []
    else
      var c := FirstCut(gear, cfg, data);
      [data[..c]] + Chunks(gear, cfg, data[c..])
  }

  function Concat(cs: seq<Bytes>): Bytes {
    if cs == [] then [] else cs[0] + Concat(cs[1..])
  }

  /** Nothing is lost. */
  lemma {:induction false} ChunksAreLossless(gear: Gear, cfg: Config, data: Bytes)
    requires Good(cfg)
    ensures Concat(Chunks(gear, cfg, data)) == data
    decreases |data|
  {
    hide FirstCut, PowerOfTwo;
    if data != [] {
      var c := FirstCut(gear, cfg, data);
      ChunksAreLossless(gear, cfg, data[c..]);
      assert data == data[..c] + data[c..];
      var rest := Chunks(gear, cfg, data[c..]);
      assert ([data[..c]] + rest)[1..] == rest;
    }
  }

  /** A cut before the end lies past the minimum. */
  lemma FirstCutPastMin(gear: Gear, cfg: Config, data: Bytes)
    requires Good(cfg) && FirstCut(gear, cfg, data) < |data|
    ensures cfg.min < FirstCut(gear, cfg, data) <= cfg.max
  {
    hide Boundary, PowerOfTwo, CutFrom;
    CutOfIs(gear, cfg, Window(cfg, data));
  }

  /** Every chunk but the last is longer than the minimum, and none is empty or
      longer than the maximum. */
  lemma {:induction false} ChunkSizes(gear: Gear, cfg: Config, data: Bytes, i: nat)
    requires Good(cfg) && i < |Chunks(gear, cfg, data)|
    ensures 0 < |Chunks(gear, cfg, data)[i]| <= cfg.max
    ensures i + 1 < |Chunks(gear, cfg, data)| ==> cfg.min < |Chunks(gear, cfg, data)[i]|
    decreases |data|
  {
    hide FirstCut, PowerOfTwo;
    var c := FirstCut(gear, cfg, data);
    var rest := Chunks(gear, cfg, data[c..]);
    if i == 0 {
      if rest != [] {
        FirstCutPastMin(gear, cfg, data);
      }
    } else {
      ChunkSizes(gear, cfg, data[c..], i - 1);
    }
  }

  lemma SameFingerprint(gear: Gear, cfg: Config, w: Bytes, u: Bytes, k: nat)
    requires Good(cfg) && k <= |w| && w <= u
    ensures Boundary(gear, cfg, w, k) == Boundary(gear, cfg, u, k)
  {
    assert w[..k] == u[..k];
  }

  /** More bytes do not move a cut that was not at the end. */
  lemma CutStays(gear: Gear, cfg: Config, data: Bytes, more: Bytes)
    requires Good(cfg) && FirstCut(gear, cfg, data) < |data|
    ensures FirstCut(gear, cfg, data + more) == FirstCut(gear, cfg, data)
  {
    hide Boundary, PowerOfTwo, CutOf, CutFrom;
    var c := FirstCut(gear, cfg, data);
    var w, u := Window(cfg, data), Window(cfg, data + more);
    CutOfIs(gear, cfg, w);
    CutOfIs(gear, cfg, u);
    if |data| >= cfg.max {
      assert w == u;
    } else {
      assert w == data && w <= u;
      forall k | cfg.min < k <= c ensures Boundary(gear, cfg, u, k) == Boundary(gear, cfg, w, k) {
        SameFingerprint(gear, cfg, w, u, k);
      }
      assert IsCut(gear, cfg, u, c);
      CutUnique(gear, cfg, u, c, CutOf(gear, cfg, u));
    }
  }

  /** Appending to the input changes no chunk but the last. */
  lemma {:induction false} AppendKeepsChunks(gear: Gear, cfg: Config, data: Bytes, more: Bytes)
    requires Good(cfg) && data != []
    ensures var cs := Chunks(gear, cfg, data); cs != [] && cs[..|cs| - 1] <= Chunks(gear, cfg, data + more)
    decreases |data|
  {
    hide FirstCut, PowerOfTwo;
    var c := FirstCut(gear, cfg, data);
    var rest := data[c..];
    var cs := Chunks(gear, cfg, data);
    var tail := Chunks(gear, cfg, rest);
    assert cs == [data[..c]] + tail;
    if rest == [] {
      assert cs[..|cs| - 1] == [];
    } else {
      CutStays(gear, cfg, data, more);
      AppendKeepsChunks(gear, cfg, rest, more);
      assert (data + more)[..c] == data[..c] && (data + more)[c..] == rest + more;
      assert cs[..|cs| - 1] == [data[..c]] + tail[..|tail| - 1];
    }
  }

  // ---- reading ----

  datatype Ending = Eof | Failure(code: int)

  /** A source of bytes that delivers them in portions of its own choosing and
      then reports how it ended. */
  class Reader {
    var rest: Bytes
    const ending: Ending

    constructor (data: Bytes, ending: Ending)
      ensures rest == data && this.ending == ending
    {
      rest, this.ending := data, ending;
    }

    /** Any portion that fits; at least one byte while there are some. The end
        may be reported together with the last bytes, and a plain end of the
        input may also show as an empty read. */
    method Read(room: nat) returns (got: Bytes, ended: bool)
      requires room > 0
      modifies this
      ensures old(rest) == got + rest && |got| <= room
      ensures old(rest) != [] ==> got != []
      ensures ended ==> rest == []
      ensures old(rest) == [] ==> ended || ending.Eof?
    {
      if rest == [] {
        got, ended := [], true;
        if ending.Eof? {
          ended := *;
        }
        return;
      }
      var n: nat :| 0 < n <= room && n <= |rest|;
      got := rest[..n];
      rest := rest[n..];
      ended := false;
      if rest == [] {
        ended := *;
      }
    }
  }

  datatype MaybeEnding = Going | Ended(ending: Ending)

  datatype Piece = Chunk(data: Bytes) | Done(ending: Ending)

  class Splitter {
    const reader: Reader
    const gear: Gear
    const cfg: Config
    const buf: array<Byte>
    var len: nat
    var err: MaybeEnding

    ghost predicate Valid()
      reads this, buf, reader
    {
      && Good(cfg) && buf.Length == cfg.max && len <= buf.Length
      && (err.Ended? ==> reader.rest == [] && err.ending == reader.ending)
    }

    /** The bytes still to be chunked. */
    ghost function Pending(): Bytes
      reads this, buf, reader
      requires Valid()
    {
      buf[..len] + reader.rest
    }

    constructor (reader: Reader, gear: Gear, cfg: Config)
      requires Good(cfg)
      ensures Valid() && fresh(buf) && Pending() == reader.rest
      ensures this.reader == reader && this.gear == gear && this.cfg == cfg
    {
      this.reader, this.gear, this.cfg := reader, gear, cfg;
      buf := new Byte[cfg.max];
      len, err := 0, Going;
    }

    /** Appends a portion to the buffer. */
    method Append(got: Bytes)
      requires len + |got| <= buf.Length
      modifies this`len, buf
      ensures len == old(len) + |got| && buf[..len] == old(buf[..len]) + got
    {
      var i := 0;
      ghost var was := buf[..len];
      while i < |got|
        invariant 0 <= i <= |got| && len == old(len)
        invariant buf[..len + i] == was + got[..i]
      {
        buf[len + i] := got[i];
        i := i + 1;
        assert got[..i] == got[..i - 1] + [got[i - 1]];
      }
      assert got[..i] == got;
      len := len + |got|;
    }

    /** Reads until the buffer is full or the reader has ended. */
    method Fill()
      requires Valid()
      modifies this`len, this`err, buf, reader
      ensures Valid() && Pending() == old(Pending())
      ensures len == buf.Length || (reader.rest == [] && err.Ended?)
    {
      ghost var pending := Pending();
      while len < buf.Length
        invariant Valid() && Pending() == pending
        decreases |reader.rest|
      {
        ghost var before := buf[..len];
        var got, ended := reader.Read(buf.Length - len);
        assert buf[..len] == before;
        Append(got);
        assert Pending() == pending by {
          assert before + (got + reader.rest) == (before + got) + reader.rest;
        }
        if ended {
          err := Ended(reader.ending);
          return;
        }
        if |got| == 0 {
          err := Ended(Eof);
          return;
        }
      }
    }

    /** Takes the first n bytes out of the buffer. */
    method Shift(n: nat)
      requires n <= len <= buf.Length
      modifies this`len, buf
      ensures len == old(len) - n && buf[..len] == old(buf[n..len])
    {
      var m := len - n;
      ghost var was := buf[..len];
      var i := 0;
      while i < m
        invariant 0 <= i <= m && len == old(len)
        invariant forall k :: 0 <= k < i ==> buf[k] == was[n + k]
        invariant forall k :: i <= k < len ==> buf[k] == was[k]
      {
        buf[i] := buf[n + i];
        i := i + 1;
      }
      len := m;
    }

    /** The next chunk is the first chunk of what is pending, however the reader
        portions its bytes. */
    method Next() returns (p: Piece)
      requires Valid()
      modifies this`len, this`err, buf, reader
      ensures Valid()
      ensures old(Pending()) == [] ==> p == Done(reader.ending) && Pending() == []
      ensures old(Pending()) != [] ==>
        && p.Chunk? && p.data == Chunks(gear, cfg, old(Pending()))[0]
        && old(Pending()) == p.data + Pending()
        && Chunks(gear, cfg, Pending()) == Chunks(gear, cfg, old(Pending()))[1..]
    {
      hide CutOf, PowerOfTwo, Chunks, Window;
      ghost var pending := Pending();
      if len == 0 && err.Ended? {
        return Done(err.ending);
      }
      Fill();
      if len == 0 {
        return Done(err.ending);
      }
      FilledWindow(cfg, buf[..len], reader.rest);
      var n := Cut(gear, cfg, buf, len);
      var data := buf[..n];
      SplitAt(buf[..len], reader.rest, n);
      Shift(n);
      p := Chunk(data);
      FirstOfChunks(gear, cfg, pending, n);
    }
  }

  /** A full buffer, or one that holds all there is, is the window. */
  lemma FilledWindow(cfg: Config, front: Bytes, rest: Bytes)
    requires Good(cfg) && |front| <= cfg.max && (|front| == cfg.max || rest == [])
    ensures Window(cfg, front + rest) == front
  {
    hide PowerOfTwo;
  }

  lemma SplitAt(front: Bytes, rest: Bytes, n: nat)
    requires n <= |front|
    ensures front[..n] == (front + rest)[..n] && front[n..] + rest == (front + rest)[n..]
    ensures front + rest == front[..n] + (front[n..] + rest)
  {
  }

  lemma FirstOfChunks(gear: Gear, cfg: Config, data: Bytes, n: nat)
    requires Good(cfg) && data != [] && n == CutOf(gear, cfg, Window(cfg, data)) && n <= |data|
    ensures Chunks(gear, cfg, data) != [] && Chunks(gear, cfg, data)[0] == data[..n]
    ensures Chunks(gear, cfg, data)[1..] == Chunks(gear, cfg, data[n..])
  {
    hide CutOf, Good, Window;
  }

  /** All chunks of a reader, then how it ended. */
  method Scan(reader: Reader, gear: Gear, cfg: Config) returns (out: seq<Bytes>, ending: Ending)
    requires Good(cfg)
    modifies reader
    ensures out == Chunks(gear, cfg, old(reader.rest)) && ending == reader.ending
  {
    hide PowerOfTwo, FirstCut, Chunks;
    ghost var data := reader.rest;
    NoChunks(gear, cfg);
    var s := new Splitter(reader, gear, cfg);
    out := [];
    while true
      invariant s.Valid() && s.reader == reader && s.gear == gear && s.cfg == cfg && fresh(s) && fresh(s.buf)
      invariant out + Chunks(gear, cfg, s.Pending()) == Chunks(gear, cfg, data)
      decreases |s.Pending()|
    {
      ghost var pending := s.Pending();
      ghost var before := out;
      SomeChunk(gear, cfg, pending);
      var p := s.Next();
      if p.Done? {
        return out, p.ending;
      }
      out := out + [p.data];
      TakeChunk(before, p.data, Chunks(gear, cfg, pending), Chunks(gear, cfg, s.Pending()));
    }
  }

  lemma NoChunks(gear: Gear, cfg: Config)
    requires Good(cfg)
    ensures Chunks(gear, cfg, []) == []
  {
  }

  /** Pending bytes have a first chunk, and it is not empty. */
  lemma SomeChunk(gear: Gear, cfg: Config, data: Bytes)
    requires Good(cfg)
    ensures data != [] ==> Chunks(gear, cfg, data) != [] && Chunks(gear, cfg, data)[0] != []
  {
    hide PowerOfTwo, CutOf;
  }

  lemma TakeChunk(out: seq<Bytes>, chunk: Bytes, chunks: seq<Bytes>, rest: seq<Bytes>)
    requires chunks != [] && chunk == chunks[0] && rest == chunks[1..]
    ensures (out + [chunk]) + rest == out + chunks
  {
    assert chunks == [chunk] + rest;
  }
}
