/** The hashing scheme of directories, files and commits.

    A byte is modelled as a character, so byte strings are strings. The digest
    itself is a parameter: nothing is assumed about it except, where stated,
    that it does not collide on the finitely many streams at hand. */
module TreeHash {
  import Order

  type Bytes = string

  const HASH_SIZE := 32

  type Hash = h: Bytes | |h| == HASH_SIZE witness seq(32, _ => '\0')

  const ZERO: Hash := "\0\0\0\0\0\0\0\0\0\0\0\0\0\0\0\0\0\0\0\0\0\0\0\0\0\0\0\0\0\0\0\0"

  type Digest = Bytes -> Hash

  // ---- the serialised form ----

  datatype Child = Child(kind: char, name: string, hash: Hash)

  const FILE_KIND := 0 as char
  const TREE_KIND := 1 as char

  /** A length as four bytes, most significant first; longer lengths wrap. */
  function Be32(n: nat): (r: Bytes)
    ensures |r| == 4
  {
    [(n / 0x100_0000 % 256) as char, (n / 0x1_0000 % 256) as char, (n / 0x100 % 256) as char, (n % 256) as char]
  }

  lemma Be32Injective(m: nat, n: nat)
    requires m < 0x1_0000_0000 && n < 0x1_0000_0000 && Be32(m) == Be32(n)
    ensures m == n
  {
    var a, b := Be32(m), Be32(n);
    assert a[0] == b[0] && a[1] == b[1] && a[2] == b[2] && a[3] == b[3];
    Digits(m);
    Digits(n);
  }

  lemma Digits(n: nat)
    requires n < 0x1_0000_0000
    ensures n == (n / 0x100_0000 % 256) * 0x100_0000 + (n / 0x1_0000 % 256) * 0x1_0000
                 + (n / 0x100 % 256) * 0x100 + n % 256
  {
    var a, b, c := n / 0x100, n / 0x1_0000, n / 0x100_0000;
    assert n == a * 256 + n % 256;
    assert a == b * 256 + a % 256 && a / 256 == b;
    assert b == c * 256 + b % 256 && b / 256 == c;
    assert c % 256 == c;
  }

  /** The number that four bytes spell, most significant first. */
  function Spelled(r: Bytes): nat
    requires |r| == 4
  {
    ((r[0] as nat * 256 + r[1] as nat) * 256 + r[2] as nat) * 256 + r[3] as nat
  }

  lemma Be32Spells(n: nat)
    requires n < 0x1_0000_0000
    ensures Spelled(Be32(n)) == n
  {
    Digits(n);
  }

  function Serial(c: Child): Bytes {
    [c.kind] + Be32(|c.name|) + c.name + c.hash
  }

  /** A child is its kind, the length of its name, its name and its hash. */
  lemma SerialLayout(c: Child)
    requires |c.name| < 0x1_0000_0000
    ensures var s, n := Serial(c), |c.name|;
            && |s| == 1 + 4 + n + 32 && s[0] == c.kind && Spelled(s[1..5]) == n
            && s[5..5 + n] == c.name && s[5 + n..] == c.hash
    ensures FILE_KIND as int == 0 && TREE_KIND as int == 1
  {
    var s := Serial(c);
    assert s[1..5] == Be32(|c.name|);
    Be32Spells(|c.name|);
  }

  function Stream(cs: seq<Child>): Bytes {
    if cs == [] then [] else Serial(cs[0]) + Stream(cs[1..])
  }

  /** Names short enough for the four-byte length. */
  ghost predicate Fits(cs: seq<Child>) {
    forall c :: c in cs ==> |c.name| < 0x1_0000_0000
  }

  lemma SerialPrefix(c: Child, d: Child, s: Bytes, t: Bytes)
    requires |c.name| < 0x1_0000_0000 && |d.name| < 0x1_0000_0000 && Serial(c) + s == Serial(d) + t
    ensures c == d && s == t
  {
    var u, v := Serial(c) + s, Serial(d) + t;
    assert u[0] == c.kind && v[0] == d.kind;
    assert u[1..5] == Be32(|c.name|) && v[1..5] == Be32(|d.name|);
    Be32Injective(|c.name|, |d.name|);
    var n := |c.name|;
    assert u[5..5 + n] == c.name && v[5..5 + n] == d.name;
    assert u[5 + n..5 + n + 32] == c.hash && v[5 + n..5 + n + 32] == d.hash;
    assert u[5 + n + 32..] == s && v[5 + n + 32..] == t;
  }

  /** The stream determines the children: kinds, names and hashes. */
  lemma {:induction false} StreamInjective(cs: seq<Child>, ds: seq<Child>)
    requires Fits(cs) && Fits(ds) && Stream(cs) == Stream(ds)
    ensures cs == ds
  {
    hide Serial;
    if cs != [] && ds != [] {
      SerialNonempty(cs[0]);
      assert cs[0] in cs && ds[0] in ds;
      SerialPrefix(cs[0], ds[0], Stream(cs[1..]), Stream(ds[1..]));
      StreamInjective(cs[1..], ds[1..]);
      assert cs == [cs[0]] + cs[1..] && ds == [ds[0]] + ds[1..];
    } else if cs != [] {
      SerialNonempty(cs[0]);
    } else if ds != [] {
      SerialNonempty(ds[0]);
    }
  }

  lemma SerialNonempty(c: Child)
    ensures |Serial(c)| > 0
  {
  }

  // ---- sorting by name ----

  function Insert(c: Child, cs: seq<Child>): (r: seq<Child>)
    ensures forall d :: d in r <==> d == c || d in cs
  {
    if cs == [] || !Order.Less(cs[0].name, c.name) then [c] + cs else [cs[0]] + Insert(c, cs[1..])
  }

  function Sorted(cs: seq<Child>): (r: seq<Child>)
    ensures forall d :: d in r <==> d in cs
  {
    if cs == [] then [] else Insert(cs[0], Sorted(cs[1..]))
  }

  ghost predicate NameOrdered(cs: seq<Child>) {
    forall i, j :: 0 <= i < j < |cs| ==> !Order.Less(cs[j].name, cs[i].name)
  }

  ghost predicate DistinctNames(cs: seq<Child>) {
    forall i, j :: 0 <= i < j < |cs| ==> cs[i].name != cs[j].name
  }

  /** In order of names, each name once. */
  ghost predicate StrictlyOrdered(cs: seq<Child>) {
    forall i, j :: 0 <= i < j < |cs| ==> Order.Less(cs[i].name, cs[j].name)
  }

  /** No element of the list has a name below c's. */
  ghost predicate NoneBelow(c: Child, cs: seq<Child>) {
    forall d :: d in cs ==> !Order.Less(d.name, c.name)
  }

  lemma OrderedCons(c: Child, cs: seq<Child>)
    requires NameOrdered(cs) && NoneBelow(c, cs)
    ensures NameOrdered([c] + cs)
  {
    hide Order.Less;
    var r := [c] + cs;
    forall i, j | 0 <= i < j < |r| ensures !Order.Less(r[j].name, r[i].name) {
      assert r[j] == cs[j - 1] && r[j] in cs;
      if i > 0 {
        assert r[i] == cs[i - 1];
      }
    }
  }

  lemma OrderedTail(cs: seq<Child>)
    requires NameOrdered(cs) && cs != []
    ensures NameOrdered(cs[1..]) && NoneBelow(cs[0], cs[1..])
  {
    hide Order.Less;
    forall d | d in cs[1..] ensures !Order.Less(d.name, cs[0].name) {
      var i :| 0 <= i < |cs| - 1 && cs[1..][i] == d;
      var k := i + 1;
      assert cs[k] == d;
    }
  }

  /** What is not below the head of an ordered list is not below the rest either. */
  lemma NoneBelowThrough(c: Child, cs: seq<Child>)
    requires NameOrdered(cs) && cs != [] && !Order.Less(cs[0].name, c.name)
    ensures NoneBelow(c, cs)
  {
    hide Order.Less;
    forall d | d in cs ensures !Order.Less(d.name, c.name) {
      var i :| 0 <= i < |cs| && cs[i] == d;
      if i > 0 {
        Order.NotLessTransitive(c.name, cs[0].name, d.name);
      }
    }
  }

  lemma {:induction false} InsertSorts(c: Child, cs: seq<Child>)
    requires NameOrdered(cs)
    ensures NameOrdered(Insert(c, cs)) && multiset(Insert(c, cs)) == multiset(cs) + multiset{c}
  {
    hide Order.Less;
    if cs == [] {
    } else if !Order.Less(cs[0].name, c.name) {
      NoneBelowThrough(c, cs);
      OrderedCons(c, cs);
    } else {
      OrderedTail(cs);
      InsertSorts(c, cs[1..]);
      Order.LessIrreflexive(cs[0].name, c.name);
      OrderedCons(cs[0], Insert(c, cs[1..]));
      assert cs == [cs[0]] + cs[1..];
    }
  }

  /** The children are put in the order of their names, none lost, none added. */
  lemma {:induction false} SortedSorts(cs: seq<Child>)
    ensures NameOrdered(Sorted(cs)) && multiset(Sorted(cs)) == multiset(cs)
  {
    hide Order.Less, Insert;
    if cs != [] {
      SortedSorts(cs[1..]);
      InsertSorts(cs[0], Sorted(cs[1..]));
      assert cs == [cs[0]] + cs[1..];
    }
  }

  lemma TwiceInMultiset(s: seq<Child>, i: nat, j: nat)
    requires i < j < |s| && s[i] == s[j]
    ensures multiset(s)[s[i]] >= 2
  {
    assert s == s[..j] + s[j..];
    assert s[..j][i] in multiset(s[..j]) && s[j..][0] in multiset(s[j..]);
  }

  lemma {:induction false} OnceInMultiset(s: seq<Child>, c: Child)
    requires DistinctNames(s)
    ensures multiset(s)[c] <= 1
  {
    if s != [] {
      var init, last := s[..|s| - 1], s[|s| - 1];
      assert s == init + [last];
      OnceInMultiset(init, c);
      if c == last {
        assert forall i :: 0 <= i < |init| ==> init[i] == s[i] && init[i] != last;
        assert last !in init;
      }
    }
  }

  /** Sorted children of distinct names are in strict order. */
  lemma SortedStrict(cs: seq<Child>)
    requires DistinctNames(cs)
    ensures StrictlyOrdered(Sorted(cs))
  {
    hide Order.Less, Sorted;
    SortedSorts(cs);
    var r := Sorted(cs);
    forall i, j | 0 <= i < j < |r| ensures Order.Less(r[i].name, r[j].name) {
      assert r[i] in cs && r[j] in cs;
      if r[i] == r[j] {
        TwiceInMultiset(r, i, j);
        OnceInMultiset(cs, r[i]);
      }
      SameNameSame(cs, r[i], r[j]);
      Order.LessTotal(r[i].name, r[j].name);
    }
  }

  lemma SameNameSame(cs: seq<Child>, c: Child, d: Child)
    requires DistinctNames(cs) && c in cs && d in cs
    ensures c.name == d.name ==> c == d
  {
  }

  lemma StrictTail(cs: seq<Child>)
    requires StrictlyOrdered(cs) && cs != []
    ensures StrictlyOrdered(cs[1..])
    ensures forall d :: d in cs[1..] ==> Order.Less(cs[0].name, d.name)
    ensures forall d :: d in cs[1..] <==> d in cs && d != cs[0]
  {
    hide Order.Less;
    forall d | d in cs[1..] ensures Order.Less(cs[0].name, d.name) && d in cs && d != cs[0] {
      var i :| 0 <= i < |cs| - 1 && cs[1..][i] == d;
      var k := i + 1;
      assert cs[k] == d;
      Order.LessIrreflexive(cs[0].name, cs[k].name);
    }
    assert cs == [cs[0]] + cs[1..];
  }

  /** Of two strictly ordered lists with the same elements, the first elements agree. */
  lemma SameHead(a: seq<Child>, b: seq<Child>)
    requires StrictlyOrdered(a) && StrictlyOrdered(b) && a != [] && b != []
    requires a[0] in b && b[0] in a
    ensures a[0] == b[0]
  {
    hide Order.Less;
    StrictTail(a);
    StrictTail(b);
    if a[0] != b[0] {
      Order.LessIrreflexive(a[0].name, b[0].name);
    }
  }

  lemma {:induction false} StrictUnique(a: seq<Child>, b: seq<Child>)
    requires StrictlyOrdered(a) && StrictlyOrdered(b) && forall c :: c in a <==> c in b
    ensures a == b
    decreases |a|
  {
    hide Order.Less, StrictlyOrdered;
    if a == [] {
      assert forall i :: 0 <= i < |b| ==> b[i] in b;
    } else {
      assert a[0] in b && b != [];
      assert b[0] in a;
      SameHead(a, b);
      StrictTail(a);
      StrictTail(b);
      StrictUnique(a[1..], b[1..]);
      assert a == [a[0]] + a[1..] && b == [b[0]] + b[1..];
    }
  }

  /** With distinct names the stream does not depend on how the children are listed. */
  lemma OrderIrrelevant(cs: seq<Child>, ds: seq<Child>)
    requires DistinctNames(cs) && DistinctNames(ds) && forall c :: c in cs <==> c in ds
    ensures Sorted(cs) == Sorted(ds)
  {
    hide Order.Less, Sorted, StrictlyOrdered;
    SortedStrict(cs);
    SortedStrict(ds);
    StrictUnique(Sorted(cs), Sorted(ds));
  }

  // ---- directories ----

  ghost predicate OfKind(cs: seq<Child>, kind: char) {
    forall c :: c in cs ==> c.kind == kind
  }

  function TreeStream(files: seq<Child>, trees: seq<Child>): Bytes {
    Stream(Sorted(files) + Sorted(trees))
  }

  /** The stream of a directory determines which files and which subdirectories
      it has, by name and hash. */
  lemma TreeStreamInjective(fs: seq<Child>, ts: seq<Child>, fs': seq<Child>, ts': seq<Child>)
    requires OfKind(fs, FILE_KIND) && OfKind(fs', FILE_KIND) && OfKind(ts, TREE_KIND) && OfKind(ts', TREE_KIND)
    requires Fits(fs) && Fits(fs') && Fits(ts) && Fits(ts')
    requires TreeStream(fs, ts) == TreeStream(fs', ts')
    ensures forall c :: c in fs <==> c in fs'
    ensures forall c :: c in ts <==> c in ts'
  {
    hide Stream, Sorted;
    var a, b, a', b' := Sorted(fs), Sorted(ts), Sorted(fs'), Sorted(ts');
    StreamInjective(a + b, a' + b');
    KindsSplit(a, b, a', b');
  }

  /** A directory's stream depends on its children, not on the order they come in. */
  lemma TreeStreamOrder(fs: seq<Child>, ts: seq<Child>, fs': seq<Child>, ts': seq<Child>)
    requires DistinctNames(fs) && DistinctNames(fs') && DistinctNames(ts) && DistinctNames(ts')
    requires forall c :: c in fs <==> c in fs'
    requires forall c :: c in ts <==> c in ts'
    ensures TreeStream(fs, ts) == TreeStream(fs', ts')
  {
    hide Sorted, DistinctNames;
    OrderIrrelevant(fs, fs');
    OrderIrrelevant(ts, ts');
  }

  lemma KindsSplit(a: seq<Child>, b: seq<Child>, a': seq<Child>, b': seq<Child>)
    requires OfKind(a, FILE_KIND) && OfKind(a', FILE_KIND) && OfKind(b, TREE_KIND) && OfKind(b', TREE_KIND)
    requires a + b == a' + b'
    ensures a == a' && b == b'
  {
    if |a| < |a'| {
      KindAt(a, b, |a|);
      KindAt(a', b', |a|);
    } else if |a'| < |a| {
      KindAt(a, b, |a'|);
      KindAt(a', b', |a'|);
    } else {
      assert a == (a + b)[..|a|] && b == (a + b)[|a|..];
      assert a' == (a' + b')[..|a'|] && b' == (a' + b')[|a'|..];
    }
  }

  lemma KindAt(a: seq<Child>, b: seq<Child>, i: nat)
    requires OfKind(a, FILE_KIND) && OfKind(b, TREE_KIND) && i < |a + b|
    ensures (a + b)[i].kind == if i < |a| then FILE_KIND else TREE_KIND
  {
    if i < |a| {
      assert (a + b)[i] == a[i] && a[i] in a;
    } else {
      assert (a + b)[i] == b[i - |a|] && b[i - |a|] in b;
    }
  }

  // ---- files ----

  function Concat(hs: seq<Hash>): Bytes {
    if hs == [] then [] else hs[0] + Concat(hs[1..])
  }

  /** Hashes have one width, so their concatenation determines the list. */
  lemma {:induction false} ConcatInjective(hs: seq<Hash>, gs: seq<Hash>)
    requires Concat(hs) == Concat(gs)
    ensures hs == gs
  {
    if hs != [] && gs != [] {
      assert Concat(hs)[..32] == hs[0] && Concat(gs)[..32] == gs[0];
      assert Concat(hs)[32..] == Concat(hs[1..]) && Concat(gs)[32..] == Concat(gs[1..]);
      ConcatInjective(hs[1..], gs[1..]);
      assert hs == [hs[0]] + hs[1..] && gs == [gs[0]] + gs[1..];
    }
  }

  function FileHash(d: Digest, chunks: seq<Hash>): Hash {
    d(Concat(chunks))
  }

  // ---- commits ----

  function CommitStream(tree: Hash, parents: seq<Hash>, message: string): Bytes {
    tree + Be32(|parents|) + Concat(parents) + Be32(|message|) + message
  }

  /** A commit is its tree, the number of its parents, their hashes in order, the
      length of its message and the message. */
  lemma CommitLayout(tree: Hash, parents: seq<Hash>, message: string)
    requires |parents| < 0x1_0000_0000 && |message| < 0x1_0000_0000
    ensures var s, n := CommitStream(tree, parents, message), 32 * |parents|;
            && |s| == 32 + 4 + n + 4 + |message| && s[..32] == tree && Spelled(s[32..36]) == |parents|
            && Spelled(s[36 + n..40 + n]) == |message| && s[40 + n..] == message
            && forall i :: 0 <= i < |parents| ==> s[36 + 32 * i..36 + 32 * i + 32] == parents[i]
  {
    hide Be32, Concat;
    var s, n := CommitStream(tree, parents, message), 32 * |parents|;
    ConcatSize(parents);
    Be32Spells(|parents|);
    Be32Spells(|message|);
    assert s[32..36] == Be32(|parents|) && s[36 + n..40 + n] == Be32(|message|);
    assert s[36..36 + n] == Concat(parents);
    forall i | 0 <= i < |parents| ensures s[36 + 32 * i..36 + 32 * i + 32] == parents[i] {
      ConcatAt(parents, i);
      assert s[36 + 32 * i..36 + 32 * i + 32] == s[36..36 + n][32 * i..32 * i + 32];
    }
  }

  lemma {:induction false} ConcatAt(hs: seq<Hash>, i: nat)
    requires i < |hs|
    ensures |Concat(hs)| == 32 * |hs| && Concat(hs)[32 * i..32 * i + 32] == hs[i]
  {
    ConcatSize(hs);
    if i > 0 {
      ConcatAt(hs[1..], i - 1);
      ConcatSize(hs[1..]);
      assert Concat(hs)[32 * i..32 * i + 32] == Concat(hs[1..])[32 * (i - 1)..32 * (i - 1) + 32];
    }
  }

  lemma {:induction false} ConcatSize(hs: seq<Hash>)
    ensures |Concat(hs)| == 32 * |hs|
  {
    if hs != [] {
      ConcatSize(hs[1..]);
    }
  }

  /** The stream of a commit determines its tree, its parents in order and its
      message. */
  lemma CommitStreamInjective(t: Hash, ps: seq<Hash>, m: string, t': Hash, ps': seq<Hash>, m': string)
    requires |ps| < 0x1_0000_0000 && |ps'| < 0x1_0000_0000
    requires CommitStream(t, ps, m) == CommitStream(t', ps', m')
    ensures t == t' && ps == ps' && m == m'
  {
    hide Be32, Concat;
    var u, v := CommitStream(t, ps, m), CommitStream(t', ps', m');
    assert u[..32] == t && v[..32] == t';
    assert u[32..36] == Be32(|ps|) && v[32..36] == Be32(|ps'|);
    Be32Injective(|ps|, |ps'|);
    ConcatSize(ps);
    ConcatSize(ps');
    var n := 36 + 32 * |ps|;
    assert u[36..n] == Concat(ps) && v[36..n] == Concat(ps');
    ConcatInjective(ps, ps');
    assert u[n + 4..] == m && v[n + 4..] == m';
  }

  // ---- the limit of the four-byte length ----

  /** A name of 2^32 bytes is written with length zero, so it can imitate two
      shorter children: the bound on name lengths is needed. */
  lemma LongNamesCollide(h: Hash, g: Hash)
    ensures exists long: string, short: string ::
      Stream([Child(FILE_KIND, long, g)]) == Stream([Child(FILE_KIND, "", h), Child(FILE_KIND, short, g)])
  {
    var short := seq(0x1_0000_0000 - 37, _ => 'x');
    var long := h + [FILE_KIND] + Be32(|short|) + short;
    assert Be32(|long|) == Be32(0);
    var c, d, e := Child(FILE_KIND, long, g), Child(FILE_KIND, "", h), Child(FILE_KIND, short, g);
    assert [c][1..] == [] && [d, e][1..] == [e] && [e][1..] == [];
    assert Serial(c) == Serial(d) + Serial(e);
  }

  // ---- the algorithm ----

  lemma StreamNext(start: Bytes, cs: seq<Child>, i: nat)
    requires i < |cs|
    ensures start + Stream(cs[i..]) == (start + Serial(cs[i])) + Stream(cs[i + 1..])
  {
    hide Serial;
    assert cs[i..][0] == cs[i] && cs[i..][1..] == cs[i + 1..];
    assert start + (Serial(cs[i]) + Stream(cs[i + 1..])) == (start + Serial(cs[i])) + Stream(cs[i + 1..]);
  }

  lemma StreamNone(cs: seq<Child>)
    ensures Stream(cs[|cs|..]) == []
  {
  }

  class Hasher {
    var bytes: Bytes

    constructor ()
      ensures bytes == []
    {
      bytes := [];
    }

    method Write(b: Bytes)
      modifies this
      ensures bytes == old(bytes) + b
    {
      bytes := bytes + b;
    }

    method WriteHashes(hs: seq<Hash>)
      modifies this
      ensures bytes == old(bytes) + Concat(hs)
    {
      ghost var before := bytes;
      var i := 0;
      assert hs[0..] == hs;
      while i < |hs|
        invariant 0 <= i <= |hs| && bytes + Concat(hs[i..]) == before + Concat(hs)
      {
        ghost var start := bytes;
        Write(hs[i]);
        assert hs[i..][0] == hs[i] && hs[i..][1..] == hs[i + 1..];
        assert start + (hs[i] + Concat(hs[i + 1..])) == bytes + Concat(hs[i + 1..]);
        i := i + 1;
      }
      assert hs[i..] == [];
    }

    /** Appends kind, length, name and hash of one child. */
    method WriteChild(c: Child)
      modifies this
      ensures bytes == old(bytes) + Serial(c)
    {
      hide Be32;
      Write([c.kind]);
      Write(Be32(|c.name|));
      Write(c.name);
      Write(c.hash);
    }

    /** Appends the children in name order. */
    method WriteChildren(children: seq<Child>)
      modifies this
      ensures bytes == old(bytes) + Stream(Sorted(children))
      ensures NameOrdered(Sorted(children)) && multiset(Sorted(children)) == multiset(children)
    {
      hide Sorted, Serial, Stream, Order.Less;
      SortedSorts(children);
      var sorted := Sorted(children);
      ghost var before := bytes;
      var i := 0;
      StreamNone(sorted);
      assert sorted[0..] == sorted;
      while i < |sorted|
        invariant 0 <= i <= |sorted| && bytes + Stream(sorted[i..]) == before + Stream(sorted)
      {
        ghost var start := bytes;
        WriteChild(sorted[i]);
        StreamNext(start, sorted, i);
        i := i + 1;
      }
    }
  }

  /** The hash of a commit: tree, parents in order, message. */
  method HashCommit(d: Digest, tree: Hash, parents: seq<Hash>, message: string) returns (h: Hash)
    ensures h == d(CommitStream(tree, parents, message))
  {
    hide Be32, Concat;
    var hasher := new Hasher();
    hasher.Write(tree);
    hasher.Write(Be32(|parents|));
    hasher.WriteHashes(parents);
    hasher.Write(Be32(|message|));
    hasher.Write(message);
    assert [] + tree == tree;
    assert hasher.bytes == CommitStream(tree, parents, message);
    h := d(hasher.bytes);
  }

  /** The stream of children listed in the order of their names. */
  ghost predicate ListedInOrder(cs: seq<Child>, listed: seq<Child>) {
    NameOrdered(listed) && multiset(listed) == multiset(cs)
  }

  method HashTree(d: Digest, files: seq<Child>, trees: seq<Child>) returns (h: Hash)
    ensures h == d(TreeStream(files, trees))
    ensures exists fs, ts :: ListedInOrder(files, fs) && ListedInOrder(trees, ts) && h == d(Stream(fs) + Stream(ts))
  {
    hide Stream, Sorted, Order.Less;
    var hasher := new Hasher();
    hasher.WriteChildren(files);
    hasher.WriteChildren(trees);
    StreamConcat(Sorted(files), Sorted(trees));
    assert hasher.bytes == TreeStream(files, trees);
    assert ListedInOrder(files, Sorted(files)) && ListedInOrder(trees, Sorted(trees));
    h := d(hasher.bytes);
  }

  lemma {:induction false} StreamConcat(cs: seq<Child>, ds: seq<Child>)
    ensures Stream(cs + ds) == Stream(cs) + Stream(ds)
  {
    hide Serial;
    if cs == [] {
      assert cs + ds == ds;
    } else {
      assert (cs + ds)[1..] == cs[1..] + ds && (cs + ds)[0] == cs[0];
      StreamConcat(cs[1..], ds);
    }
  }
}
