/** Paths of a push: where a path is filed, and which directories it touches. */
module PushPaths {
  import opened Prefix
  import opened Trees
  import Order

  /** The position of the last slash, or -1. */
  function LastSlash(s: string): (i: int)
    ensures -1 <= i < |s|
    ensures i >= 0 ==> s[i] == '/'
    ensures forall k :: i < k < |s| ==> s[k] != '/'
  {
    if s == "" then -1
    else if s[|s| - 1] == '/' then |s| - 1
    else LastSlash(s[..|s| - 1])
  }

  function DirOf(p: string): string {
    var i := LastSlash(p);
    if i < 0 then "" else p[..i]
  }

  function BaseOf(p: string): string {
    var i := LastSlash(p);
    if i < 0 then p else p[i + 1..]
  }

  function NodeName(dir: string): string {
    if dir == "" then "root" else BaseOf(dir)
  }

  /** Two paths are filed in the same place. */
  predicate SamePlace(p: string, r: string) {
    DirOf(p) == DirOf(r) && BaseOf(p) == BaseOf(r)
  }

  lemma NoSlash(s: string)
    ensures LastSlash(s) == -1 <==> '/' !in s
  {
    if LastSlash(s) == -1 {
      forall k | 0 <= k < |s| ensures s[k] != '/' {}
    }
  }

  lemma LastSlashAt(s: string, i: nat)
    requires i < |s| && s[i] == '/' && forall k :: i < k < |s| ==> s[k] != '/'
    ensures LastSlash(s) == i
  {
  }

  lemma Splits(p: string)
    ensures '/' !in BaseOf(p)
    ensures '/' in p ==> p == DirOf(p) + "/" + BaseOf(p)
    ensures '/' !in p ==> DirOf(p) == "" && BaseOf(p) == p
  {
    NoSlash(p);
    var i := LastSlash(p);
    if i >= 0 {
      assert p == p[..i] + [p[i]] + p[i + 1..];
    }
  }

  /** A file of a directory is filed under that directory. */
  lemma FiledHere(dir: string, name: string)
    requires '/' !in name
    ensures DirOf(Join(dir, name)) == dir && BaseOf(Join(dir, name)) == name
  {
    var p := Join(dir, name);
    if dir == "" {
      NoSlash(p);
    } else {
      assert p == dir + "/" + name;
      forall k | |dir| < k < |p| ensures p[k] != '/' {
        assert p[k] == name[k - |dir| - 1] && p[k] in name;
      }
      LastSlashAt(p, |dir|);
      assert p[..|dir|] == dir && p[|dir| + 1..] == name;
    }
  }

  /** A path with a directory part is filed in one place alone. */
  lemma SamePlaceSamePath(p: string, r: string)
    requires SamePlace(p, r) && DirOf(p) != ""
    ensures p == r
  {
    Splits(p);
    Splits(r);
  }

  predicate Leading(p: string) {
    p != "" && p[0] == '/'
  }

  /** Without a slash in front, places are paths. */
  lemma PlaceIsPath(p: string, r: string)
    requires !Leading(p) && !Leading(r)
    ensures SamePlace(p, r) <==> p == r
  {
    hide LastSlash;
    if SamePlace(p, r) {
      if DirOf(p) != "" {
        SamePlaceSamePath(p, r);
      } else {
        RootPlace(p);
        RootPlace(r);
      }
    }
  }

  lemma RootPlace(p: string)
    requires !Leading(p) && DirOf(p) == ""
    ensures BaseOf(p) == p
  {
    Splits(p);
    if '/' in p {
      SlashFirst(p);
    }
  }

  lemma SlashFirst(p: string)
    requires '/' in p && DirOf(p) == ""
    ensures Leading(p)
  {
    Splits(p);
    assert p == "/" + BaseOf(p);
  }

  lemma GoodRelStart(q: string)
    requires GoodRel(q)
    ensures q != "" && !Leading(q)
  {
    if '/' in q {
      var n := Head(q);
      SlashAfter(n, q);
      assert q[0] == n[0] && n[0] in n;
    } else {
      assert q[0] in q;
    }
  }

  // ---- touched directories ----

  lemma InsideSlash(x: string, p: string)
    ensures Inside(x, p) <==> |x| < |p| && p[|x|] == '/' && x == p[..|x|]
  {
    if Inside(x, p) {
      SlashAfter(x, p);
    }
    if |x| < |p| && p[|x|] == '/' && x == p[..|x|] {
      assert p[..|x| + 1] == x + "/";
    }
  }

  /** What is above p: its directory and what is above that. */
  lemma AboveStep(x: string, p: string)
    ensures Inside(x, p) <==> '/' in p && (x == DirOf(p) || Inside(x, DirOf(p)))
  {
    NoSlash(p);
    InsideSlash(x, p);
    InsideSlash(x, DirOf(p));
    if Inside(x, p) {
      assert p[|x|] in p;
      assert |x| <= LastSlash(p);
      if |x| < LastSlash(p) {
        assert DirOf(p)[..|x|] == p[..|x|];
      }
    }
    if '/' in p && Inside(x, DirOf(p)) {
      assert DirOf(p)[..|x|] == p[..|x|];
    }
  }

  /** Adds a directory and everything above it. */
  method AddAncestors(dirs: set<string>, dir: string) returns (r: set<string>)
    ensures forall x :: x in r <==> x in dirs || x == dir || Inside(x, dir)
  {
    hide LastSlash, Inside;
    r := dirs;
    var d := dir;
    while true
      invariant d == dir || Inside(d, dir)
      invariant forall x :: x in r ==> x in dirs || x == dir || Inside(x, dir)
      invariant forall x :: x in dirs ==> x in r
      invariant forall x :: (x == dir || Inside(x, dir)) ==> x in r || x == d || Inside(x, d)
      decreases |d|
    {
      r := r + {d};
      var i := LastSlash(d);
      forall x ensures Inside(x, d) <==> '/' in d && (x == DirOf(d) || Inside(x, DirOf(d))) {
        AboveStep(x, d);
      }
      NoSlash(d);
      if i < 0 {
        break;
      }
      AboveAbove(DirOf(d), d, dir);
      d := d[..i];
    }
  }

  lemma AboveAbove(x: string, d: string, dir: string)
    requires Inside(x, d) && (d == dir || Inside(d, dir))
    ensures Inside(x, dir)
  {
    if d != dir {
      InsideTransitive(x, d, dir);
    }
  }

  /** The directories of one path, as the builder records them. */
  lemma DirectoriesOf(p: string, x: string)
    ensures (x == DirOf(p) || Inside(x, DirOf(p))) || x == "" <==> x == "" || Inside(x, p)
  {
    AboveStep(x, p);
    Splits(p);
    if '/' !in p {
      InsideSlash(x, DirOf(p));
    }
  }

  /** The names right below dir among the recorded directories. */
  predicate Immediate(dirs: set<string>, dir: string, n: string) {
    n != "" && '/' !in n && Join(dir, n) in dirs
  }

  method ImmediateSubdirs(dirs: set<string>, dir: string) returns (names: seq<string>)
    ensures Order.Sorted(names)
    ensures forall n :: n in names <==> Immediate(dirs, dir, n)
  {
    hide Order.Less, Join;
    var prefix := if dir != "" then dir + "/" else "";
    var found: set<string> := {};
    var rest := dirs;
    while rest != {}
      invariant rest <= dirs
      invariant forall n :: n in found ==> Immediate(dirs, dir, n)
      invariant forall n :: Immediate(dirs, dir, n) ==> n in found || Join(dir, n) in rest
      decreases |rest|
    {
      var d :| d in rest;
      rest := rest - {d};
      forall n ensures Join(dir, n) == prefix + n {
        PrefixJoins(dir, n);
      }
      if prefix <= d {
        var name := d[|prefix|..];
        assert d == prefix + name;
        if name != "" && '/' !in name {
          found := found + {name};
        }
      }
      forall n | Immediate(dirs, dir, n) && Join(dir, n) == d ensures n in found {
        assert d[|prefix|..] == n;
      }
    }
    names := Order.SortKeys(found);
  }

  lemma PrefixJoins(dir: string, n: string)
    ensures Join(dir, n) == (if dir != "" then dir + "/" else "") + n
  {
  }
}
