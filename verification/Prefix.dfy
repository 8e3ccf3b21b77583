/** Path prefixes: which paths a prefix covers, and which directories can lead
    to a covered path. */
module Prefix {

  function TrimLeft(s: string): (r: string)
    ensures r == "" || r[0] != '/'
    ensures |r| <= |s| && r == s[|s| - |r|..]
  {
    if s != "" && s[0] == '/' then TrimLeft(s[1..]) else s
  }

  function TrimRight(s: string): (r: string)
    ensures r == "" || r[|r| - 1] != '/'
    ensures r <= s
  {
    if s != "" && s[|s| - 1] == '/' then TrimRight(s[..|s| - 1]) else s
  }

  /** Drops the slashes at both ends. */
  function Trim(s: string): string {
    TrimRight(TrimLeft(s))
  }

  predicate PrefixCovers(prefix: string, path: string) {
    if prefix == "" then true
    else
      var p := Trim(path);
      if p == "" then false else p == prefix || prefix + "/" <= p
  }

  predicate PrefixCanDescend(prefix: string, dir: string) {
    if prefix == "" then true
    else
      var d := Trim(dir);
      if d == "" then true else PrefixCovers(prefix, d) || d + "/" <= prefix
  }

  /** A path without a slash at either end. */
  predicate Clean(p: string) {
    p != "" && p[0] != '/' && p[|p| - 1] != '/'
  }

  lemma TrimClean(p: string)
    requires p == "" || Clean(p)
    ensures Trim(p) == p
  {
  }

  /** Strictly inside the directory d. */
  predicate Inside(d: string, p: string) {
    d + "/" <= p
  }

  lemma CoversClean(prefix: string, p: string)
    requires Clean(p) && prefix != ""
    ensures PrefixCovers(prefix, p) <==> p == prefix || Inside(prefix, p)
  {
    TrimClean(p);
  }

  lemma InsideTransitive(a: string, b: string, c: string)
    requires Inside(a, b) && Inside(b, c)
    ensures Inside(a, c)
  {
    assert a + "/" <= b <= b + "/" <= c;
  }

  lemma ShorterPrefix(u: string, v: string, p: string)
    requires u <= p && v <= p && |u| <= |v|
    ensures u <= v
  {
    assert u == p[..|u|] && v == p[..|v|];
  }

  lemma AtOrInside(a: string, p: string)
    requires a == p || Inside(a, p)
    ensures a <= p
  {
    assert a <= a + "/";
  }

  /** Two places at or above the same path are at, above or below one another. */
  lemma Comparable(a: string, b: string, p: string)
    requires (a == p || Inside(a, p)) && (b == p || Inside(b, p))
    ensures a == b || Inside(a, b) || Inside(b, a)
  {
    AtOrInside(a, p);
    AtOrInside(b, p);
    if |a| < |b| {
      ShorterPrefix(a + "/", b, p);
    } else if |b| < |a| {
      ShorterPrefix(b + "/", a, p);
    } else {
      ShorterPrefix(a, b, p);
    }
  }

  /** Two prefixes that cover the same path cover one another. */
  lemma CoversComparable(a: string, b: string, path: string)
    requires Clean(a) && Clean(b) && PrefixCovers(a, path) && PrefixCovers(b, path)
    ensures PrefixCovers(a, b) || PrefixCovers(b, a)
  {
    hide Trim;
    Comparable(a, b, Trim(path));
    CoversClean(a, b);
    CoversClean(b, a);
  }

  /** A prefix that covers a path can be reached through every directory above
      that path. */
  lemma CoversDescends(prefix: string, dir: string, path: string)
    requires PrefixCovers(prefix, path) && Clean(path) && Clean(dir) && Inside(dir, path)
    ensures PrefixCanDescend(prefix, dir)
  {
    hide Trim, Clean;
    TrimClean(path);
    TrimClean(dir);
    if prefix != "" {
      Comparable(prefix, dir, path);
      CoversClean(prefix, dir);
    }
  }

  // ---- sets of prefixes ----

  type PrefixSet = seq<string>

  /** No set means no restriction. */
  predicate SetCovers(s: PrefixSet, path: string) {
    |s| == 0 || exists i :: 0 <= i < |s| && PrefixCovers(s[i], path)
  }

  predicate SetCanDescend(s: PrefixSet, dir: string) {
    |s| == 0 || exists i :: 0 <= i < |s| && PrefixCanDescend(s[i], dir)
  }

  method Covers(s: PrefixSet, path: string) returns (r: bool)
    ensures r == SetCovers(s, path)
  {
    hide PrefixCovers;
    if |s| == 0 {
      return true;
    }
    var i := 0;
    while i < |s|
      invariant 0 <= i <= |s| && forall k :: 0 <= k < i ==> !PrefixCovers(s[k], path)
    {
      if PrefixCovers(s[i], path) {
        return true;
      }
      i := i + 1;
    }
    return false;
  }

  method CanDescend(s: PrefixSet, dir: string) returns (r: bool)
    ensures r == SetCanDescend(s, dir)
  {
    hide PrefixCanDescend;
    if |s| == 0 {
      return true;
    }
    var i := 0;
    while i < |s|
      invariant 0 <= i <= |s| && forall k :: 0 <= k < i ==> !PrefixCanDescend(s[k], dir)
    {
      if PrefixCanDescend(s[i], dir) {
        return true;
      }
      i := i + 1;
    }
    return false;
  }

  lemma SetCoversDescends(s: PrefixSet, dir: string, path: string)
    requires SetCovers(s, path) && Clean(path) && Clean(dir) && Inside(dir, path)
    ensures SetCanDescend(s, dir)
  {
    if |s| != 0 {
      var i :| 0 <= i < |s| && PrefixCovers(s[i], path);
      CoversDescends(s[i], dir, path);
    }
  }
}
