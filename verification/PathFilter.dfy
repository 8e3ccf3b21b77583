/** Path permissions: the mask a rule set gives a path, the filter compiled from
    it, and the pruning test that decides whether a directory is entered. */
module PathFilter {
  import opened Prefix

  /** One bit position of a permission mask. */
  datatype Bit = Bit(position: nat)

  /** A permission mask, as the set of its bits. */
  type Mask = set<Bit>

  /** Read, write, lock and admin. */
  const ALL: Mask := {Bit(0), Bit(1), Bit(2), Bit(16)}

  predicate Has(mask: Mask, permission: Mask) {
    permission <= mask
  }

  ghost predicate SingleBit(p: Mask) {
    exists b :: p == {b}
  }

  datatype Rule = Rule(prefix: string, permission: Mask)

  datatype PermissionSet = PermissionSet(orgOwner: bool, rules: seq<Rule>, defaults: seq<Rule>)

  /** What a walk carries: nothing is allowed, everything is, or one set decides. */
  datatype Filter = DenyAll | AllowAll | Compiled(permissions: PermissionSet, permission: Mask)

  // ---- bits ----

  lemma OrHas(a: Mask, b: Mask, p: Mask)
    requires SingleBit(p)
    ensures Has(a + b, p) <==> Has(a, p) || Has(b, p)
  {
  }

  lemma ZeroHasNot(p: Mask)
    requires SingleBit(p)
    ensures !Has({}, p)
  {
    var b :| p == {b};
    assert b in p;
  }

  /** A mask of two bits or more is the union of two masks that each lack a bit. */
  lemma SplitMask(p: Mask) returns (a: Mask, b: Mask)
    requires p != {} && !SingleBit(p)
    ensures a + b == p && !Has(a, p) && !Has(b, p)
  {
    var x :| x in p;
    a, b := {x}, p - {x};
    assert x in p && x !in b;
    assert p != {x};
  }

  // ---- the effective mask ----

  predicate Covering(r: Rule, path: string) {
    PrefixCovers(r.prefix, path)
  }

  /** The union of the rules that cover the path. */
  function RuleMask(rules: seq<Rule>, path: string): Mask {
    if rules == [] then {}
    else
      var init := rules[..|rules| - 1];
      var last := rules[|rules| - 1];
      if Covering(last, path) then RuleMask(init, path) + last.permission else RuleMask(init, path)
  }

  /** Position k holds the first of the longest prefixes that cover the path. */
  ghost predicate Deepest(defaults: seq<Rule>, path: string, k: int) {
    && 0 <= k < |defaults| && Covering(defaults[k], path)
    && (forall i :: 0 <= i < |defaults| && Covering(defaults[i], path) ==> |defaults[i].prefix| <= |defaults[k].prefix|)
    && (forall i :: 0 <= i < k && Covering(defaults[i], path) ==> |defaults[i].prefix| < |defaults[k].prefix|)
  }

  ghost predicate NoneCovers(defaults: seq<Rule>, path: string) {
    forall i :: 0 <= i < |defaults| ==> !Covering(defaults[i], path)
  }

  /** m is the mask the set gives the path. */
  ghost predicate IsEffective(s: PermissionSet, path: string, m: Mask) {
    if s.orgOwner then m == ALL
    else
      || (NoneCovers(s.defaults, path) && m == RuleMask(s.rules, path))
      || (exists k :: Deepest(s.defaults, path, k) && m == RuleMask(s.rules, path) + s.defaults[k].permission)
  }

  method UnionOfRules(rules: seq<Rule>, path: string) returns (mask: Mask)
    ensures mask == RuleMask(rules, path)
  {
    hide Covering;
    mask := {};
    var i := 0;
    while i < |rules|
      invariant 0 <= i <= |rules| && mask == RuleMask(rules[..i], path)
    {
      assert rules[..i + 1][..i] == rules[..i];
      if Covering(rules[i], path) {
        mask := mask + rules[i].permission;
      }
      i := i + 1;
    }
    assert rules[..i] == rules;
  }

  method DeepestDefault(defaults: seq<Rule>, path: string) returns (deepest: int)
    ensures deepest == -1 ==> NoneCovers(defaults, path)
    ensures deepest != -1 ==> Deepest(defaults, path, deepest)
  {
    hide Covering;
    deepest := -1;
    var i := 0;
    while i < |defaults|
      invariant 0 <= i <= |defaults|
      invariant deepest == -1 ==> forall j :: 0 <= j < i ==> !Covering(defaults[j], path)
      invariant deepest != -1 ==> 0 <= deepest < i && Covering(defaults[deepest], path)
      invariant deepest != -1 ==> forall j :: 0 <= j < i && Covering(defaults[j], path) ==>
        |defaults[j].prefix| <= |defaults[deepest].prefix|
      invariant deepest != -1 ==> forall j :: 0 <= j < deepest && Covering(defaults[j], path) ==>
        |defaults[j].prefix| < |defaults[deepest].prefix|
    {
      if Covering(defaults[i], path) {
        if deepest == -1 || |defaults[i].prefix| > |defaults[deepest].prefix| {
          deepest := i;
        }
      }
      i := i + 1;
    }
  }

  method Effective(s: PermissionSet, path: string) returns (mask: Mask)
    ensures IsEffective(s, path, mask)
  {
    hide Deepest, RuleMask, NoneCovers;
    if s.orgOwner {
      return ALL;
    }
    mask := UnionOfRules(s.rules, path);
    var deepest := DeepestDefault(s.defaults, path);
    if deepest != -1 {
      DeepestBounds(s.defaults, path, deepest);
      mask := mask + s.defaults[deepest].permission;
    }
  }

  lemma DeepestBounds(defaults: seq<Rule>, path: string, k: int)
    requires Deepest(defaults, path, k)
    ensures 0 <= k < |defaults| && Covering(defaults[k], path)
  {
  }

  lemma DeepestUnique(defaults: seq<Rule>, path: string, j: int, k: int)
    requires Deepest(defaults, path, j) && Deepest(defaults, path, k)
    ensures j == k
  {
    hide Covering;
  }

  lemma DeepestExcludesNone(defaults: seq<Rule>, path: string, k: int)
    requires Deepest(defaults, path, k)
    ensures !NoneCovers(defaults, path)
  {
    hide Covering;
  }

  /** A path has one effective mask. */
  lemma EffectiveUnique(s: PermissionSet, path: string, m: Mask, n: Mask)
    requires IsEffective(s, path, m) && IsEffective(s, path, n)
    ensures m == n
  {
    hide Deepest, NoneCovers, RuleMask;
    if !s.orgOwner {
      forall j, k | Deepest(s.defaults, path, j) && Deepest(s.defaults, path, k) ensures j == k {
        DeepestUnique(s.defaults, path, j, k);
      }
      forall j | Deepest(s.defaults, path, j) ensures !NoneCovers(s.defaults, path) && 0 <= j < |s.defaults| {
        DeepestExcludesNone(s.defaults, path, j);
        DeepestBounds(s.defaults, path, j);
      }
    }
  }

  /** One bit of the union comes from one rule. */
  lemma {:induction false} RuleMaskBit(rules: seq<Rule>, path: string, p: Mask)
    requires SingleBit(p)
    ensures Has(RuleMask(rules, path), p) <==> exists r :: r in rules && Covering(r, path) && Has(r.permission, p)
  {
    hide Covering, Has, SingleBit;
    if rules == [] {
      ZeroHasNot(p);
    } else {
      var init := rules[..|rules| - 1];
      var last := rules[|rules| - 1];
      RuleMaskBit(init, path, p);
      OrHas(RuleMask(init, path), last.permission, p);
      assert rules == init + [last];
      assert forall r :: r in rules <==> r in init || r == last;
    }
  }

  // ---- the filter ----

  ghost predicate Allowed(f: Filter, path: string) {
    match f
    case DenyAll => false
    case AllowAll => true
    case Compiled(s, p) => exists m :: IsEffective(s, path, m) && Has(m, p)
  }

  predicate Descends(r: Rule, permission: Mask, dir: string) {
    Has(r.permission, permission) && PrefixCanDescend(r.prefix, dir)
  }

  predicate Enters(f: Filter, dir: string) {
    match f
    case DenyAll => false
    case AllowAll => true
    case Compiled(s, p) =>
      || s.orgOwner
      || (exists r :: r in s.rules && Descends(r, p, dir))
      || (exists r :: r in s.defaults && Descends(r, p, dir))
  }

  method Allow(f: Filter, path: string) returns (r: bool)
    ensures r == Allowed(f, path)
  {
    hide IsEffective, Has;
    match f {
      case DenyAll => r := false;
      case AllowAll => r := true;
      case Compiled(s, p) =>
        var m := Effective(s, path);
        forall n | IsEffective(s, path, n) ensures n == m {
          EffectiveUnique(s, path, m, n);
        }
        r := Has(m, p);
    }
  }

  method AnyDescends(rules: seq<Rule>, permission: Mask, dir: string) returns (r: bool)
    ensures r == exists x :: x in rules && Descends(x, permission, dir)
  {
    hide Descends;
    var i := 0;
    while i < |rules|
      invariant 0 <= i <= |rules| && forall j :: 0 <= j < i ==> !Descends(rules[j], permission, dir)
    {
      if Descends(rules[i], permission, dir) {
        return true;
      }
      i := i + 1;
    }
    return false;
  }

  method Enter(f: Filter, dir: string) returns (r: bool)
    ensures r == Enters(f, dir)
  {
    hide Descends;
    match f {
      case DenyAll => r := false;
      case AllowAll => r := true;
      case Compiled(s, p) =>
        if s.orgOwner {
          return true;
        }
        r := AnyDescends(s.rules, p, dir);
        if !r {
          r := AnyDescends(s.defaults, p, dir);
        }
    }
  }

  // ---- pruning ----

  /** Nothing allowed is below a directory that is not entered. */
  ghost predicate PruningSound(f: Filter) {
    forall dir, path :: Clean(dir) && Clean(path) && Inside(dir, path) && Allowed(f, path) ==> Enters(f, dir)
  }

  lemma RuleDescends(r: Rule, p: Mask, dir: string, path: string)
    requires Covering(r, path) && Has(r.permission, p) && Clean(dir) && Clean(path) && Inside(dir, path)
    ensures Descends(r, p, dir)
  {
    CoversDescends(r.prefix, dir, path);
  }

  lemma SingleBitPrunes(s: PermissionSet, p: Mask, dir: string, path: string)
    requires SingleBit(p) && Clean(dir) && Clean(path) && Inside(dir, path) && Allowed(Compiled(s, p), path)
    ensures Enters(Compiled(s, p), dir)
  {
    hide Covering, Has, SingleBit, Clean, Inside, Descends, RuleMask, NoneCovers;
    if s.orgOwner {
      return;
    }
    var m :| IsEffective(s, path, m) && Has(m, p);
    var ruled := RuleMask(s.rules, path);
    RuleMaskBit(s.rules, path, p);
    if Has(ruled, p) {
      var r :| r in s.rules && Covering(r, path) && Has(r.permission, p);
      RuleDescends(r, p, dir, path);
    } else {
      var k :| Deepest(s.defaults, path, k) && m == ruled + s.defaults[k].permission;
      OrHas(ruled, s.defaults[k].permission, p);
      RuleDescends(s.defaults[k], p, dir, path);
    }
  }

  /** A mask of no bit or of several lets a rule set allow a file below a
      directory that is not entered. */
  lemma OtherMasksLosePaths(p: Mask) returns (s: PermissionSet)
    requires !SingleBit(p)
    ensures Clean("a") && Clean("a/b") && Inside("a", "a/b")
    ensures Allowed(Compiled(s, p), "a/b") && !Enters(Compiled(s, p), "a")
  {
    hide SingleBit, RuleMask;
    assert RuleMask([], "a/b") == {} by { NoRules("a/b"); }
    if p == {} {
      s := PermissionSet(false, [], []);
      assert IsEffective(s, "a/b", {});
    } else {
      var a, b := SplitMask(p);
      s := PermissionSet(false, [Rule("", a), Rule("", b)], []);
      TwoRules(a, b, "a/b");
      assert IsEffective(s, "a/b", a + b);
    }
  }

  lemma NoRules(path: string)
    ensures RuleMask([], path) == {}
  {
  }

  lemma TwoRules(a: Mask, b: Mask, path: string)
    ensures RuleMask([Rule("", a), Rule("", b)], path) == a + b
  {
    var rules := [Rule("", a), Rule("", b)];
    assert rules[..1] == [Rule("", a)] && rules[..1][..0] == [];
    assert RuleMask(rules[..1], path) == {} + a;
  }

  /** Pruning is sound for every rule set exactly when one permission bit is asked for. */
  lemma PruningSoundIffSingleBit(p: Mask)
    ensures (forall s :: PruningSound(Compiled(s, p))) <==> SingleBit(p)
  {
    hide SingleBit, Allowed, Enters, Clean, Inside;
    if SingleBit(p) {
      forall s, dir, path | Clean(dir) && Clean(path) && Inside(dir, path) && Allowed(Compiled(s, p), path)
        ensures Enters(Compiled(s, p), dir)
      {
        SingleBitPrunes(s, p, dir, path);
      }
    } else {
      var s := OtherMasksLosePaths(p);
      assert !PruningSound(Compiled(s, p));
    }
  }

  /** The filters that walks use: no rules to consult, or one permission bit. */
  ghost predicate Sound(f: Filter) {
    f.Compiled? ==> SingleBit(f.permission)
  }

  lemma AllowedEnters(f: Filter, dir: string, path: string)
    requires Sound(f) && Clean(dir) && Clean(path) && Inside(dir, path) && Allowed(f, path)
    ensures Enters(f, dir)
  {
    if f.Compiled? {
      SingleBitPrunes(f.permissions, f.permission, dir, path);
    }
  }
}
