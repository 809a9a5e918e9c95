/**
  Mount-relative keys. A key is a Go string; each `char` stands for one byte.
  The root of a mount is the empty key, and segments are separated by '/'.
*/
module Keys {

  // ----- byte order of strings -----

  /** Go's `<` on strings. */
  predicate Less(a: string, b: string) {
    |b| > 0 && (|a| == 0 || a[0] < b[0] || (a[0] == b[0] && Less(a[1..], b[1..])))
  }

  lemma {:induction false} LessIrreflexive(a: string)
    ensures !Less(a, a)
  {
    if a != [] { LessIrreflexive(a[1..]); }
  }

  lemma {:induction false} LessTransitive(a: string, b: string, c: string)
    requires Less(a, b) && Less(b, c)
    ensures Less(a, c)
  {
    if a != [] && a[0] == b[0] && b[0] == c[0] {
      LessTransitive(a[1..], b[1..], c[1..]);
    }
  }

  lemma {:induction false} LessTotal(a: string, b: string)
    requires a != b
    ensures Less(a, b) || Less(b, a)
  {
    if a != [] && b != [] && a[0] == b[0] {
      assert a == [a[0]] + a[1..] && b == [b[0]] + b[1..];
      LessTotal(a[1..], b[1..]);
    }
  }

  ghost predicate Sorted(keys: seq<string>) {
    forall i, j | 0 <= i < j < |keys| :: Less(keys[i], keys[j])
  }

  lemma SortedDistinct(keys: seq<string>)
    requires Sorted(keys)
    ensures forall i, j | 0 <= i < j < |keys| :: keys[i] != keys[j]
  {
    forall i, j | 0 <= i < j < |keys| ensures keys[i] != keys[j] {
      LessIrreflexive(keys[i]);
    }
  }

  lemma {:induction false} SortedUnique(a: seq<string>, b: seq<string>)
    requires Sorted(a) && Sorted(b) && forall k :: k in a <==> k in b
    ensures a == b
  {
    hide Less;
    if a + b != [] {
      var z := (a + b)[0];
      assert z in a || z in b;
      var x := a[|a| - 1];
      assert x in a;
      var y := b[|b| - 1];
      if x != y {
        var i :| 0 <= i < |b| && b[i] == x;
        assert y in b;
        var j :| 0 <= j < |a| && a[j] == y;
        LessTransitive(x, y, x);
        LessIrreflexive(x);
      }
      SortedInit(a);
      SortedInit(b);
      var p, q := a[..|a| - 1], b[..|b| - 1];
      forall k ensures k in p <==> k in q {
        assert k in a <==> k in b;
      }
      SortedUnique(p, q);
    }
  }

  lemma SortedInit(keys: seq<string>)
    requires Sorted(keys) && keys != []
    ensures Sorted(keys[..|keys| - 1])
    ensures forall k :: k in keys[..|keys| - 1] <==> k in keys && k != keys[|keys| - 1]
  {
    SortedDistinct(keys);
    var init := keys[..|keys| - 1];
    forall k | k in keys && k != keys[|keys| - 1] ensures k in init {
      var i :| 0 <= i < |keys| && keys[i] == k;
      assert init[i] == k;
    }
  }

  // ----- sums over sets of keys -----

  ghost function Sum(keys: set<string>, weight: string -> nat): nat {
    if keys == {} then 0 else
      var k :| k in keys;
      weight(k) + Sum(keys - {k}, weight)
  }

  lemma {:induction false} SumRemove(keys: set<string>, k: string, weight: string -> nat)
    requires k in keys
    ensures Sum(keys, weight) == weight(k) + Sum(keys - {k}, weight)
    decreases |keys|
  {
    var c :| c in keys && Sum(keys, weight) == weight(c) + Sum(keys - {c}, weight);
    if c != k {
      SumRemove(keys - {c}, k, weight);
      SumRemove(keys - {k}, c, weight);
      assert keys - {c} - {k} == keys - {k} - {c};
    }
  }

  lemma {:induction false} SumSubset(some: set<string>, all: set<string>, weight: string -> nat)
    requires some <= all
    ensures Sum(some, weight) <= Sum(all, weight)
    decreases |some|
  {
    if some != {} {
      var k :| k in some;
      SumRemove(some, k, weight);
      SumRemove(all, k, weight);
      SumSubset(some - {k}, all - {k}, weight);
    }
  }

  /** sort.SearchStrings: the first position whose key is not below x. */
  method SearchStrings(keys: seq<string>, x: string) returns (i: nat)
    requires Sorted(keys)
    ensures i <= |keys|
    ensures forall j | 0 <= j < i :: Less(keys[j], x)
    ensures forall j | i <= j < |keys| :: !Less(keys[j], x)
  {
    i := 0;
    var hi := |keys|;
    while i < hi
      invariant 0 <= i <= hi <= |keys|
      invariant forall j | 0 <= j < i :: Less(keys[j], x)
      invariant forall j | hi <= j < |keys| :: !Less(keys[j], x)
    {
      var mid := (i + hi) / 2;
      if Less(keys[mid], x) {
        forall j | 0 <= j < mid ensures Less(keys[j], x) {
          LessTransitive(keys[j], keys[mid], x);
        }
        i := mid + 1;
      } else {
        forall j | mid < j < |keys| ensures !Less(keys[j], x) {
          if Less(keys[j], x) { LessTransitive(keys[mid], keys[j], x); }
        }
        hi := mid;
      }
    }
  }

  lemma SearchFindsMember(keys: seq<string>, x: string, i: nat)
    requires Sorted(keys) && i <= |keys|
    requires forall j | 0 <= j < i :: Less(keys[j], x)
    requires forall j | i <= j < |keys| :: !Less(keys[j], x)
    requires x in keys
    ensures i < |keys| && keys[i] == x
  {
    var p :| 0 <= p < |keys| && keys[p] == x;
    LessIrreflexive(x);
    assert p >= i;
  }

  lemma SortedInsert(keys: seq<string>, x: string, i: nat)
    requires Sorted(keys) && i <= |keys| && x !in keys
    requires forall j | 0 <= j < i :: Less(keys[j], x)
    requires forall j | i <= j < |keys| :: !Less(keys[j], x)
    ensures Sorted(keys[..i] + [x] + keys[i..])
  {
    forall j | i <= j < |keys| ensures Less(x, keys[j]) { LessTotal(x, keys[j]); }
  }

  lemma SortedRemove(keys: seq<string>, i: nat)
    requires Sorted(keys) && i < |keys|
    ensures Sorted(keys[..i] + keys[i + 1..])
    ensures forall k :: k in keys[..i] + keys[i + 1..] <==> k in keys && k != keys[i]
  {
    SortedDistinct(keys);
    var rest := keys[..i] + keys[i + 1..];
    forall k | k in keys && k != keys[i] ensures k in rest {
      var p :| 0 <= p < |keys| && keys[p] == k;
      assert rest[if p < i then p else p - 1] == k;
    }
  }

  // ----- the path hierarchy -----

  /** a names a directory, other than the root, that a lookup of k passes through. */
  predicate Anc(a: string, k: string) {
    |a| < |k| && k[|a|] == '/' && k[..|a|] == a
  }

  predicate Within(k: string, d: string) {
    k == d || Anc(d, k)
  }

  /** k lies strictly below the directory d; every other key lies below the root. */
  predicate Under(k: string, d: string) {
    if d == "" then k != "" else Anc(d, k)
  }

  /** No segment of k is empty. */
  predicate CleanKey(k: string) {
    && (k != "" ==> k[0] != '/' && k[|k| - 1] != '/')
    && forall i | 0 < i < |k| :: k[i - 1] == '/' ==> k[i] != '/'
  }

  predicate CleanName(n: string) {
    n != "" && '/' !in n
  }

  function DirectoryPrefix(d: string): string {
    if d == "" then "" else d + "/"
  }

  function Child(d: string, n: string): string {
    DirectoryPrefix(d) + n
  }

  lemma AncTransitive(a: string, b: string, c: string)
    requires Anc(a, b) && Anc(b, c)
    ensures Anc(a, c)
  {
    assert c[..|b|][..|a|] == c[..|a|];
    assert c[|a|] == c[..|b|][|a|];
  }

  /** Two directories on the way to one key are nested in each other. */
  lemma AncComparable(a: string, b: string, k: string)
    requires Within(k, a) && Within(k, b)
    ensures a == b || Anc(a, b) || Anc(b, a)
  {
    assert k[..|a|] == a && k[..|b|] == b;
    if |a| < |b| {
      assert b[..|a|] == a && b[|a|] == k[|a|];
    } else if |b| < |a| {
      assert a[..|b|] == b && a[|b|] == k[|b|];
    }
  }

  lemma {:induction false} PrefixOrder(p: string, k: string)
    ensures (!Less(k, p + "/") && Less(k, p + "0")) <==> Anc(p, k)
  {
    if p == "" {
      assert p + "/" == "/" && p + "0" == "0";
      if k != "" { assert Less(k[1..], "/"[1..]) == false; }
    } else {
      assert (p + "/")[1..] == p[1..] + "/" && (p + "0")[1..] == p[1..] + "0";
      if k != "" && k[0] == p[0] {
        PrefixOrder(p[1..], k[1..]);
        assert Anc(p, k) <==> Anc(p[1..], k[1..]) by {
          if |p| < |k| {
            assert k[1..][..|p| - 1] == k[..|p|][1..];
            assert p == [p[0]] + p[1..] && k[..|p|] == [k[0]] + k[..|p|][1..];
          }
        }
      }
    }
  }

  /** A non-member child key splits into its directory and a slash-free name. */
  lemma ChildFacts(d: string, n: string)
    requires CleanName(n)
    ensures Under(Child(d, n), d)
    ensures forall a | Anc(a, Child(d, n)) :: a == d || Anc(a, d)
    ensures d != "" ==> forall a :: Anc(a, d) ==> Anc(a, Child(d, n))
    ensures Child(d, n)[|DirectoryPrefix(d)|..] == n
  {
    var k := Child(d, n);
    if d == "" {
      assert k == n;
    } else {
      assert k == d + "/" + n;
      assert Anc(d, k);
      forall a | Anc(a, k) ensures a == d || Anc(a, d) {
        AncComparable(a, d, k);
      }
      forall a | Anc(a, d) ensures Anc(a, k) { AncTransitive(a, d, k); }
    }
  }

  /** The segment of k that follows the directory d. */
  lemma FirstComponent(d: string, k: string) returns (n: string)
    requires CleanKey(k) && Under(k, d)
    ensures CleanName(n) && Within(k, Child(d, n))
  {
    var p := DirectoryPrefix(d);
    assert k[..|p|] == p;
    var j := |p|;
    while j < |k| && k[j] != '/'
      invariant |p| <= j <= |k|
      invariant '/' !in k[|p|..j]
    {
      j := j + 1;
    }
    n := k[|p|..j];
    assert |p| > 0 ==> k[|p| - 1] == p[|p| - 1];
    assert Child(d, n) == k[..j];
  }
}
