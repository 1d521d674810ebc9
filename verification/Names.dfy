/**
 Feature and crate names. Nix keeps the names of an attribute set in the byte order of
 the strings, and Rust's `BTreeMap` orders its keys the same way, so one order serves the
 feature resolver and the broker pods. `SortedUnique` models Cargo.nix's `sortedUnique`.
 */
module Names {

  // Strict lexicographic order on strings.
  predicate Less(a: string, b: string) {
    if b == "" then false
    else if a == "" then true
    else if a[0] != b[0] then a[0] < b[0]
    else Less(a[1..], b[1..])
  }

  // Up to `i` the strings agree, and there `a` ends or has the smaller character.
  ghost predicate SmallerAt(a: string, b: string, i: nat) {
    i <= |a| && i < |b| && (forall k | 0 <= k < i :: a[k] == b[k]) && (i == |a| || a[i] < b[i])
  }

  lemma {:induction false} LessIff(a: string, b: string)
    ensures Less(a, b) <==> exists i :: SmallerAt(a, b, i)
  {
    if a == "" || b == "" || a[0] != b[0] {
      if b != "" && (a == "" || a[0] < b[0]) { assert SmallerAt(a, b, 0); }
    } else {
      LessIff(a[1..], b[1..]);
      if i: nat :| SmallerAt(a[1..], b[1..], i) {
        assert forall k | 0 < k <= i :: a[k] == a[1..][k - 1] && b[k] == b[1..][k - 1];
        assert SmallerAt(a, b, i + 1);
      }
      if i: nat :| SmallerAt(a, b, i) {
        assert SmallerAt(a[1..], b[1..], i - 1);
      }
    }
  }

  lemma {:induction false} LessTotal(a: string, b: string)
    ensures a == b || Less(a, b) || Less(b, a)
  {
    if a != "" && b != "" && a[0] == b[0] {
      LessTotal(a[1..], b[1..]);
      assert a == [a[0]] + a[1..] && b == [b[0]] + b[1..];
    }
  }

  lemma {:induction false} LessAsymmetric(a: string, b: string)
    requires Less(a, b)
    ensures a != b && !Less(b, a)
  {
    if a != "" && a[0] == b[0] {
      LessAsymmetric(a[1..], b[1..]);
    }
  }

  lemma {:induction false} LessTransitive(a: string, b: string, c: string)
    requires Less(a, b) && Less(b, c)
    ensures Less(a, c)
  {
    if a != "" && a[0] == b[0] == c[0] {
      LessTransitive(a[1..], b[1..], c[1..]);
    }
  }

  ghost predicate StrictlySorted(s: seq<string>) {
    forall i, j {:trigger Less(s[i], s[j])} | 0 <= i < j < |s| :: Less(s[i], s[j])
  }

  function Elems(s: seq<string>): (r: set<string>)
    ensures forall x :: x in r <==> x in s
    ensures r == {} ==> s == []
  {
    assert s == [] || s[0] in s;
    set x | x in s
  }

  // A strictly sorted list is determined by its elements.
  lemma {:induction false} SortedCanonical(a: seq<string>, b: seq<string>)
    requires StrictlySorted(a) && StrictlySorted(b)
    requires Elems(a) == Elems(b)
    ensures a == b
  {
    if a == [] {
      assert Elems(b) == {};
    } else {
      assert a[0] in Elems(b);
      assert b != [] && b[0] in Elems(a);
      HeadIsLeast(a, b[0]);
      HeadIsLeast(b, a[0]);
      if a[0] != b[0] { LessAsymmetric(a[0], b[0]); }
      assert a == [a[0]] + a[1..] && b == [b[0]] + b[1..];
      TailElems(a);
      TailElems(b);
      SortedCanonical(a[1..], b[1..]);
    }
  }

  lemma HeadIsLeast(s: seq<string>, x: string)
    requires StrictlySorted(s) && x in s
    ensures x == s[0] || Less(s[0], x)
  {
  }

  lemma TailElems(s: seq<string>)
    requires s != [] && StrictlySorted(s)
    ensures Elems(s[1..]) == Elems(s) - {s[0]}
    ensures StrictlySorted(s[1..])
  {
    forall x | x in s[1..]
      ensures x != s[0]
    {
      var i :| 0 <= i < |s[1..]| && s[1..][i] == x;
      LessAsymmetric(s[0], s[i + 1]);
    }
  }

  predicate IsLeast(m: string, s: set<string>) {
    m in s && forall x | x in s && x != m :: Less(m, x)
  }

  lemma LeastOfMore(m: string, s: set<string>, y: string) returns (l: string)
    requires IsLeast(m, s)
    ensures IsLeast(l, s + {y})
  {
    LessTotal(m, y);
    l := if m == y || Less(m, y) then m else y;
    forall x | x in s + {y} && x != l
      ensures Less(l, x)
    {
      if l != m && x != m { LessTransitive(y, m, x); }
    }
  }

  lemma {:induction false} LeastExists(s: set<string>)
    requires s != {}
    ensures exists m :: IsLeast(m, s)
  {
    var y :| y in s;
    if s == {y} {
      assert IsLeast(y, s);
    } else {
      LeastExists(s - {y});
      var m :| IsLeast(m, s - {y});
      var l := LeastOfMore(m, s - {y}, y);
      assert s - {y} + {y} == s;
    }
  }

  lemma LeastUnique(s: set<string>, m: string, n: string)
    requires IsLeast(m, s) && IsLeast(n, s)
    ensures m == n
  {
    if m != n { LessAsymmetric(m, n); }
  }

  function Least(s: set<string>): (m: string)
    requires s != {}
    ensures IsLeast(m, s)
  {
    LeastExists(s);
    assert forall m, n | IsLeast(m, s) && IsLeast(n, s) :: m == n by {
      forall m, n | IsLeast(m, s) && IsLeast(n, s)
        ensures m == n
      {
        LeastUnique(s, m, n);
      }
    }
    var m :| m in s && IsLeast(m, s);
    m
  }

  // `builtins.attrNames`, and the key order of a `BTreeMap`.
  function AttrNames(s: set<string>): (r: seq<string>)
    ensures StrictlySorted(r)
    ensures Elems(r) == s
  {
    if s == {} then []
    else
      var m := Least(s);
      [m] + AttrNames(s - {m})
  }

  function Insert(x: string, s: seq<string>): seq<string> {
    if s == [] then [x]
    else if Less(s[0], x) then [s[0]] + Insert(x, s[1..])
    else [x] + s
  }

  // `builtins.sort (a: b: a < b)`
  function Sort(s: seq<string>): seq<string> {
    if s == [] then [] else Insert(s[0], Sort(s[1..]))
  }

  lemma {:induction false} SortKeepsSorted(s: seq<string>)
    requires StrictlySorted(s)
    ensures Sort(s) == s
  {
    if s != [] {
      TailElems(s);
      SortKeepsSorted(s[1..]);
      if |s| > 1 { LessAsymmetric(s[0], s[1]); }
      assert s == [s[0]] + s[1..];
    }
  }

  function FoldNames(names: set<string>, features: seq<string>): (r: set<string>)
    ensures r == names + Elems(features)
    decreases |features|
  {
    if features == [] then names
    else
      assert Elems(features) == {features[0]} + Elems(features[1..]);
      FoldNames(names + {features[0]}, features[1..])
  }

  // Sorted and without duplicates, with the same elements: the canonical list of a set of
  // features, which is what makes comparing two such lists the comparison of two sets.
  function SortedUnique(features: seq<string>): (r: seq<string>)
    ensures StrictlySorted(r)
    ensures Elems(r) == Elems(features)
  {
    var names := AttrNames(FoldNames({}, features));
    SortKeepsSorted(names);
    Sort(names)
  }

  lemma SortedUniqueCanonical(a: seq<string>, b: seq<string>)
    ensures SortedUnique(a) == SortedUnique(b) <==> Elems(a) == Elems(b)
  {
    if Elems(a) == Elems(b) {
      SortedCanonical(SortedUnique(a), SortedUnique(b));
    }
  }

  lemma {:induction false} LongerThanAll(names: set<string>) returns (n: nat)
    ensures forall s | s in names :: |s| < n
  {
    if names == {} {
      n := 0;
    } else {
      var s :| s in names;
      n := LongerThanAll(names - {s});
      if n <= |s| { n := |s| + 1; }
    }
  }
}
