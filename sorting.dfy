/**
  The ordering Go's sort.Strings puts strings in, and a model of that library call.

  Go compares strings byte by byte in UTF-8; because UTF-8 preserves the order of code
  points, that is the lexicographic order on sequences of characters used here.
 */
module Sorting {

  /** Lexicographic "a comes no later than b". */
  predicate LessEq(a: string, b: string)
    decreases |a|
  {
    a == [] || (b != [] && (a[0] < b[0] || (a[0] == b[0] && LessEq(a[1..], b[1..]))))
  }

  lemma {:induction false} LessEqTotal(a: string, b: string)
    ensures LessEq(a, b) || LessEq(b, a)
    decreases |a|
  {
    if a != [] && b != [] && a[0] == b[0] {
      LessEqTotal(a[1..], b[1..]);
    }
  }

  lemma {:induction false} LessEqAntisymmetric(a: string, b: string)
    requires LessEq(a, b) && LessEq(b, a)
    ensures a == b
    decreases |a|
  {
    if a != [] {
      LessEqAntisymmetric(a[1..], b[1..]);
      assert a == [a[0]] + a[1..] && b == [b[0]] + b[1..];
    }
  }

  lemma {:induction false} LessEqReflexive(a: string)
    ensures LessEq(a, a)
    decreases |a|
  {
    if a != [] {
      LessEqReflexive(a[1..]);
    }
  }

  lemma {:induction false} LessEqTransitive(a: string, b: string, c: string)
    requires LessEq(a, b) && LessEq(b, c)
    ensures LessEq(a, c)
    decreases |a|
  {
    if a != [] && a[0] == b[0] && b[0] == c[0] {
      LessEqTransitive(a[1..], b[1..], c[1..]);
    }
  }

  /** Every element comes no later than every element after it. */
  predicate Sorted(s: seq<string>) {
    forall i, j :: 0 <= i < j < |s| ==> LessEq(s[i], s[j])
  }

  /** No string occurs twice. */
  predicate Distinct<T(==)>(s: seq<T>) {
    forall i, j :: 0 <= i < j < |s| ==> s[i] != s[j]
  }

  /** Insertion of `x` before the first element it comes no later than. */
  function Insert(x: string, s: seq<string>): seq<string>
    decreases |s|
  {
    if s == [] then [x]
    else if LessEq(x, s[0]) then [x] + s
    else [s[0]] + Insert(x, s[1..])
  }

  /** Insertion adds exactly one occurrence of `x`. */
  lemma {:induction false} InsertMultiset(x: string, s: seq<string>)
    ensures multiset(Insert(x, s)) == multiset(s) + multiset{x}
    decreases |s|
  {
    if s != [] && !LessEq(x, s[0]) {
      InsertMultiset(x, s[1..]);
      assert s == [s[0]] + s[1..];
    }
  }

  /** Insertion into a sorted sequence keeps it sorted. */
  lemma {:induction false} InsertSorted(x: string, s: seq<string>)
    requires Sorted(s)
    ensures Sorted(Insert(x, s))
    decreases |s|
  {
    if s == [] {
    } else if LessEq(x, s[0]) {
      forall j | 0 <= j < |s| ensures LessEq(x, s[j]) {
        if j > 0 { LessEqTransitive(x, s[0], s[j]); }
      }
    } else {
      LessEqTotal(x, s[0]);
      var rest := Insert(x, s[1..]);
      InsertSorted(x, s[1..]);
      InsertMultiset(x, s[1..]);
      assert s == [s[0]] + s[1..];
      forall j | 0 <= j < |rest| ensures LessEq(s[0], rest[j]) {
        assert rest[j] in multiset(rest);
        if rest[j] != x {
          assert rest[j] in s[1..];
        }
      }
    }
  }

  /** sort.Strings: an insertion sort standing for the library's sort. */
  function SortStrings(s: seq<string>): (r: seq<string>)
    ensures Sorted(r) && multiset(r) == multiset(s)
    decreases |s|
  {
    if s == [] then []
    else
      var rest := SortStrings(s[1..]);
      InsertSorted(s[0], rest);
      InsertMultiset(s[0], rest);
      MultisetCons(s);
      Insert(s[0], rest)
  }

  lemma MultisetCons<T>(s: seq<T>)
    requires s != []
    ensures multiset(s) == multiset(s[1..]) + multiset{s[0]}
  {
    assert s == [s[0]] + s[1..];
  }

  /** In a sorted sequence, the element at `k` comes no later than any element from `k` on. */
  lemma SortedLeastFrom(a: seq<string>, k: nat, x: string)
    requires Sorted(a) && k < |a| && x in multiset(a[k..])
    ensures LessEq(a[k], x)
  {
    var i :| k <= i < |a| && a[i] == x by { assert x in a[k..]; }
    if i == k { LessEqReflexive(x); }
  }

  /** Two sorted sequences whose suffixes from `k` hold the same strings agree from `k` on. */
  lemma {:induction false} SortedUniqueFrom(a: seq<string>, b: seq<string>, k: nat)
    requires Sorted(a) && Sorted(b) && k <= |a| && k <= |b|
    requires multiset(a[k..]) == multiset(b[k..])
    ensures a[k..] == b[k..]
    decreases |a| - k
  {
    assert |a[k..]| == |b[k..]| by { assert |multiset(a[k..])| == |multiset(b[k..])|; }
    if k < |a| {
      assert a[k] in multiset(a[k..]) && b[k] in multiset(b[k..]);
      SortedLeastFrom(b, k, a[k]);
      SortedLeastFrom(a, k, b[k]);
      LessEqAntisymmetric(a[k], b[k]);
      DropCommonHead(a, b, k);
      SortedUniqueFrom(a, b, k + 1);
      assert a[k..] == [a[k]] + a[k + 1..] && b[k..] == [b[k]] + b[k + 1..];
    }
  }

  lemma DropCommonHead<T>(a: seq<T>, b: seq<T>, k: nat)
    requires k < |a| && k < |b| && a[k] == b[k] && multiset(a[k..]) == multiset(b[k..])
    ensures multiset(a[k + 1..]) == multiset(b[k + 1..])
  {
    assert a[k..] == [a[k]] + a[k + 1..] && b[k..] == [b[k]] + b[k + 1..];
    assert multiset(a[k + 1..]) == multiset(a[k..]) - multiset{a[k]};
    assert multiset(b[k + 1..]) == multiset(b[k..]) - multiset{b[k]};
  }

  /** Two sorted sequences holding the same strings are the same sequence. */
  lemma SortedUnique(a: seq<string>, b: seq<string>)
    requires Sorted(a) && Sorted(b) && multiset(a) == multiset(b)
    ensures a == b
  {
    assert a[0..] == a && b[0..] == b;
    SortedUniqueFrom(a, b, 0);
  }

  /** An element occurring at two positions is counted twice. */
  lemma CountTwice<T>(r: seq<T>, i: int, j: int)
    requires 0 <= i < j < |r|
    ensures multiset(r)[r[i]] >= 1 + (if r[j] == r[i] then 1 else 0)
  {
    assert r == r[..j] + [r[j]] + r[j + 1..];
    assert r[i] in multiset(r[..j]) by { assert r[..j][i] == r[i]; }
  }

  lemma DistinctByMultiset<T>(r: seq<T>, s: set<T>)
    requires multiset(r) == multiset(s)
    ensures Distinct(r)
  {
    forall i, j | 0 <= i < j < |r| ensures r[i] != r[j] {
      CountTwice(r, i, j);
    }
  }

  /** Some enumeration of a finite set, each element once (ghost: its order is unspecified). */
  ghost function Enumerate<T>(s: set<T>): (r: seq<T>)
    ensures multiset(r) == multiset(s) && Distinct(r)
    decreases |s|
  {
    if s == {} then []
    else
      var x :| x in s;
      var rest := Enumerate(s - {x});
      assert multiset(s) == multiset(s - {x}) + multiset{x};
      assert forall j :: 0 <= j < |rest| ==> rest[j] in multiset(rest) && rest[j] != x;
      [x] + rest
  }

  /** The strings of a set in ascending order: what sort.Strings returns for any enumeration of it. */
  ghost function Ascending(s: set<string>): (r: seq<string>)
    ensures Sorted(r) && Distinct(r) && multiset(r) == multiset(s)
  {
    var r := SortStrings(Enumerate(s));
    DistinctByMultiset(r, s);
    r
  }

  /** Sorting any duplicate-free listing of a set yields the set's ascending order. */
  lemma SortEnumeration(s: set<string>, keys: seq<string>)
    requires Distinct(keys) && multiset(keys) == multiset(s)
    ensures SortStrings(keys) == Ascending(s)
  {
    SortedUnique(SortStrings(keys), Ascending(s));
  }
}
