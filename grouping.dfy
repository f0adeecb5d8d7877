/**
  Grouping a sequence of (key, value) pairs into a map from key to the values with that
  key, the way the Go code does with `groups[k] = append(groups[k], v)`.
 */
module Grouping {
  import opened Sorting

  /** The values paired with key `k`, in their original order. */
  function Group<K(==), V>(kvs: seq<(K, V)>, k: K): seq<V>
    decreases |kvs|
  {
    if kvs == [] then []
    else Group(kvs[..|kvs| - 1], k) + (if kvs[|kvs| - 1].0 == k then [kvs[|kvs| - 1].1] else [])
  }

  /** The keys that occur in `kvs`. */
  function KeySet<K, V>(kvs: seq<(K, V)>): set<K>
    decreases |kvs|
  {
    if kvs == [] then {} else KeySet(kvs[..|kvs| - 1]) + {kvs[|kvs| - 1].0}
  }

  /** The values of `kvs`, in order. */
  function Values<K, V>(kvs: seq<(K, V)>): (r: seq<V>)
    ensures |r| == |kvs|
    decreases |kvs|
  {
    if kvs == [] then [] else Values(kvs[..|kvs| - 1]) + [kvs[|kvs| - 1].1]
  }

  /** The map the Go append loop builds: every key that occurs, bound to its group. */
  function GroupMap<K(==), V>(kvs: seq<(K, V)>): map<K, seq<V>> {
    map k | k in KeySet(kvs) :: Group(kvs, k)
  }

  /** The elements of a sequence, as a set. */
  function Elems<T>(s: seq<T>): set<T> {
    set x | x in s
  }

  /** Every key of `ks` is bound in `m`. */
  predicate KeysIn<K, V>(ks: seq<K>, m: map<K, V>) {
    forall i :: 0 <= i < |ks| ==> ks[i] in m
  }

  /** The concatenation of m[k] over the keys `ks`, in that order. */
  function Concat<K, V>(ks: seq<K>, m: map<K, seq<V>>): seq<V>
    requires KeysIn(ks, m)
    decreases |ks|
  {
    if ks == [] then [] else Concat(ks[..|ks| - 1], m) + m[ks[|ks| - 1]]
  }

  lemma {:induction false} GroupOfAbsentKey<K, V>(kvs: seq<(K, V)>, k: K)
    requires k !in KeySet(kvs)
    ensures Group(kvs, k) == []
    decreases |kvs|
  {
    if kvs != [] {
      GroupOfAbsentKey(kvs[..|kvs| - 1], k);
    }
  }

  /** Every key that occurs has a non-empty group. */
  lemma {:induction false} GroupNonEmpty<K, V>(kvs: seq<(K, V)>, k: K)
    requires k in KeySet(kvs)
    ensures Group(kvs, k) != []
    decreases |kvs|
  {
    var last := kvs[|kvs| - 1];
    if last.0 != k {
      GroupNonEmpty(kvs[..|kvs| - 1], k);
    }
  }

  /** One step of the Go append loop: appending a pair extends exactly that key's group. */
  lemma GroupMapSnoc<K, V>(kvs: seq<(K, V)>, k: K, v: V)
    ensures GroupMap(kvs + [(k, v)])
         == GroupMap(kvs)[k := (if k in GroupMap(kvs) then GroupMap(kvs)[k] else []) + [v]]
  {
    var kvs' := kvs + [(k, v)];
    assert kvs'[..|kvs'| - 1] == kvs;
    if k !in KeySet(kvs) {
      GroupOfAbsentKey(kvs, k);
    }
    var m, m' := GroupMap(kvs), GroupMap(kvs');
    var rhs := m[k := (if k in m then m[k] else []) + [v]];
    assert KeySet(kvs') == KeySet(kvs) + {k};
    assert m'.Keys == rhs.Keys;
    forall j | j in m' ensures m'[j] == rhs[j] {
      assert m'[j] == Group(kvs', j);
    }
  }

  function WithKeyIn<K, V>(kvs: seq<(K, V)>, keys: set<K>): seq<V>
    decreases |kvs|
  {
    if kvs == [] then []
    else WithKeyIn(kvs[..|kvs| - 1], keys) + (if kvs[|kvs| - 1].0 in keys then [kvs[|kvs| - 1].1] else [])
  }

  lemma {:induction false} WithKeyInAdd<K, V>(kvs: seq<(K, V)>, keys: set<K>, k: K)
    requires k !in keys
    ensures multiset(WithKeyIn(kvs, keys + {k})) == multiset(WithKeyIn(kvs, keys)) + multiset(Group(kvs, k))
    decreases |kvs|
  {
    if kvs != [] {
      WithKeyInAdd(kvs[..|kvs| - 1], keys, k);
    }
  }

  lemma {:induction false} WithAllKeys<K, V>(kvs: seq<(K, V)>, keys: set<K>)
    requires KeySet(kvs) <= keys
    ensures WithKeyIn(kvs, keys) == Values(kvs)
    decreases |kvs|
  {
    if kvs != [] {
      WithAllKeys(kvs[..|kvs| - 1], keys);
    }
  }

  lemma {:induction false} ConcatGroups<K, V>(kvs: seq<(K, V)>, ks: seq<K>)
    requires Distinct(ks) && Elems(ks) <= KeySet(kvs)
    ensures KeysIn(ks, GroupMap(kvs))
    ensures multiset(Concat(ks, GroupMap(kvs))) == multiset(WithKeyIn(kvs, Elems(ks)))
    decreases |ks|
  {
    if ks == [] {
      assert Elems(ks) == {};
      WithAllKeys(kvs, KeySet(kvs));
      NoKeys(kvs);
    } else {
      var init, k := ks[..|ks| - 1], ks[|ks| - 1];
      assert ks[|ks| - 1] in Elems(ks);
      assert Elems(ks) == Elems(init) + {k} by {
        assert ks == init + [k];
      }
      assert k !in Elems(init) by {
        forall i | 0 <= i < |init| ensures init[i] != k {
          assert init[i] == ks[i];
        }
      }
      ConcatGroups(kvs, init);
      WithKeyInAdd(kvs, Elems(init), k);
    }
  }

  lemma {:induction false} NoKeys<K, V>(kvs: seq<(K, V)>)
    ensures WithKeyIn(kvs, {}) == []
    decreases |kvs|
  {
    if kvs != [] {
      NoKeys(kvs[..|kvs| - 1]);
    }
  }

  /**
    Reading the groups in any order that lists every key once gives back every value
    exactly as often as it was paired: nothing is lost, nothing duplicated.
   */
  lemma Partition<K, V>(kvs: seq<(K, V)>, ks: seq<K>)
    requires Distinct(ks) && Elems(ks) == KeySet(kvs)
    ensures KeysIn(ks, GroupMap(kvs))
    ensures multiset(Concat(ks, GroupMap(kvs))) == multiset(Values(kvs))
    ensures |Concat(ks, GroupMap(kvs))| == |kvs|
  {
    ConcatGroups(kvs, ks);
    WithAllKeys(kvs, Elems(ks));
    assert |multiset(Concat(ks, GroupMap(kvs)))| == |multiset(Values(kvs))|;
  }

  lemma {:induction false} ConcatAppend<K, V>(a: seq<K>, b: seq<K>, m: map<K, seq<V>>)
    requires KeysIn(a, m)
    requires KeysIn(b, m)
    ensures KeysIn(a + b, m)
    ensures Concat(a + b, m) == Concat(a, m) + Concat(b, m)
    decreases |b|
  {
    if b == [] {
      assert a + b == a;
    } else {
      var b' := b[..|b| - 1];
      assert (a + b)[..|a + b| - 1] == a + b';
      ConcatAppend(a, b', m);
    }
  }

  /** Taking one key out of a duplicate-free listing. */
  lemma RemoveAt<K>(b: seq<K>, j: nat)
    requires Distinct(b) && j < |b|
    ensures Distinct(b[..j] + b[j + 1..])
    ensures Elems(b[..j] + b[j + 1..]) == Elems(b) - {b[j]}
  {
    var b' := b[..j] + b[j + 1..];
    forall x, y | 0 <= x < y < |b'| ensures b'[x] != b'[y] {
      var x' := if x < j then x else x + 1;
      var y' := if y < j then y else y + 1;
      assert b'[x] == b[x'] && b'[y] == b[y'];
    }
    forall x ensures x in Elems(b') <==> x in Elems(b) && x != b[j] {
      if x in Elems(b') {
        var i :| 0 <= i < |b'| && b'[i] == x;
        var i' := if i < j then i else i + 1;
        assert b[i'] == x;
      }
      if x in Elems(b) && x != b[j] {
        var i :| 0 <= i < |b| && b[i] == x;
        assert b'[if i < j then i else i - 1] == x;
      }
    }
  }

  lemma ConcatRemove<K, V>(b: seq<K>, j: nat, m: map<K, seq<V>>)
    requires j < |b| && KeysIn(b, m)
    ensures KeysIn(b[..j] + b[j + 1..], m)
    ensures multiset(Concat(b, m)) == multiset(Concat(b[..j] + b[j + 1..], m)) + multiset(m[b[j]])
  {
    var k := b[j];
    assert b == b[..j] + [k] + b[j + 1..];
    ConcatAppend(b[..j], [k], m);
    ConcatAppend(b[..j] + [k], b[j + 1..], m);
    ConcatAppend(b[..j], b[j + 1..], m);
    assert Concat([k], m) == m[k] by { assert [k][..0] == []; }
  }

  /** The groups read in two orders of the same keys hold the same values. */
  lemma {:induction false} ConcatReordered<K, V>(a: seq<K>, b: seq<K>, m: map<K, seq<V>>)
    requires Distinct(a) && Distinct(b) && Elems(a) == Elems(b)
    requires KeysIn(a, m)
    ensures KeysIn(b, m)
    ensures multiset(Concat(a, m)) == multiset(Concat(b, m))
    decreases |a|
  {
    assert forall i :: 0 <= i < |b| ==> b[i] in Elems(a);
    if a != [] {
      var n := |a| - 1;
      var k := a[n];
      assert k in Elems(b);
      var j :| 0 <= j < |b| && b[j] == k;
      RemoveAt(a, n);
      RemoveAt(b, j);
      assert a[..n] + a[n + 1..] == a[..n];
      ConcatReordered(a[..n], b[..j] + b[j + 1..], m);
      ConcatRemove(b, j, m);
    }
  }

  lemma PrefixSnoc<T>(before: seq<T>, xs: seq<T>, j: nat)
    requires j < |xs|
    ensures before + xs[..j + 1] == (before + xs[..j]) + [xs[j]]
  {
    assert xs[..j + 1] == xs[..j] + [xs[j]];
  }
}
