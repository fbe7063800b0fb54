/**
 * Python dictionaries, which remember insertion order, as association
 * lists: a `seq<(K, V)>` in insertion order. Assigning `d[k] = v` keeps the
 * position of an existing key and appends a new one.
 */
module Dicts {
  import opened Wrappers

  /** The keys, in insertion order (`list(d.keys())`). */
  function Keys<K, V>(d: seq<(K, V)>): (ks: seq<K>)
    ensures |ks| == |d|
    ensures forall i :: 0 <= i < |d| ==> ks[i] == d[i].0
  {
    if d == [] then [] else [d[0].0] + Keys(d[1..])
  }

  /** No key occurs twice: every dictionary built by the operations below has this property. */
  ghost predicate DistinctKeys<K, V>(d: seq<(K, V)>) {
    forall i, j :: 0 <= i < j < |d| ==> d[i].0 != d[j].0
  }

  /** `d.get(k)`: the value stored under `k`, or None. */
  function Get<K(==), V>(d: seq<(K, V)>, k: K): (r: Option<V>)
    ensures r.Some? <==> k in Keys(d)
    ensures r.Some? ==> (k, r.value) in d
  {
    if d == [] then None
    else if d[0].0 == k then Some(d[0].1)
    else Get(d[1..], k)
  }

  /** `d.get(k, default)`. */
  function GetOr<K(==), V>(d: seq<(K, V)>, k: K, default: V): V {
    match Get(d, k)
    case Some(v) => v
    case None => default
  }

  /** In a dictionary without repeated keys, a stored pair is what `Get` finds. */
  lemma {:induction false} GetStored<K, V>(d: seq<(K, V)>, i: nat)
    requires DistinctKeys(d) && i < |d|
    ensures Get(d, d[i].0) == Some(d[i].1)
  {
    if i > 0 {
      assert d[0].0 != d[i].0;
      assert d[1..][i - 1] == d[i];
      GetStored(d[1..], i - 1);
    }
  }

  /** `d[k] = v`: the new value is found under `k`, every other key is untouched, and
      the key order changes only by appending a key that was not there. */
  function Put<K(==,!new), V>(d: seq<(K, V)>, k: K, v: V): (r: seq<(K, V)>)
    ensures Keys(r) == if k in Keys(d) then Keys(d) else Keys(d) + [k]
    ensures Get(r, k) == Some(v)
    ensures forall k' :: k' != k ==> Get(r, k') == Get(d, k')
  {
    if d == [] then [(k, v)]
    else
      assert d == [d[0]] + d[1..];
      if d[0].0 == k then
        PutHead(d[0], d[1..], v);
        [(k, v)] + d[1..]
      else
        var rest := Put(d[1..], k, v);
        PutBehind(d[0], d[1..], rest, k, v);
        [d[0]] + rest
  }

  /** Assigning the first key replaces its value in place. */
  lemma PutHead<K, V>(x: (K, V), s: seq<(K, V)>, v: V)
    ensures Keys([(x.0, v)] + s) == Keys([x] + s)
    ensures x.0 in Keys([x] + s)
    ensures Get([(x.0, v)] + s, x.0) == Some(v)
    ensures forall k' :: k' != x.0 ==> Get([(x.0, v)] + s, k') == Get([x] + s, k')
  {
    ConsKeys((x.0, v), s);
    ConsKeys(x, s);
    ConsGet((x.0, v), s);
    ConsGet(x, s);
  }

  /** Assigning a key behind the first pair: the first pair stays in front of the
      assignment to the rest. */
  lemma PutBehind<K, V>(x: (K, V), s: seq<(K, V)>, rest: seq<(K, V)>, k: K, v: V)
    requires x.0 != k
    requires Keys(rest) == if k in Keys(s) then Keys(s) else Keys(s) + [k]
    requires Get(rest, k) == Some(v)
    requires forall k' :: k' != k ==> Get(rest, k') == Get(s, k')
    ensures Keys([x] + rest) == if k in Keys([x] + s) then Keys([x] + s) else Keys([x] + s) + [k]
    ensures Get([x] + rest, k) == Some(v)
    ensures forall k' :: k' != k ==> Get([x] + rest, k') == Get([x] + s, k')
  {
    ConsGet(x, rest);
    ConsGet(x, s);
    KeysBehind(x, s, rest, k);
  }

  lemma KeysBehind<K, V>(x: (K, V), s: seq<(K, V)>, rest: seq<(K, V)>, k: K)
    requires x.0 != k
    requires Keys(rest) == if k in Keys(s) then Keys(s) else Keys(s) + [k]
    ensures Keys([x] + rest) == if k in Keys([x] + s) then Keys([x] + s) else Keys([x] + s) + [k]
  {
    ConsKeys(x, rest);
    ConsKeys(x, s);
    var ks := Keys(s);
    assert (k in [x.0] + ks) == (k in ks);
    if k !in ks {
      assert [x.0] + (ks + [k]) == ([x.0] + ks) + [k];
    }
  }

  lemma ConsKeys<K, V>(x: (K, V), s: seq<(K, V)>)
    ensures Keys([x] + s) == [x.0] + Keys(s)
  {
    assert ([x] + s)[1..] == s;
  }

  lemma ConsGet<K, V>(x: (K, V), s: seq<(K, V)>)
    ensures forall k :: Get([x] + s, k) == if x.0 == k then Some(x.1) else Get(s, k)
  {
    assert ([x] + s)[1..] == s;
  }

  /** Assignment never introduces a repeated key. */
  lemma PutDistinct<K(!new), V>(d: seq<(K, V)>, k: K, v: V)
    requires DistinctKeys(d)
    ensures DistinctKeys(Put(d, k, v))
  {
    var r := Put(d, k, v);
    forall i, j | 0 <= i < j < |r| ensures r[i].0 != r[j].0 {
      assert r[i].0 == Keys(r)[i] && r[j].0 == Keys(r)[j];
      if j < |d| {
        assert Keys(d)[i] == d[i].0 && Keys(d)[j] == d[j].0;
      }
    }
  }

  /** Assigning a key that is not present appends the pair. */
  lemma {:induction false} PutNewKeyAppends<K(!new), V>(d: seq<(K, V)>, k: K, v: V)
    requires k !in Keys(d)
    ensures Put(d, k, v) == d + [(k, v)]
  {
    if d != [] {
      assert Keys(d) == [d[0].0] + Keys(d[1..]);
      PutNewKeyAppends(d[1..], k, v);
      assert Put(d, k, v) == [d[0]] + (d[1..] + [(k, v)]);
      HeadThenAppend(d, (k, v));
    }
  }

  lemma HeadThenAppend<T>(s: seq<T>, x: T)
    requires s != []
    ensures [s[0]] + (s[1..] + [x]) == s + [x]
  {
    assert [s[0]] + s[1..] == s;
  }

  /** Assigns every pair of `items` in turn (`for k, v in items: d[k] = v`). */
  function PutAll<K(==,!new), V>(d: seq<(K, V)>, items: seq<(K, V)>): seq<(K, V)>
    decreases |items|
  {
    if items == [] then d else PutAll(Put(d, items[0].0, items[0].1), items[1..])
  }

  /** Assigning keys that are all new appends them in order. */
  lemma {:induction false} PutAllNewKeys<K(!new), V>(d: seq<(K, V)>, items: seq<(K, V)>)
    requires DistinctKeys(d + items)
    ensures PutAll(d, items) == d + items
    decreases |items|
  {
    if items != [] {
      var k := items[0].0;
      var v := items[0].1;
      var d' := d + [(k, v)];
      assert d' + items[1..] == d + items;
      assert k !in Keys(d) by {
        forall i | 0 <= i < |d| ensures Keys(d)[i] != k {
          assert (d + items)[i] == d[i] && (d + items)[|d|] == items[0];
        }
      }
      PutNewKeyAppends(d, k, v);
      PutAllNewKeys(d', items[1..]);
    }
  }

  /** The set of keys of a dictionary. */
  ghost function KeySet<K, V>(d: seq<(K, V)>): set<K> {
    set k | k in Keys(d)
  }

  lemma PutKeySet<K(!new), V>(d: seq<(K, V)>, k: K, v: V)
    ensures KeySet(Put(d, k, v)) == KeySet(d) + {k}
  {
    var ks := Keys(d);
    if k in ks {
      assert Keys(Put(d, k, v)) == ks;
    } else {
      assert Keys(Put(d, k, v)) == ks + [k];
      SetOfAppend(ks, k);
    }
  }

  lemma KeySetCons<K, V>(items: seq<(K, V)>)
    requires items != []
    ensures KeySet(items) == {items[0].0} + KeySet(items[1..])
  {
    assert items == [items[0]] + items[1..];
    ConsKeys(items[0], items[1..]);
    var ks := Keys(items[1..]);
    forall x ensures x in [items[0].0] + ks <==> x == items[0].0 || x in ks {
    }
  }

  lemma SetOfAppend<K>(ks: seq<K>, k: K)
    ensures (set x | x in ks + [k]) == (set x | x in ks) + {k}
  {
    forall x ensures x in ks + [k] <==> x in ks || x == k {
    }
  }

  /** Rearranging the pairs of a dictionary keeps its set of keys. */
  lemma KeySetOfMultiset<K, V>(a: seq<(K, V)>, b: seq<(K, V)>)
    requires multiset(a) == multiset(b)
    ensures KeySet(a) == KeySet(b)
  {
    forall k | k in KeySet(a) ensures k in KeySet(b) {
      var i :| 0 <= i < |a| && Keys(a)[i] == k;
      assert a[i] in multiset(b);
      var j :| 0 <= j < |b| && b[j] == a[i];
      assert Keys(b)[j] == k;
    }
    forall k | k in KeySet(b) ensures k in KeySet(a) {
      var j :| 0 <= j < |b| && Keys(b)[j] == k;
      assert b[j] in multiset(a);
      var i :| 0 <= i < |a| && a[i] == b[j];
      assert Keys(a)[i] == k;
    }
  }

  /** Assigning a list of pairs adds exactly their keys. */
  lemma {:induction false} PutAllKeys<K(!new), V>(d: seq<(K, V)>, items: seq<(K, V)>)
    ensures KeySet(PutAll(d, items)) == KeySet(d) + KeySet(items)
    decreases |items|
  {
    if items != [] {
      var d' := Put(d, items[0].0, items[0].1);
      assert PutAll(d, items) == PutAll(d', items[1..]);
      PutAllKeys(d', items[1..]);
      PutKeySet(d, items[0].0, items[0].1);
      KeySetCons(items);
    }
  }

  /** Assigning a list of pairs never introduces a repeated key. */
  lemma {:induction false} PutAllDistinct<K(!new), V>(d: seq<(K, V)>, items: seq<(K, V)>)
    requires DistinctKeys(d)
    ensures DistinctKeys(PutAll(d, items))
    decreases |items|
  {
    if items != [] {
      PutDistinct(d, items[0].0, items[0].1);
      PutAllDistinct(Put(d, items[0].0, items[0].1), items[1..]);
    }
  }

  /** A sequence with no repeated key holds each element at most once. */
  lemma {:induction false} DistinctKeysCount<K, V>(d: seq<(K, V)>, x: (K, V))
    requires DistinctKeys(d)
    ensures multiset(d)[x] <= 1
  {
    if d != [] {
      assert d == [d[0]] + d[1..];
      DistinctKeysCount(d[1..], x);
      if x == d[0] {
        assert x !in d[1..] by {
          forall i | 0 <= i < |d[1..]| ensures d[1..][i] != x {
            assert d[1..][i] == d[i + 1];
          }
        }
      }
    }
  }

  lemma RepeatedElementCount<T>(s: seq<T>, i: nat, j: nat)
    requires i < j < |s| && s[i] == s[j]
    ensures multiset(s)[s[i]] >= 2
  {
    assert s == s[..j] + s[j..];
    assert s[i] in s[..j] by { assert s[..j][i] == s[i]; }
    assert s[j] in s[j..] by { assert s[j..][0] == s[j]; }
    assert multiset(s) == multiset(s[..j]) + multiset(s[j..]);
  }

  /** Rearranging a dictionary's pairs keeps its keys distinct. */
  lemma DistinctKeysPermutation<K, V>(a: seq<(K, V)>, b: seq<(K, V)>)
    requires DistinctKeys(a) && multiset(a) == multiset(b)
    ensures DistinctKeys(b)
  {
    forall i, j | 0 <= i < j < |b| ensures b[i].0 != b[j].0 {
      if b[i].0 == b[j].0 {
        assert b[i] in multiset(a) && b[j] in multiset(a);
        var p :| 0 <= p < |a| && a[p] == b[i];
        var q :| 0 <= q < |a| && a[q] == b[j];
        assert p == q;
        RepeatedElementCount(b, i, j);
        DistinctKeysCount(a, b[i]);
        assert false;
      }
    }
  }

  /** `if k1 not in d: d[k1] = {}` then `d[k1][k2] = v`: the nested assignment of a
      two-level dictionary. Only the entry `k2` of `k1` changes. */
  function PutIn<K1(==,!new), K2(==,!new), V>(d: seq<(K1, seq<(K2, V)>)>, k1: K1, k2: K2, v: V)
    : (r: seq<(K1, seq<(K2, V)>)>)
  {
    Put(d, k1, Put(GetOr(d, k1, []), k2, v))
  }

  /** The nested assignment changes only the entry `k2` of `k1`: the outer key order
      grows only by a new `k1`, every other `k1'` is untouched, and under `k1` only `k2`
      differs from what was there (nothing, when `k1` is new). */
  lemma PutInGet<K1(!new), K2(!new), V>(d: seq<(K1, seq<(K2, V)>)>, k1: K1, k2: K2, v: V)
    ensures Keys(PutIn(d, k1, k2, v)) == if k1 in Keys(d) then Keys(d) else Keys(d) + [k1]
    ensures Get(PutIn(d, k1, k2, v), k1).Some?
    ensures Get(Get(PutIn(d, k1, k2, v), k1).value, k2) == Some(v)
    ensures forall k' :: k' != k1 ==> Get(PutIn(d, k1, k2, v), k') == Get(d, k')
    ensures forall k' :: k' != k2 ==>
      Get(Get(PutIn(d, k1, k2, v), k1).value, k') == Get(GetOr(d, k1, []), k')
    ensures k1 !in Keys(d) ==> Get(PutIn(d, k1, k2, v), k1) == Some([(k2, v)])
  {
  }

  /** `d[k1][k2]` if both keys are present: the lookup of a two-level dictionary. */
  function GetIn<K1(==), K2(==), V>(d: seq<(K1, seq<(K2, V)>)>, k1: K1, k2: K2): Option<V> {
    match Get(d, k1)
    case None => None
    case Some(inner) => Get(inner, k2)
  }

  /** After the nested assignment, `(k1, k2)` finds `v` and every other pair of keys
      finds what it found before. */
  lemma PutInGetIn<K1(!new), K2(!new), V>(d: seq<(K1, seq<(K2, V)>)>, k1: K1, k2: K2, v: V,
                                         j1: K1, j2: K2)
    ensures GetIn(PutIn(d, k1, k2, v), j1, j2) ==
      if j1 == k1 && j2 == k2 then Some(v) else GetIn(d, j1, j2)
  {
    PutInGet(d, k1, k2, v);
  }

  /** Every pair of `d[k] = v` is the new pair or a pair of `d`. */
  lemma {:induction false} PutElements<K(!new), V>(d: seq<(K, V)>, k: K, v: V)
    ensures forall p :: p in Put(d, k, v) ==> p in d || p == (k, v)
  {
    if d != [] && d[0].0 != k {
      PutElements(d[1..], k, v);
      assert Put(d, k, v) == [d[0]] + Put(d[1..], k, v);
      assert forall p :: p in d[1..] ==> p in d;
    }
  }

  /** `d.setdefault(k, []).append(v)`: a dictionary of lists, one more element under `k`. */
  function AppendAt<K(==,!new), V>(d: seq<(K, seq<V>)>, k: K, v: V): (r: seq<(K, seq<V>)>)
    ensures Keys(r) == if k in Keys(d) then Keys(d) else Keys(d) + [k]
    ensures Get(r, k) == Some(GetOr(d, k, []) + [v])
    ensures forall k' :: k' != k ==> Get(r, k') == Get(d, k')
  {
    Put(d, k, GetOr(d, k, []) + [v])
  }

  /** Appending a pair with a new key: earlier keys are found as before, and the new key
      finds the appended value. */
  lemma {:induction false} GetAppend<K, V>(d: seq<(K, V)>, p: (K, V))
    ensures forall k :: Get(d + [p], k) ==
                        (if k in Keys(d) then Get(d, k) else if k == p.0 then Some(p.1) else None)
  {
    if d != [] {
      assert (d + [p])[0] == d[0] && (d + [p])[1..] == d[1..] + [p];
      GetAppend(d[1..], p);
      assert Keys(d) == [d[0].0] + Keys(d[1..]);
    }
  }
}
