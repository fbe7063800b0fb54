/**
 * The ordering Python's `sorted` uses on attribute names (lexicographic by
 * code point), and a stable insertion sort by a string key, with the facts
 * that make a sorted list a canonical form: it is sorted, it is a
 * permutation of its input, and it is the only sorted permutation.
 */
module Ordering {

  /** `a <= b` on Python strings: lexicographic comparison of code points. */
  predicate StrLe(a: string, b: string)
    decreases |a|
  {
    |a| == 0 || (|b| > 0 && (a[0] < b[0] || (a[0] == b[0] && StrLe(a[1..], b[1..]))))
  }

  lemma {:induction false} StrLeReflexive(a: string)
    ensures StrLe(a, a)
    decreases |a|
  {
    if |a| > 0 {
      StrLeReflexive(a[1..]);
    }
  }

  lemma {:induction false} StrLeTotal(a: string, b: string)
    ensures StrLe(a, b) || StrLe(b, a)
    decreases |a|
  {
    if |a| > 0 && |b| > 0 && a[0] == b[0] {
      StrLeTotal(a[1..], b[1..]);
    }
  }

  lemma {:induction false} StrLeAntisymmetric(a: string, b: string)
    requires StrLe(a, b) && StrLe(b, a)
    ensures a == b
    decreases |a|
  {
    if |a| > 0 {
      StrLeAntisymmetric(a[1..], b[1..]);
      assert a == [a[0]] + a[1..] && b == [b[0]] + b[1..];
    }
  }

  lemma {:induction false} StrLeTransitive(a: string, b: string, c: string)
    requires StrLe(a, b) && StrLe(b, c)
    ensures StrLe(a, c)
    decreases |a|
  {
    if |a| > 0 && a[0] == b[0] && b[0] == c[0] {
      StrLeTransitive(a[1..], b[1..], c[1..]);
    }
  }

  /** `s` is in ascending order of `key`. */
  ghost predicate SortedBy<T>(s: seq<T>, key: T -> string) {
    forall i, j :: 0 <= i < j < |s| ==> StrLe(key(s[i]), key(s[j]))
  }

  /** `key` tells the elements of `m` apart. */
  ghost predicate KeyInjective<T>(m: multiset<T>, key: T -> string) {
    forall x, y :: x in m && y in m && key(x) == key(y) ==> x == y
  }

  /** Inserts `x` before the first element whose key is not smaller. */
  function InsertBy<T>(x: T, s: seq<T>, key: T -> string): seq<T> {
    if s == [] then [x]
    else if StrLe(key(x), key(s[0])) then [x] + s
    else [s[0]] + InsertBy(x, s[1..], key)
  }

  /** Insertion sort of `s` by `key` (the model of Python's `sorted`). */
  function SortBy<T>(s: seq<T>, key: T -> string): seq<T> {
    if s == [] then [] else InsertBy(s[0], SortBy(s[1..], key), key)
  }

  lemma {:induction false} InsertByPermutes<T>(x: T, s: seq<T>, key: T -> string)
    ensures multiset(InsertBy(x, s, key)) == multiset(s) + multiset{x}
  {
    if s != [] && !StrLe(key(x), key(s[0])) {
      InsertByPermutes(x, s[1..], key);
      assert s == [s[0]] + s[1..];
    }
  }

  lemma {:induction false} InsertBySorted<T>(x: T, s: seq<T>, key: T -> string)
    requires SortedBy(s, key)
    ensures SortedBy(InsertBy(x, s, key), key)
  {
    if s == [] {
    } else if StrLe(key(x), key(s[0])) {
      var r := [x] + s;
      forall i, j | 0 <= i < j < |r| ensures StrLe(key(r[i]), key(r[j])) {
        if i == 0 && j > 1 {
          StrLeTransitive(key(x), key(s[0]), key(s[j - 1]));
        }
      }
    } else {
      var t := InsertBy(x, s[1..], key);
      InsertBySorted(x, s[1..], key);
      InsertByPermutes(x, s[1..], key);
      StrLeTotal(key(x), key(s[0]));
      forall j | 0 <= j < |t| ensures StrLe(key(s[0]), key(t[j])) {
        assert t[j] in multiset(t);
        if t[j] != x {
          assert t[j] in multiset(s[1..]);
          var k :| 0 <= k < |s[1..]| && s[1..][k] == t[j];
          assert s[k + 1] == t[j];
        }
      }
    }
  }

  /** The sort yields a sorted permutation of its input. */
  lemma {:induction false} SortByCorrect<T>(s: seq<T>, key: T -> string)
    ensures SortedBy(SortBy(s, key), key)
    ensures multiset(SortBy(s, key)) == multiset(s)
  {
    if s != [] {
      SortByCorrect(s[1..], key);
      InsertBySorted(s[0], SortBy(s[1..], key), key);
      InsertByPermutes(s[0], SortBy(s[1..], key), key);
      assert s == [s[0]] + s[1..];
    }
  }

  /** The least element (by key) of a sorted sequence comes first. */
  lemma SortedHeadIsLeast<T>(s: seq<T>, key: T -> string, x: T)
    requires SortedBy(s, key) && x in s
    ensures StrLe(key(s[0]), key(x))
  {
    var k :| 0 <= k < |s| && s[k] == x;
    if k == 0 {
      StrLeReflexive(key(x));
    }
  }

  /** Removing equal heads from equal multisets leaves equal multisets. */
  lemma TailsPermute<T>(a: seq<T>, b: seq<T>)
    requires a != [] && b != [] && a[0] == b[0]
    requires multiset(a) == multiset(b)
    ensures multiset(a[1..]) == multiset(b[1..])
  {
    assert a == [a[0]] + a[1..];
    assert b == [b[0]] + b[1..];
    assert multiset(a) == multiset{a[0]} + multiset(a[1..]);
    assert multiset(b) == multiset{a[0]} + multiset(b[1..]);
    assert multiset(a[1..]) == multiset(a) - multiset{a[0]};
    assert multiset(b[1..]) == multiset(b) - multiset{a[0]};
  }

  lemma TailKeepsSortedAndInjective<T>(a: seq<T>, key: T -> string)
    requires a != [] && SortedBy(a, key) && KeyInjective(multiset(a), key)
    ensures SortedBy(a[1..], key) && KeyInjective(multiset(a[1..]), key)
  {
    assert a == [a[0]] + a[1..];
    assert multiset(a[1..]) <= multiset(a);
  }

  /** Two sorted permutations of one multiset are equal when the key tells elements apart. */
  lemma {:induction false} SortedUnique<T>(a: seq<T>, b: seq<T>, key: T -> string)
    requires SortedBy(a, key) && SortedBy(b, key)
    requires multiset(a) == multiset(b)
    requires KeyInjective(multiset(a), key)
    ensures a == b
    decreases |a|
  {
    if a != [] {
      SortedHeadsEqual(a, b, key);
      TailsPermute(a, b);
      TailKeepsSortedAndInjective(a, key);
      TailKeepsSortedAndInjective(b, key);
      SortedUnique(a[1..], b[1..], key);
      HeadTailEqual(a, b);
    }
  }

  lemma SortedHeadsEqual<T>(a: seq<T>, b: seq<T>, key: T -> string)
    requires a != [] && SortedBy(a, key) && SortedBy(b, key)
    requires multiset(a) == multiset(b)
    requires KeyInjective(multiset(a), key)
    ensures b != [] && a[0] == b[0]
  {
    assert |b| == |multiset(b)| == |multiset(a)| == |a|;
    assert a[0] in multiset(a) && b[0] in multiset(b);
    SortedHeadIsLeast(a, key, b[0]);
    SortedHeadIsLeast(b, key, a[0]);
    StrLeAntisymmetric(key(a[0]), key(b[0]));
  }

  lemma HeadTailEqual<T>(a: seq<T>, b: seq<T>)
    requires a != [] && b != [] && a[0] == b[0] && a[1..] == b[1..]
    ensures a == b
  {
    assert a == [a[0]] + a[1..] && b == [b[0]] + b[1..];
  }

  /** Sorting depends only on the multiset of elements: this is what makes it canonical. */
  lemma SortByPermutationInvariant<T>(a: seq<T>, b: seq<T>, key: T -> string)
    requires multiset(a) == multiset(b)
    requires KeyInjective(multiset(a), key)
    ensures SortBy(a, key) == SortBy(b, key)
  {
    SortByCorrect(a, key);
    SortByCorrect(b, key);
    SortedUnique(SortBy(a, key), SortBy(b, key), key);
  }

  /** Sorting an already sorted sequence changes nothing. */
  lemma SortByIdempotent<T>(s: seq<T>, key: T -> string)
    requires SortedBy(s, key)
    requires KeyInjective(multiset(s), key)
    ensures SortBy(s, key) == s
  {
    SortByCorrect(s, key);
    SortedUnique(SortBy(s, key), s, key);
  }
}
