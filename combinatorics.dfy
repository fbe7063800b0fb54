/**
 * `itertools.combinations` and the power set built from it by chaining the
 * combinations of every size `r = 0 .. n` (the grouping sets of a cube).
 */
module Combinatorics {
  import opened Tables
  import opened Canonical

  /** Puts `x` in front of every list of `cs`. */
  function Prepend(x: Attr, cs: seq<seq<Attr>>): (r: seq<seq<Attr>>)
    ensures |r| == |cs|
    ensures forall i :: 0 <= i < |cs| ==> r[i] == [x] + cs[i]
  {
    seq(|cs|, i requires 0 <= i < |cs| => [x] + cs[i])
  }

  /** `combinations(s, r)`: the length-`r` selections of `s`, keeping the order of `s`,
      in the order `itertools` emits them (those with `s[0]` first). */
  function Combinations(s: seq<Attr>, r: nat): seq<seq<Attr>>
    decreases |s|, r
  {
    if r == 0 then [[]]
    else if s == [] then []
    else Prepend(s[0], Combinations(s[1..], r - 1)) + Combinations(s[1..], r)
  }

  /** The combinations of sizes `0 .. n`, chained in size order. */
  function CombinationsUpTo(s: seq<Attr>, n: nat): seq<seq<Attr>> {
    if n == 0 then Combinations(s, 0) else CombinationsUpTo(s, n - 1) + Combinations(s, n)
  }

  /** `chain.from_iterable(combinations(s, r) for r in range(len(s) + 1))`. */
  function PowerSet(s: seq<Attr>): seq<seq<Attr>> {
    CombinationsUpTo(s, |s|)
  }

  function Binomial(n: nat, k: nat): nat {
    if k == 0 then 1
    else if n == 0 then 0
    else Binomial(n - 1, k - 1) + Binomial(n - 1, k)
  }

  function Pow2(n: nat): (p: nat)
    ensures p >= 1
  {
    if n == 0 then 1 else 2 * Pow2(n - 1)
  }

  function BinomialSum(n: nat, m: nat): nat {
    if m == 0 then Binomial(n, 0) else BinomialSum(n, m - 1) + Binomial(n, m)
  }

  /** `combinations(s, r)` entry by entry: first those with `s[0]`, then those without. */
  lemma CombinationsAt(s: seq<Attr>, r: nat)
    requires s != [] && r > 0
    ensures |Combinations(s, r)| == |Combinations(s[1..], r - 1)| + |Combinations(s[1..], r)|
    ensures forall i :: 0 <= i < |Combinations(s[1..], r - 1)| ==>
      Combinations(s, r)[i] == [s[0]] + Combinations(s[1..], r - 1)[i]
    ensures forall i :: |Combinations(s[1..], r - 1)| <= i < |Combinations(s, r)| ==>
      Combinations(s, r)[i] == Combinations(s[1..], r)[i - |Combinations(s[1..], r - 1)|]
  {
    var a, b := Combinations(s[1..], r - 1), Combinations(s[1..], r);
    assert Combinations(s, r) == Prepend(s[0], a) + b;
    PrependConcatAt(s[0], a, b);
  }

  lemma PrependConcatAt(x: Attr, a: seq<seq<Attr>>, b: seq<seq<Attr>>)
    ensures |Prepend(x, a) + b| == |a| + |b|
    ensures forall i :: 0 <= i < |a| ==> (Prepend(x, a) + b)[i] == [x] + a[i]
    ensures forall i :: |a| <= i < |a| + |b| ==> (Prepend(x, a) + b)[i] == b[i - |a|]
  {
  }

  lemma MembersCons(x: Attr, c: seq<Attr>)
    ensures Members([x] + c) == Members(c) + {x}
  {
    assert forall y :: y in [x] + c <==> y == x || y in c;
  }

  // ---------------------------------------------------------------------------
  // Counting
  // ---------------------------------------------------------------------------

  /** Any count obeying Pascal's recurrence on lists is the binomial coefficient of the length. */
  lemma {:induction false} PascalCount(f: (seq<Attr>, nat) -> nat, s: seq<Attr>, r: nat)
    requires forall t: seq<Attr> :: f(t, 0) == 1
    requires forall k: nat :: k > 0 ==> f([], k) == 0
    requires forall t: seq<Attr>, k: nat :: t != [] && k > 0 ==> f(t, k) == f(t[1..], k - 1) + f(t[1..], k)
    ensures f(s, r) == Binomial(|s|, r)
    decreases |s|
  {
    if r != 0 && s != [] {
      PascalCount(f, s[1..], r - 1);
      PascalCount(f, s[1..], r);
    }
  }

  lemma CombinationsConsLength(s: seq<Attr>, r: nat)
    requires s != [] && r > 0
    ensures |Combinations(s, r)| == |Combinations(s[1..], r - 1)| + |Combinations(s[1..], r)|
  {
  }

  lemma CombinationsRecurrence()
    ensures forall t: seq<Attr> :: |Combinations(t, 0)| == 1
    ensures forall k: nat :: k > 0 ==> |Combinations([], k)| == 0
    ensures forall t: seq<Attr>, k: nat :: t != [] && k > 0 ==>
      |Combinations(t, k)| == |Combinations(t[1..], k - 1)| + |Combinations(t[1..], k)|
  {
    forall t: seq<Attr>, k: nat | t != [] && k > 0
      ensures |Combinations(t, k)| == |Combinations(t[1..], k - 1)| + |Combinations(t[1..], k)|
    {
      CombinationsConsLength(t, k);
    }
  }

  /** There are `Binomial(|s|, r)` combinations of size `r`. */
  lemma CombinationsCount(s: seq<Attr>, r: nat)
    ensures |Combinations(s, r)| == Binomial(|s|, r)
  {
    var f := (t: seq<Attr>, k: nat) => |Combinations(t, k)|;
    CombinationsRecurrence();
    PascalCount(f, s, r);
  }

  lemma {:induction false} BinomialBeyond(n: nat, k: nat)
    requires k > n
    ensures Binomial(n, k) == 0
  {
    if n != 0 {
      BinomialBeyond(n - 1, k - 1);
      BinomialBeyond(n - 1, k);
    }
  }

  /** Pascal's rule summed over the sizes `0 .. m`. */
  lemma {:induction false} BinomialSumStep(n: nat, m: nat)
    requires m >= 1
    ensures BinomialSum(n + 1, m) == BinomialSum(n, m) + BinomialSum(n, m - 1)
  {
    if m > 1 {
      BinomialSumStep(n, m - 1);
    }
  }

  lemma {:induction false} BinomialSumAll(n: nat)
    ensures BinomialSum(n, n) == Pow2(n)
  {
    if n != 0 {
      BinomialSumAll(n - 1);
      BinomialSumStep(n - 1, n);
      BinomialBeyond(n - 1, n);
    }
  }

  lemma {:induction false} CombinationsUpToCount(s: seq<Attr>, n: nat)
    ensures |CombinationsUpTo(s, n)| == BinomialSum(|s|, n)
  {
    CombinationsCount(s, n);
    if n != 0 {
      CombinationsUpToCount(s, n - 1);
    }
  }

  /** A set of `k` keys has `2^k` subsets, one grouping set for each. */
  lemma PowerSetCount(s: seq<Attr>)
    ensures |PowerSet(s)| == Pow2(|s|)
  {
    CombinationsUpToCount(s, |s|);
    BinomialSumAll(|s|);
  }

  // ---------------------------------------------------------------------------
  // Each subset exactly once
  // ---------------------------------------------------------------------------

  lemma NoRepeatsTail(s: seq<Attr>)
    requires s != [] && NoRepeats(s)
    ensures NoRepeats(s[1..]) && s[0] !in s[1..]
    ensures Members(s) == Members(s[1..]) + {s[0]}
  {
    assert s == [s[0]] + s[1..];
    forall i | 0 <= i < |s[1..]| ensures s[1..][i] != s[0] {
      assert s[1..][i] == s[i + 1];
    }
  }

  lemma {:induction false} NoRepeatsCardinality(s: seq<Attr>)
    requires NoRepeats(s)
    ensures |Members(s)| == |s|
  {
    if s != [] {
      NoRepeatsTail(s);
      NoRepeatsCardinality(s[1..]);
    }
  }

  /** `c` lists `r` different members of `s`. */
  ghost predicate IsSelection(c: seq<Attr>, s: seq<Attr>, r: nat) {
    |c| == r && NoRepeats(c) && Members(c) <= Members(s)
  }

  lemma PrependSelection(x: Attr, t: seq<Attr>, c: seq<Attr>, r: nat)
    requires IsSelection(c, t, r) && x !in t
    ensures IsSelection([x] + c, [x] + t, r + 1)
    ensures Members([x] + c) == Members(c) + {x} && x !in Members(c)
  {
    var d := [x] + c;
    forall a, b | 0 <= a < b < |d| ensures d[a] != d[b] {
      assert d[b] == c[b - 1];
      if a > 0 {
        assert d[a] == c[a - 1];
      } else {
        assert c[b - 1] in Members(c);
      }
    }
    assert Members(d) == Members(c) + {x};
    assert Members([x] + t) == Members(t) + {x};
  }

  /** Every combination of a list without repeats selects exactly `r` of its members. */
  lemma {:induction false} CombinationsShape(s: seq<Attr>, r: nat)
    requires NoRepeats(s)
    ensures forall i :: 0 <= i < |Combinations(s, r)| ==> IsSelection(Combinations(s, r)[i], s, r)
    decreases |s|, r
  {
    if r == 0 {
      assert Combinations(s, r) == [[]];
      assert Members<Attr>([]) == {};
    } else if s != [] {
      NoRepeatsTail(s);
      var x, t := s[0], s[1..];
      assert s == [x] + t;
      CombinationsShape(t, r - 1);
      CombinationsShape(t, r);
      var a, b := Combinations(t, r - 1), Combinations(t, r);
      var cs := Combinations(s, r);
      CombinationsAt(s, r);
      forall i | 0 <= i < |cs| ensures IsSelection(cs[i], s, r) {
        if i < |a| {
          assert cs[i] == [x] + a[i];
          PrependSelection(x, t, a[i], r - 1);
        } else {
          assert cs[i] == b[i - |a|];
          assert IsSelection(b[i - |a|], t, r);
        }
      }
    }
  }

  /** The combinations of one size name pairwise different sets. */
  lemma {:induction false} CombinationsDistinct(s: seq<Attr>, r: nat)
    requires NoRepeats(s)
    ensures DistinctSets(Combinations(s, r))
    decreases |s|, r
  {
    if r != 0 && s != [] {
      NoRepeatsTail(s);
      var x, t := s[0], s[1..];
      CombinationsDistinct(t, r - 1);
      CombinationsDistinct(t, r);
      CombinationsShape(t, r - 1);
      CombinationsShape(t, r);
      PrependConcatDistinct(Combinations(s, r), x, t, Combinations(t, r - 1), Combinations(t, r), r);
    }
  }

  /** Selections with `x` and selections without it, each list naming different sets,
      together name different sets. */
  lemma PrependConcatDistinct(cs: seq<seq<Attr>>, x: Attr, t: seq<Attr>,
                              a: seq<seq<Attr>>, b: seq<seq<Attr>>, r: nat)
    requires r > 0 && x !in t && cs == Prepend(x, a) + b
    requires DistinctSets(a) && DistinctSets(b)
    requires forall i :: 0 <= i < |a| ==> IsSelection(a[i], t, r - 1)
    requires forall i :: 0 <= i < |b| ==> IsSelection(b[i], t, r)
    ensures DistinctSets(cs)
  {
    var p := Prepend(x, a);
    forall i, j | 0 <= i < j < |cs| ensures Members(cs[i]) != Members(cs[j]) {
      if j < |p| {
        assert cs[i] == [x] + a[i] && cs[j] == [x] + a[j];
        PrependSelection(x, t, a[i], r - 1);
        PrependSelection(x, t, a[j], r - 1);
      } else if i < |p| {
        assert cs[i] == [x] + a[i];
        PrependSelection(x, t, a[i], r - 1);
        assert cs[j] == b[j - |p|];
        assert IsSelection(b[j - |p|], t, r);
      } else {
        assert cs[i] == b[i - |p|] && cs[j] == b[j - |p|];
      }
    }
  }

  /** Every subset of the members of `s` is listed among the combinations of its size. */
  lemma {:induction false} CombinationFor(s: seq<Attr>, subset: set<Attr>) returns (c: seq<Attr>, i: nat)
    requires subset <= Members(s)
    ensures i < |Combinations(s, |subset|)| && Combinations(s, |subset|)[i] == c
    ensures Members(c) == subset
    decreases |s|
  {
    if |subset| == 0 {
      c, i := [], 0;
      assert Members(c) == subset;
    } else {
      var x, t := s[0], s[1..];
      assert s == [x] + t;
      assert Members(s) == Members(t) + {x};
      var a := Combinations(t, |subset| - 1);
      CombinationsAt(s, |subset|);
      if x in subset {
        c, i := PrependedCombination(s, subset);
      } else {
        c, i := CombinationFor(t, subset);
        i := |a| + i;
      }
    }
  }

  lemma {:induction false} PrependedCombination(s: seq<Attr>, subset: set<Attr>) returns (c: seq<Attr>, i: nat)
    requires s != [] && s[0] in subset && subset <= Members(s)
    ensures i < |Combinations(s, |subset|)| && Combinations(s, |subset|)[i] == c
    ensures Members(c) == subset
    decreases |s|, 0
  {
    var x, t := s[0], s[1..];
    var rest := subset - {x};
    assert |rest| == |subset| - 1;
    assert rest <= Members(t) by {
      MembersCons(x, t);
      assert s == [x] + t;
    }
    var c';
    c', i := CombinationFor(t, rest);
    c := [x] + c';
    MembersCons(x, c');
    assert subset == rest + {x};
    CombinationsHead(s, |subset|, |rest|, i);
  }

  /** The combinations with `s[0]` come first, in the order of those of the rest. */
  lemma CombinationsHead(s: seq<Attr>, r: nat, r': nat, i: nat)
    requires s != [] && r > 0 && r' == r - 1 && i < |Combinations(s[1..], r')|
    ensures i < |Combinations(s, r)| && Combinations(s, r)[i] == [s[0]] + Combinations(s[1..], r')[i]
  {
    CombinationsAt(s, r);
  }

  /** In a chain of parts `chain(n) == parts(0) + ... + parts(n)`, every entry of a part
      up to `n` has a position in the chain. */
  lemma {:induction false} ChainIndex<T>(parts: nat -> seq<T>, chain: nat -> seq<T>, n: nat, r: nat, i: nat)
    returns (j: nat)
    requires chain(0) == parts(0)
    requires forall m :: 0 < m <= n ==> chain(m) == chain(m - 1) + parts(m)
    requires r <= n && i < |parts(r)|
    ensures j < |chain(n)| && chain(n)[j] == parts(r)[i]
  {
    if n == 0 {
      j := i;
    } else if r < n {
      j := ChainIndex(parts, chain, n - 1, r, i);
      assert chain(n) == chain(n - 1) + parts(n);
    } else {
      j := |chain(n - 1)| + i;
      assert chain(n) == chain(n - 1) + parts(n);
    }
  }

  lemma UpToSteps(s: seq<Attr>, n: nat)
    ensures forall m :: 0 < m <= n ==> CombinationsUpTo(s, m) == CombinationsUpTo(s, m - 1) + Combinations(s, m)
  {
  }

  /** The combination at index `i` of size `r <= n` is found, at index `j`, in the chain
      of sizes `0 .. n`. */
  lemma InCombinationsUpTo(s: seq<Attr>, n: nat, r: nat, i: nat) returns (j: nat)
    requires r <= n && i < |Combinations(s, r)|
    ensures j < |CombinationsUpTo(s, n)| && CombinationsUpTo(s, n)[j] == Combinations(s, r)[i]
  {
    var parts := (m: nat) => Combinations(s, m);
    var chain := (m: nat) => CombinationsUpTo(s, m);
    UpToSteps(s, n);
    j := ChainIndex(parts, chain, n, r, i);
  }

  /** The power set of a list without repeats lists each subset of its members
      exactly once: every subset occurs, and no two entries name the same set. */
  lemma PowerSetExactlyOnce(s: seq<Attr>)
    requires NoRepeats(s)
    ensures forall subset :: subset <= Members(s) ==>
      exists c :: c in PowerSet(s) && Members(c) == subset
    ensures DistinctSets(PowerSet(s))
  {
    NoRepeatsCardinality(s);
    forall subset | subset <= Members(s)
      ensures exists c :: c in PowerSet(s) && Members(c) == subset
    {
      var c, i := CombinationFor(s, subset);
      assert |subset| <= |Members(s)| by {
        SubsetCardinality(subset, Members(s));
      }
      var j := InCombinationsUpTo(s, |s|, |subset|, i);
      assert PowerSet(s)[j] == c;
    }
    UpToDistinct(s, |s|);
  }

  lemma SubsetCardinality(a: set<Attr>, b: set<Attr>)
    requires a <= b
    ensures |a| <= |b|
  {
    assert b == a + (b - a);
  }

  lemma {:induction false} UpToShape(s: seq<Attr>, n: nat)
    requires NoRepeats(s)
    ensures forall i :: 0 <= i < |CombinationsUpTo(s, n)| ==>
      NoRepeats(CombinationsUpTo(s, n)[i]) && |CombinationsUpTo(s, n)[i]| <= n &&
      Members(CombinationsUpTo(s, n)[i]) <= Members(s)
  {
    CombinationsShape(s, n);
    if n == 0 {
      assert CombinationsUpTo(s, n) == Combinations(s, 0) == [[]];
      assert Members<Attr>([]) == {};
    } else {
      UpToShape(s, n - 1);
      var a, b := CombinationsUpTo(s, n - 1), Combinations(s, n);
      var cs := a + b;
      assert cs == CombinationsUpTo(s, n);
      forall i | 0 <= i < |cs| ensures NoRepeats(cs[i]) && |cs[i]| <= n && Members(cs[i]) <= Members(s) {
        if i < |a| {
          assert cs[i] == a[i];
        } else {
          assert cs[i] == b[i - |a|];
          assert IsSelection(b[i - |a|], s, n);
        }
      }
    }
  }

  /** The grand total comes first: every chain of combinations starts with the empty one. */
  lemma {:induction false} UpToStartsEmpty(s: seq<Attr>, n: nat)
    ensures |CombinationsUpTo(s, n)| > 0 && CombinationsUpTo(s, n)[0] == []
  {
    if n > 0 {
      UpToStartsEmpty(s, n - 1);
    }
  }

  /** No two entries of `cs` name the same set. */
  ghost predicate DistinctSets(cs: seq<seq<Attr>>) {
    forall i, j :: 0 <= i < j < |cs| ==> Members(cs[i]) != Members(cs[j])
  }

  lemma ConcatDistinctSets(cs: seq<seq<Attr>>, a: seq<seq<Attr>>, b: seq<seq<Attr>>)
    requires cs == a + b
    requires DistinctSets(a) && DistinctSets(b)
    requires forall i, j :: 0 <= i < |a| && 0 <= j < |b| ==> Members(a[i]) != Members(b[j])
    ensures DistinctSets(cs)
  {
    forall i, j | 0 <= i < j < |cs| ensures Members(cs[i]) != Members(cs[j]) {
      if j < |a| {
        assert cs[i] == a[i] && cs[j] == a[j];
      } else if i < |a| {
        assert cs[i] == a[i] && cs[j] == b[j - |a|];
      } else {
        assert cs[i] == b[i - |a|] && cs[j] == b[j - |a|];
      }
    }
  }

  /** A chain of parts whose entries name pairwise different sets within a part, and
      sets of `m` elements in part `m`, names pairwise different sets throughout. */
  lemma {:induction false} ChainDistinct(parts: nat -> seq<seq<Attr>>, chain: nat -> seq<seq<Attr>>, n: nat)
    requires chain(0) == parts(0)
    requires forall m :: 0 < m <= n ==> chain(m) == chain(m - 1) + parts(m)
    requires forall m :: 0 <= m <= n ==> DistinctSets(parts(m))
    requires forall m, i :: 0 <= m <= n && 0 <= i < |parts(m)| ==> |Members(parts(m)[i])| == m
    ensures DistinctSets(chain(n))
    ensures forall i :: 0 <= i < |chain(n)| ==> |Members(chain(n)[i])| <= n
  {
    if n > 0 {
      ChainDistinct(parts, chain, n - 1);
      var a, b := chain(n - 1), parts(n);
      assert chain(n) == a + b;
      forall i, j | 0 <= i < |a| && 0 <= j < |b| ensures Members(a[i]) != Members(b[j]) {
        assert |Members(b[j])| == n;
      }
      ConcatDistinctSets(chain(n), a, b);
      forall i | 0 <= i < |chain(n)| ensures |Members(chain(n)[i])| <= n {
        if i < |a| {
          assert chain(n)[i] == a[i];
        } else {
          assert chain(n)[i] == b[i - |a|];
        }
      }
    }
  }

  /** Entries of `CombinationsUpTo` name pairwise different sets: within one size by
      `CombinationsDistinct`, across sizes because the sets have different sizes. */
  lemma UpToDistinct(s: seq<Attr>, n: nat)
    requires NoRepeats(s)
    ensures DistinctSets(CombinationsUpTo(s, n))
  {
    var parts := (m: nat) => Combinations(s, m);
    var chain := (m: nat) => CombinationsUpTo(s, m);
    UpToSteps(s, n);
    forall m | 0 <= m <= n ensures DistinctSets(parts(m)) {
      CombinationsDistinct(s, m);
    }
    forall m, i | 0 <= m <= n && 0 <= i < |parts(m)| ensures |Members(parts(m)[i])| == m {
      CombinationsShape(s, m);
      NoRepeatsCardinality(Combinations(s, m)[i]);
    }
    ChainDistinct(parts, chain, n);
  }

  /** Two grouping keys, such as `[Device, Browser]` in the cube example, give four
      grouping sets: the grand total, each key alone, and both keys. */
  lemma TwoKeyCube(x: Attr, y: Attr)
    ensures PowerSet([x, y]) == [[], [x], [y], [x, y]]
  {
    var s: seq<Attr> := [x, y];
    var t: seq<Attr> := [y];
    var e: seq<Attr> := [];
    assert s[1..] == t && t[1..] == e;
    assert Combinations(e, 1) == [];
    assert Combinations(t, 0) == [[]] && Combinations(e, 0) == [[]];
    assert Prepend(y, [e])[0] == [y] + e == [y];
    assert Combinations(t, 1) == [[y]];
    assert Prepend(x, [e])[0] == [x] + e == [x];
    assert Combinations(s, 1) == [[x], [y]];
    assert Combinations(t, 2) == Prepend(y, Combinations(e, 1)) + Combinations(e, 2);
    assert Combinations(t, 2) == [];
    assert Prepend(x, [t])[0] == [x] + t == s;
    assert Combinations(s, 2) == [[x, y]];
    assert CombinationsUpTo(s, 1) == [[]] + [[x], [y]];
    assert PowerSet(s) == CombinationsUpTo(s, 1) + [[x, y]];
  }
}
