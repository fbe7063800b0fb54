/**
 * Canonical forms used as dictionary keys: an attribute list sorted by name
 * (`tuple(sorted(attrs))`) and a list of attribute/value items sorted by
 * attribute (`tuple(sorted(d.items()))`). Both depend only on the multiset
 * of their input, never on its order.
 */
module Canonical {
  import opened Ordering
  import opened Dicts
  import opened Tables

  /** The sort key of an attribute list: each attribute is compared by its own name. */
  function AttrName(a: Attr): string { a }

  function ItemAttr(p: (Attr, Value)): string { p.0 }

  /** Ascending by name (repeats allowed). */
  ghost predicate SortedAttrs(s: seq<Attr>) {
    SortedBy(s, AttrName)
  }

  /** The set of elements of a list (`set(s)`). */
  function Members<T(==)>(s: seq<T>): set<T> {
    set x | x in s
  }

  /** `tuple(sorted(attrs))`. */
  function SortAttrs(attrs: seq<Attr>): (r: seq<Attr>)
    ensures SortedAttrs(r)
    ensures multiset(r) == multiset(attrs)
  {
    SortByCorrect(attrs, AttrName);
    SortBy(attrs, AttrName)
  }

  /** Sorting attribute lists identifies exactly the lists that are rearrangements of each other. */
  lemma SortAttrsOrderIndependent(a: seq<Attr>, b: seq<Attr>)
    ensures SortAttrs(a) == SortAttrs(b) <==> multiset(a) == multiset(b)
  {
    if multiset(a) == multiset(b) {
      assert KeyInjective(multiset(a), AttrName);
      SortByPermutationInvariant(a, b, AttrName);
    }
  }

  /** An already sorted attribute list is its own canonical form. */
  lemma SortAttrsIdempotent(a: seq<Attr>)
    ensures SortedAttrs(a) ==> SortAttrs(a) == a
    ensures SortAttrs(SortAttrs(a)) == SortAttrs(a)
  {
    assert KeyInjective(multiset(a), AttrName);
    if SortedAttrs(a) {
      SortByIdempotent(a, AttrName);
    }
    SortAttrsOrderIndependent(SortAttrs(a), a);
  }

  /** The membership of a sorted attribute list is that of its input. */
  lemma SortAttrsMembers(a: seq<Attr>)
    ensures Members(SortAttrs(a)) == Members(a)
  {
    var r := SortAttrs(a);
    forall x ensures x in r <==> x in a {
      assert x in r <==> x in multiset(r);
      assert x in a <==> x in multiset(a);
    }
  }

  /** `tuple(sorted(d.items()))` for a dictionary's items `d`: the keys of a dictionary
      are distinct, so sorting the pairs is sorting by attribute. */
  function SortItems(items: seq<(Attr, Value)>): (r: seq<(Attr, Value)>)
    ensures SortedBy(r, ItemAttr)
    ensures multiset(r) == multiset(items)
    ensures DistinctKeys(items) ==> DistinctKeys(r)
  {
    SortByCorrect(items, ItemAttr);
    SortedItemsDistinct(items);
    SortBy(items, ItemAttr)
  }

  lemma SortedItemsDistinct(items: seq<(Attr, Value)>)
    ensures DistinctKeys(items) ==> DistinctKeys(SortBy(items, ItemAttr))
  {
    if DistinctKeys(items) {
      SortByCorrect(items, ItemAttr);
      DistinctKeysPermutation(items, SortBy(items, ItemAttr));
    }
  }

  lemma ItemAttrInjective(items: seq<(Attr, Value)>)
    requires DistinctKeys(items)
    ensures KeyInjective(multiset(items), ItemAttr)
  {
    forall x, y | x in multiset(items) && y in multiset(items) && ItemAttr(x) == ItemAttr(y)
      ensures x == y
    {
      var i :| 0 <= i < |items| && items[i] == x;
      var j :| 0 <= j < |items| && items[j] == y;
      assert i == j;
    }
  }

  /** Two dictionaries with the same items, inserted in any order, give the same
      canonical tuple, and only those do. */
  lemma SortItemsOrderIndependent(a: seq<(Attr, Value)>, b: seq<(Attr, Value)>)
    requires DistinctKeys(a)
    ensures SortItems(a) == SortItems(b) <==> multiset(a) == multiset(b)
  {
    if multiset(a) == multiset(b) {
      ItemAttrInjective(a);
      SortByPermutationInvariant(a, b, ItemAttr);
    }
  }

  /** `NoRepeats` over attributes, in the form `DistinctKeys` gives for keys. */
  lemma KeysNoRepeats<V>(d: seq<(Attr, V)>)
    requires DistinctKeys(d)
    ensures NoRepeats(Keys(d))
  {
  }

  /** The listing of `a` without its repeats, keeping first occurrences. */
  function Dedup(a: seq<Attr>): (r: seq<Attr>)
    ensures Members(r) == Members(a)
    ensures NoRepeats(r)
  {
    if a == [] then []
    else
      var init, last := a[..|a| - 1], a[|a| - 1];
      var r := Dedup(init);
      assert a == init + [last];
      assert Members(a) == Members(init) + {last};
      assert Members(r + [last]) == Members(r) + {last};
      if last in r then r else r + [last]
  }

  /** Two lists without repeats and with the same members are rearrangements of each other. */
  lemma SameMembersPermute(a: seq<Attr>, b: seq<Attr>)
    requires NoRepeats(a) && NoRepeats(b)
    requires Members(a) == Members(b)
    ensures multiset(a) == multiset(b)
  {
    forall x ensures multiset(a)[x] == multiset(b)[x] {
      NoRepeatsCount(a, x);
      NoRepeatsCount(b, x);
      assert x in multiset(a) <==> x in Members(a);
      assert x in multiset(b) <==> x in Members(b);
    }
  }

  /** `sorted(set(a) | set(b))`: the sorted listing of the union, each attribute once. */
  function SortedUnion(a: seq<Attr>, b: seq<Attr>): (r: seq<Attr>)
    ensures SortedAttrs(r) && NoRepeats(r)
    ensures Members(r) == Members(a) + Members(b)
  {
    var u := Dedup(a + b);
    assert Members(a + b) == Members(a) + Members(b);
    var r := SortAttrs(u);
    SortAttrsMembers(u);
    assert NoRepeats(r) by {
      forall i, j | 0 <= i < j < |r| ensures r[i] != r[j] {
        if r[i] == r[j] {
          RepeatedElementCount(r, i, j);
          NoRepeatsCount(u, r[i]);
          assert false;
        }
      }
    }
    r
  }

  lemma {:induction false} NoRepeatsCount(s: seq<Attr>, x: Attr)
    requires NoRepeats(s)
    ensures multiset(s)[x] <= 1
  {
    if s != [] {
      assert s == [s[0]] + s[1..];
      NoRepeatsCount(s[1..], x);
      if x == s[0] {
        assert x !in s[1..] by {
          forall i | 0 <= i < |s[1..]| ensures s[1..][i] != x {
            assert s[1..][i] == s[i + 1];
          }
        }
      }
    }
  }

  /** The sorted union depends only on the union of the two attribute sets. */
  lemma SortedUnionOfSet(a: seq<Attr>, b: seq<Attr>, c: seq<Attr>, d: seq<Attr>)
    requires Members(a) + Members(b) == Members(c) + Members(d)
    ensures SortedUnion(a, b) == SortedUnion(c, d)
  {
    var r, s := SortedUnion(a, b), SortedUnion(c, d);
    SameMembersPermute(r, s);
    assert KeyInjective(multiset(r), AttrName);
    SortedUnique(r, s, AttrName);
  }
}
