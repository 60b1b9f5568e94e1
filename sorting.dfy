/**
 * The stable sort that `Array.prototype.sort` performs with a user comparator.
 *
 * Section 23.1.3.30 of ECMA-262 (2023 edition) requires the sort to be stable and,
 * for a consistent comparator, the result to be ordered by that comparator; it does
 * not fix an algorithm. `SortSeq` is one such stable sort (insertion from the back),
 * `SortedStableUnique` shows that every sorted, stable rearrangement equals it, and
 * `SortInPlace` is the in-place array algorithm proved to compute it.
 */
module Sorting {

  /**
   * A comparator in the sense of `Array.prototype.sort`: a negative result puts `a`
   * first, a positive one puts `b` first, zero means "equal". Valid comparators
   * induce a total preorder.
   */
  ghost predicate ValidComparator<T(!new)>(cmp: (T, T) -> int) {
    && (forall a :: cmp(a, a) == 0)
    && (forall a, b :: cmp(a, b) < 0 <==> cmp(b, a) > 0)
    && (forall a, b, c :: cmp(a, b) <= 0 && cmp(b, c) <= 0 ==> cmp(a, c) <= 0)
  }

  /**
   * The comparator `(a, b) => collate(key(a), key(b))`, negated when `descending`:
   * the shape of every sort call of the list screens.
   */
  function KeyedComparator<T, K>(collate: (K, K) -> int, key: T -> K, descending: bool): (T, T) -> int {
    (a: T, b: T) =>
      var comparison := collate(key(a), key(b));
      if descending then -comparison else comparison
  }

  /** A total-preorder collation of the keys gives a total-preorder comparator, in both directions. */
  lemma KeyedComparatorValid<T(!new), K(!new)>(collate: (K, K) -> int, key: T -> K, descending: bool)
    requires ValidComparator(collate)
    ensures ValidComparator(KeyedComparator(collate, key, descending))
  {
    var cmp := KeyedComparator(collate, key, descending);
    forall a
      ensures cmp(a, a) == 0
    {
      assert collate(key(a), key(a)) == 0;
    }
    forall a, b
      ensures cmp(a, b) < 0 <==> cmp(b, a) > 0
    {
      assert collate(key(a), key(b)) < 0 <==> collate(key(b), key(a)) > 0;
      assert collate(key(b), key(a)) < 0 <==> collate(key(a), key(b)) > 0;
    }
    forall a, b, c | cmp(a, b) <= 0 && cmp(b, c) <= 0
      ensures cmp(a, c) <= 0
    {
      var ka, kb, kc := key(a), key(b), key(c);
      if descending {
        assert collate(kb, ka) <= 0 by {
          assert collate(kb, ka) > 0 ==> collate(ka, kb) < 0;
        }
        assert collate(kc, kb) <= 0 by {
          assert collate(kc, kb) > 0 ==> collate(kb, kc) < 0;
        }
        assert collate(kc, ka) <= 0;
        assert collate(ka, kc) >= 0 by {
          assert collate(ka, kc) < 0 ==> collate(kc, ka) > 0;
        }
      } else {
        assert collate(ka, kb) <= 0 && collate(kb, kc) <= 0;
      }
    }
  }

  /** Every element comes no later than the elements after it. */
  ghost predicate Sorted<T>(cmp: (T, T) -> int, s: seq<T>) {
    forall i, j :: 0 <= i < j < |s| ==> cmp(s[i], s[j]) <= 0
  }

  /** The elements of `s` that compare equal to `y`, in their order in `s`. */
  function KeyClass<T>(cmp: (T, T) -> int, y: T, s: seq<T>): (r: seq<T>)
    ensures |r| <= |s|
  {
    if s == [] then []
    else KeyClass(cmp, y, s[..|s| - 1]) + (if cmp(s[|s| - 1], y) == 0 then [s[|s| - 1]] else [])
  }

  /** A class holds only elements of the sequence that compare equal to its representative. */
  lemma {:induction false} KeyClassMembers<T>(cmp: (T, T) -> int, y: T, s: seq<T>, e: T)
    requires e in KeyClass(cmp, y, s)
    ensures e in s && cmp(e, y) == 0
  {
    if s != [] {
      var init := s[..|s| - 1];
      if e in KeyClass(cmp, y, init) {
        KeyClassMembers(cmp, y, init, e);
        assert s == init + [s[|s| - 1]];
      }
    }
  }

  /**
   * Inserts `x` into `s` just after the last element that does not compare greater
   * than `x`, scanning from the end, as the shifting loop of `SortInPlace` does.
   */
  function Insert<T>(cmp: (T, T) -> int, x: T, s: seq<T>): (r: seq<T>)
    ensures |r| == |s| + 1
  {
    if s == [] || cmp(s[|s| - 1], x) <= 0 then s + [x]
    else Insert(cmp, x, s[..|s| - 1]) + [s[|s| - 1]]
  }

  /** Insertion sort: the elements of `s` inserted one by one, left to right. */
  function SortSeq<T>(cmp: (T, T) -> int, s: seq<T>): (r: seq<T>)
    ensures |r| == |s|
  {
    if s == [] then []
    else Insert(cmp, s[|s| - 1], SortSeq(cmp, s[..|s| - 1]))
  }

  /** Inserting adds exactly one occurrence of `x`. */
  lemma {:induction false} InsertPermutes<T>(cmp: (T, T) -> int, x: T, s: seq<T>)
    ensures multiset(Insert(cmp, x, s)) == multiset(s) + multiset{x}
  {
    if s != [] && cmp(s[|s| - 1], x) > 0 {
      var init := s[..|s| - 1];
      InsertPermutes(cmp, x, init);
      assert s == init + [s[|s| - 1]];
    }
  }

  /** The insertion sort is a permutation of its input. */
  lemma {:induction false} SortPermutes<T>(cmp: (T, T) -> int, s: seq<T>)
    ensures multiset(SortSeq(cmp, s)) == multiset(s)
  {
    if s != [] {
      var init := s[..|s| - 1];
      SortPermutes(cmp, init);
      InsertPermutes(cmp, s[|s| - 1], SortSeq(cmp, init));
      assert s == init + [s[|s| - 1]];
    }
  }

  /** An element of a sorted sequence compares no greater than its last element. */
  lemma SortedLastIsMax<T(!new)>(cmp: (T, T) -> int, s: seq<T>, e: T)
    requires ValidComparator(cmp)
    requires Sorted(cmp, s) && e in s
    ensures cmp(e, s[|s| - 1]) <= 0
  {
    var k :| 0 <= k < |s| && s[k] == e;
    if k < |s| - 1 {
      assert cmp(s[k], s[|s| - 1]) <= 0;
    }
  }

  /** Appending an element that no earlier element exceeds keeps a sequence sorted. */
  lemma SortedSnoc<T(!new)>(cmp: (T, T) -> int, s: seq<T>, x: T)
    requires ValidComparator(cmp)
    requires Sorted(cmp, s)
    requires forall i :: 0 <= i < |s| ==> cmp(s[i], x) <= 0
    ensures Sorted(cmp, s + [x])
  {
    var r := s + [x];
    forall i, j | 0 <= i < j < |r|
      ensures cmp(r[i], r[j]) <= 0
    {
      if j < |s| {
        assert r[i] == s[i] && r[j] == s[j];
      }
    }
  }

  lemma {:induction false} InsertSorted<T(!new)>(cmp: (T, T) -> int, x: T, s: seq<T>)
    requires ValidComparator(cmp)
    requires Sorted(cmp, s)
    ensures Sorted(cmp, Insert(cmp, x, s))
  {
    if s == [] || cmp(s[|s| - 1], x) <= 0 {
      forall i | 0 <= i < |s|
        ensures cmp(s[i], x) <= 0
      {
        SortedLastIsMax(cmp, s, s[i]);
      }
      SortedSnoc(cmp, s, x);
    } else {
      var init, last := s[..|s| - 1], s[|s| - 1];
      assert Sorted(cmp, init);
      InsertSorted(cmp, x, init);
      var ins := Insert(cmp, x, init);
      InsertPermutes(cmp, x, init);
      forall i | 0 <= i < |ins|
        ensures cmp(ins[i], last) <= 0
      {
        assert ins[i] in multiset(ins);
        if ins[i] != x {
          assert ins[i] in multiset(init);
          SortedLastIsMax(cmp, s, ins[i]);
        }
      }
      SortedSnoc(cmp, ins, last);
    }
  }

  /** The insertion sort orders its output by the comparator. */
  lemma {:induction false} SortSorted<T(!new)>(cmp: (T, T) -> int, s: seq<T>)
    requires ValidComparator(cmp)
    ensures Sorted(cmp, SortSeq(cmp, s))
  {
    if s != [] {
      SortSorted(cmp, s[..|s| - 1]);
      InsertSorted(cmp, s[|s| - 1], SortSeq(cmp, s[..|s| - 1]));
    }
  }

  /** Appending one element extends a class by that element exactly when it belongs to it. */
  lemma KeyClassSnoc<T>(cmp: (T, T) -> int, y: T, s: seq<T>, x: T)
    ensures KeyClass(cmp, y, s + [x]) == KeyClass(cmp, y, s) + (if cmp(x, y) == 0 then [x] else [])
  {
    assert (s + [x])[..|s|] == s;
  }

  lemma {:induction false} KeyClassInsert<T(!new)>(cmp: (T, T) -> int, y: T, x: T, s: seq<T>)
    requires ValidComparator(cmp)
    ensures KeyClass(cmp, y, Insert(cmp, x, s))
         == KeyClass(cmp, y, s) + (if cmp(x, y) == 0 then [x] else [])
  {
    if s == [] || cmp(s[|s| - 1], x) <= 0 {
      KeyClassSnoc(cmp, y, s, x);
    } else {
      var init, last := s[..|s| - 1], s[|s| - 1];
      assert s == init + [last];
      KeyClassInsert(cmp, y, x, init);
      assert !(cmp(x, y) == 0 && cmp(last, y) == 0);
      InsertBeforeLast(cmp, x, init, last);
      KeyClassAppendSwap(cmp, y, Insert(cmp, x, init), init, x, last);
    }
  }

  /** Inserting before a greater last element leaves that element last. */
  lemma InsertBeforeLast<T>(cmp: (T, T) -> int, x: T, init: seq<T>, last: T)
    requires cmp(last, x) > 0
    ensures Insert(cmp, x, init + [last]) == Insert(cmp, x, init) + [last]
  {
    var s := init + [last];
    assert s[..|s| - 1] == init;
  }

  /**
   * The shifted case of `KeyClassInsert`, stated on plain sequences: when `x` and
   * `last` do not both belong to the class, appending `last` commutes with adding `x`.
   */
  lemma KeyClassAppendSwap<T>(cmp: (T, T) -> int, y: T, ins: seq<T>, init: seq<T>, x: T, last: T)
    requires KeyClass(cmp, y, ins) == KeyClass(cmp, y, init) + (if cmp(x, y) == 0 then [x] else [])
    requires !(cmp(x, y) == 0 && cmp(last, y) == 0)
    ensures KeyClass(cmp, y, ins + [last])
         == KeyClass(cmp, y, init + [last]) + (if cmp(x, y) == 0 then [x] else [])
  {
    KeyClassSnoc(cmp, y, ins, last);
    KeyClassSnoc(cmp, y, init, last);
    if cmp(x, y) == 0 {
      assert KeyClass(cmp, y, ins + [last]) == KeyClass(cmp, y, ins);
      assert KeyClass(cmp, y, init + [last]) == KeyClass(cmp, y, init);
    } else {
      assert KeyClass(cmp, y, ins) == KeyClass(cmp, y, init);
    }
  }

  /** Stability: sorting keeps every class of equal elements in its original order. */
  lemma {:induction false} SortStable<T(!new)>(cmp: (T, T) -> int, y: T, s: seq<T>)
    requires ValidComparator(cmp)
    ensures KeyClass(cmp, y, SortSeq(cmp, s)) == KeyClass(cmp, y, s)
  {
    if s != [] {
      var init := s[..|s| - 1];
      SortStable(cmp, y, init);
      KeyClassInsert(cmp, y, s[|s| - 1], SortSeq(cmp, init));
    }
  }

  lemma KeyClassHasLast<T(!new)>(cmp: (T, T) -> int, y: T, s: seq<T>)
    requires ValidComparator(cmp)
    requires s != [] && cmp(s[|s| - 1], y) == 0
    ensures KeyClass(cmp, y, s) != [] && KeyClass(cmp, y, s)[|KeyClass(cmp, y, s)| - 1] == s[|s| - 1]
  {
  }

  /** Two sorted sequences that agree on every class end with the same element. */
  lemma LastsAgree<T(!new)>(cmp: (T, T) -> int, r1: seq<T>, r2: seq<T>)
    requires ValidComparator(cmp)
    requires Sorted(cmp, r1) && Sorted(cmp, r2) && r1 != [] && r2 != []
    requires forall y :: KeyClass(cmp, y, r1) == KeyClass(cmp, y, r2)
    ensures r1[|r1| - 1] == r2[|r2| - 1]
  {
    var a, b := r1[|r1| - 1], r2[|r2| - 1];
    KeyClassHasLast(cmp, b, r2);
    assert b in KeyClass(cmp, b, r1);
    KeyClassMembers(cmp, b, r1, b);
    SortedLastIsMax(cmp, r1, b);
    KeyClassHasLast(cmp, a, r1);
    assert a in KeyClass(cmp, a, r2);
    KeyClassMembers(cmp, a, r2, a);
    SortedLastIsMax(cmp, r2, a);
    assert cmp(b, a) == 0;
    KeyClassHasLast(cmp, a, r2);
  }

  /** Removing the same last element from two sequences keeps them agreeing on a class. */
  lemma InitsAgree<T>(cmp: (T, T) -> int, y: T, init1: seq<T>, init2: seq<T>, a: T)
    requires KeyClass(cmp, y, init1 + [a]) == KeyClass(cmp, y, init2 + [a])
    ensures KeyClass(cmp, y, init1) == KeyClass(cmp, y, init2)
  {
    var k1, k2 := KeyClass(cmp, y, init1), KeyClass(cmp, y, init2);
    var tail := if cmp(a, y) == 0 then [a] else [];
    assert (init1 + [a])[..|init1|] == init1;
    assert (init2 + [a])[..|init2|] == init2;
    assert k1 + tail == k2 + tail;
    assert k1 == (k1 + tail)[..|k1|];
    assert k2 == (k2 + tail)[..|k2|];
  }

  /**
   * Two sorted sequences that agree on every class of equal elements are equal:
   * a sorted, stable rearrangement is unique, whatever algorithm produced it.
   */
  lemma {:induction false} SortedStableUnique<T(!new)>(cmp: (T, T) -> int, r1: seq<T>, r2: seq<T>)
    requires ValidComparator(cmp)
    requires Sorted(cmp, r1) && Sorted(cmp, r2)
    requires forall y :: KeyClass(cmp, y, r1) == KeyClass(cmp, y, r2)
    ensures r1 == r2
    decreases |r1|
  {
    if r1 == [] && r2 != [] {
      KeyClassHasLast(cmp, r2[|r2| - 1], r2);
    } else if r1 != [] && r2 == [] {
      KeyClassHasLast(cmp, r1[|r1| - 1], r1);
    } else if r1 != [] {
      LastsAgree(cmp, r1, r2);
      var init1, init2, a := r1[..|r1| - 1], r2[..|r2| - 1], r1[|r1| - 1];
      assert r1 == init1 + [a] && r2 == init2 + [a];
      forall y
        ensures KeyClass(cmp, y, init1) == KeyClass(cmp, y, init2)
      {
        InitsAgree(cmp, y, init1, init2, a);
      }
      assert Sorted(cmp, init1) && Sorted(cmp, init2);
      SortedStableUnique(cmp, init1, init2);
    }
  }

  /** Any sorted rearrangement of `s` that keeps every class in order is `SortSeq(cmp, s)`. */
  lemma StableSortIsSortSeq<T(!new)>(cmp: (T, T) -> int, s: seq<T>, r: seq<T>)
    requires ValidComparator(cmp)
    requires Sorted(cmp, r)
    requires forall y :: KeyClass(cmp, y, r) == KeyClass(cmp, y, s)
    ensures r == SortSeq(cmp, s)
  {
    SortSorted(cmp, s);
    forall y
      ensures KeyClass(cmp, y, r) == KeyClass(cmp, y, SortSeq(cmp, s))
    {
      SortStable(cmp, y, s);
    }
    SortedStableUnique(cmp, r, SortSeq(cmp, s));
  }

  /**
   * Where `Insert` puts `x`: right after the last element that does not compare
   * greater than it, all later elements comparing greater.
   */
  lemma {:induction false} InsertAtGap<T>(cmp: (T, T) -> int, x: T, s: seq<T>, j: nat)
    requires j <= |s|
    requires j == 0 || cmp(s[j - 1], x) <= 0
    requires forall k :: j <= k < |s| ==> cmp(s[k], x) > 0
    ensures Insert(cmp, x, s) == s[..j] + [x] + s[j..]
    decreases |s|
  {
    if j == |s| {
      assert s[..j] == s && s[j..] == [];
    } else {
      var init, last := s[..|s| - 1], s[|s| - 1];
      InsertAtGap(cmp, x, init, j);
      assert init[..j] == s[..j];
      assert init[j..] + [last] == s[j..];
    }
  }

  /** The array prefix after the shifting loop: `x` sits in the gap at `j`. */
  lemma FillGap<T>(r: seq<T>, sorted: seq<T>, x: T, j: nat)
    requires |r| == |sorted| + 1 && j <= |sorted|
    requires forall k :: 0 <= k < j ==> r[k] == sorted[k]
    requires r[j] == x
    requires forall k :: j < k < |r| ==> r[k] == sorted[k - 1]
    ensures r == sorted[..j] + [x] + sorted[j..]
  {
    var inserted := sorted[..j] + [x] + sorted[j..];
    forall k | 0 <= k < |r|
      ensures r[k] == inserted[k]
    {
      if k > j {
        assert inserted[k] == sorted[j..][k - j - 1];
      }
    }
  }

  /**
   * Inserts `a[i]` into the prefix `a[..i]` by shifting the elements that compare
   * greater than it one slot to the right; the rest of the array is untouched.
   */
  method InsertInPlace<T>(a: array<T>, i: nat, cmp: (T, T) -> int)
    requires i < a.Length
    modifies a
    ensures a[..i + 1] == Insert(cmp, old(a[i]), old(a[..i]))
    ensures a[i + 1..] == old(a[i + 1..])
  {
    var x := a[i];
    ghost var sorted := a[..i];
    var j := i;
    while j > 0 && cmp(a[j - 1], x) > 0
      invariant 0 <= j <= i
      invariant forall k :: 0 <= k < j ==> a[k] == sorted[k]
      invariant forall k :: j < k <= i ==> a[k] == sorted[k - 1]
      invariant forall k :: j <= k < i ==> cmp(sorted[k], x) > 0
      invariant a[i + 1..] == old(a[i + 1..])
    {
      a[j] := a[j - 1];
      j := j - 1;
    }
    a[j] := x;
    InsertAtGap(cmp, x, sorted, j);
    FillGap(a[..i + 1], sorted, x, j);
  }

  /** Sorting one more element of `s` inserts it into the sort of the elements before it. */
  lemma SortSeqPrefixStep<T>(cmp: (T, T) -> int, s: seq<T>, i: nat)
    requires i < |s|
    ensures SortSeq(cmp, s[..i + 1]) == Insert(cmp, s[i], SortSeq(cmp, s[..i]))
  {
    assert s[..i + 1][..i] == s[..i];
  }

  /** The tail of `s` from `i` is `s[i]` followed by the tail from `i + 1`. */
  lemma TailStep<T>(s: seq<T>, t: seq<T>, i: nat)
    requires i < |s| && |s| == |t| && s[i..] == t[i..]
    ensures s[i] == t[i] && s[i + 1..] == t[i + 1..]
  {
    assert s[i..][0] == s[i] && t[i..][0] == t[i];
    assert s[i + 1..] == s[i..][1..] && t[i + 1..] == t[i..][1..];
  }

  /**
   * In-place insertion sort of `a` (the sort of a freshly built array): each element
   * is inserted into the sorted prefix before it.
   */
  method SortInPlace<T>(a: array<T>, cmp: (T, T) -> int)
    modifies a
    ensures a[..] == SortSeq(cmp, old(a[..]))
  {
    ghost var orig := a[..];
    var i := 0;
    while i < a.Length
      invariant 0 <= i <= a.Length
      invariant a[..i] == SortSeq(cmp, orig[..i])
      invariant a[i..] == orig[i..]
    {
      ghost var before := a[..];
      TailStep(before, orig, i);
      InsertInPlace(a, i, cmp);
      SortSeqPrefixStep(cmp, orig, i);
      i := i + 1;
    }
    assert a[..a.Length] == a[..] && orig[..a.Length] == orig;
  }
}
