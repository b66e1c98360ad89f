/**
 Comparators as used with `cmp_to_key`, the stable sort they drive, and the order of strings
 by code point.
 */
module Ordering {
  import opened Sequences

  type Comparator<!T> = (T, T) -> int

  ghost predicate Opposed<T>(cmp: Comparator<T>, a: T, b: T) {
    cmp(a, b) < 0 <==> cmp(b, a) > 0
  }

  ghost predicate Chained<T>(cmp: Comparator<T>, a: T, b: T, c: T) {
    cmp(a, b) <= 0 && cmp(b, c) <= 0 ==> cmp(a, c) <= 0
  }

  /** A total preorder: antisymmetric in sign and transitive. */
  ghost predicate IsOrder<T(!new)>(cmp: Comparator<T>) {
    && (forall a, b :: Opposed(cmp, a, b))
    && (forall a, b, c :: Chained(cmp, a, b, c))
  }

  ghost predicate Sorted<T>(cmp: Comparator<T>, s: seq<T>) {
    forall i, j :: 0 <= i < j < |s| ==> cmp(s[i], s[j]) <= 0
  }

  ghost predicate StrictlySorted<T>(cmp: Comparator<T>, s: seq<T>) {
    forall i, j :: 0 <= i < j < |s| ==> cmp(s[i], s[j]) < 0
  }

  function Insert<T>(cmp: Comparator<T>, x: T, s: seq<T>): seq<T> {
    if s == [] then [x]
    else if cmp(x, s[0]) < 0 then [x] + s
    else [s[0]] + Insert(cmp, x, s[1..])
  }

  /** The stable sort: an element goes after those it compares equal to. */
  function Sort<T>(cmp: Comparator<T>, s: seq<T>): seq<T> {
    if s == [] then [] else Insert(cmp, s[|s| - 1], Sort(cmp, s[..|s| - 1]))
  }

  lemma {:induction false} InsertKeepsElements<T>(cmp: Comparator<T>, x: T, s: seq<T>)
    ensures multiset(Insert(cmp, x, s)) == multiset(s) + multiset{x}
  {
    if s != [] && cmp(x, s[0]) >= 0 {
      InsertKeepsElements(cmp, x, s[1..]);
      assert s == [s[0]] + s[1..];
    }
  }

  lemma {:induction false} InsertKeepsSorted<T(!new)>(cmp: Comparator<T>, x: T, s: seq<T>)
    requires IsOrder(cmp) && Sorted(cmp, s)
    ensures Sorted(cmp, Insert(cmp, x, s))
  {
    if s != [] {
      if cmp(x, s[0]) < 0 {
        forall j | 0 <= j < |s|
          ensures cmp(x, s[j]) <= 0
        {
          assert Chained(cmp, x, s[0], s[j]);
          assert j == 0 || cmp(s[0], s[j]) <= 0;
        }
      } else {
        var rest := Insert(cmp, x, s[1..]);
        InsertKeepsSorted(cmp, x, s[1..]);
        InsertKeepsElements(cmp, x, s[1..]);
        forall j | 0 <= j < |rest|
          ensures cmp(s[0], rest[j]) <= 0
        {
          assert rest[j] in multiset(rest);
          if rest[j] == x {
            assert Opposed(cmp, x, s[0]) && Opposed(cmp, s[0], x);
          } else {
            assert rest[j] in s[1..];
          }
        }
      }
    }
  }

  lemma {:induction false} SortSorts<T(!new)>(cmp: Comparator<T>, s: seq<T>)
    requires IsOrder(cmp)
    ensures Sorted(cmp, Sort(cmp, s))
    ensures multiset(Sort(cmp, s)) == multiset(s)
  {
    if s != [] {
      var front, last := s[..|s| - 1], s[|s| - 1];
      SortSorts(cmp, front);
      InsertKeepsSorted(cmp, last, Sort(cmp, front));
      InsertKeepsElements(cmp, last, Sort(cmp, front));
      assert s == front + [last];
    }
  }

  // ---------- Stability ----------

  /** The elements that tie with `x`, in the order of the list. */
  function Tied<T>(cmp: Comparator<T>, x: T, s: seq<T>): seq<T> {
    if s == [] then [] else (if cmp(x, s[0]) == 0 then [s[0]] else []) + Tied(cmp, x, s[1..])
  }

  lemma {:induction false} TiedOfBoth<T>(cmp: Comparator<T>, x: T, s: seq<T>, t: seq<T>)
    ensures Tied(cmp, x, s + t) == Tied(cmp, x, s) + Tied(cmp, x, t)
  {
    if s == [] {
      assert s + t == t;
    } else {
      TiedOfBoth(cmp, x, s[1..], t);
      TailOfBoth(s, t);
      Regroup(if cmp(x, s[0]) == 0 then [s[0]] else [], Tied(cmp, x, s[1..]), Tied(cmp, x, t));
    }
  }

  lemma TiedOfOne<T>(cmp: Comparator<T>, x: T, y: T)
    ensures Tied(cmp, x, [y]) == if cmp(x, y) == 0 then [y] else []
  {
  }

  lemma {:induction false} NoneTied<T>(cmp: Comparator<T>, x: T, s: seq<T>)
    requires forall i :: 0 <= i < |s| ==> cmp(x, s[i]) != 0
    ensures Tied(cmp, x, s) == []
  {
    if s != [] {
      NoneTied(cmp, x, s[1..]);
    }
  }

  /** What comes after `y`, which ties with `x`, comes after `x`. */
  lemma TiesAgree<T(!new)>(cmp: Comparator<T>, x: T, y: T, z: T)
    requires IsOrder(cmp) && cmp(x, y) == 0 && cmp(y, z) < 0
    ensures cmp(x, z) < 0
  {
    assert Opposed(cmp, y, z) && Opposed(cmp, x, z) && Chained(cmp, z, x, y);
  }

  lemma NoneTiedAbove<T(!new)>(cmp: Comparator<T>, x: T, y: T, s: seq<T>)
    requires IsOrder(cmp) && Sorted(cmp, s) && s != [] && cmp(y, s[0]) < 0 && cmp(x, y) == 0
    ensures Tied(cmp, x, s) == []
  {
    forall i | 0 <= i < |s|
      ensures cmp(x, s[i]) != 0
    {
      TiesAgree(cmp, x, y, s[0]);
      assert i == 0 || cmp(s[0], s[i]) <= 0;
      assert Opposed(cmp, x, s[0]) && Opposed(cmp, x, s[i]) && Chained(cmp, s[0], s[i], x);
    }
    NoneTied(cmp, x, s);
  }

  lemma {:induction false} InsertIsStable<T(!new)>(cmp: Comparator<T>, x: T, y: T, s: seq<T>)
    requires IsOrder(cmp) && Sorted(cmp, s)
    ensures Tied(cmp, x, Insert(cmp, y, s)) == Tied(cmp, x, s) + Tied(cmp, x, [y])
  {
    TiedOfOne(cmp, x, y);
    if s != [] {
      if cmp(y, s[0]) >= 0 {
        InsertIsStable(cmp, x, y, s[1..]);
        assert Insert(cmp, y, s)[1..] == Insert(cmp, y, s[1..]);
        Regroup(if cmp(x, s[0]) == 0 then [s[0]] else [], Tied(cmp, x, s[1..]), Tied(cmp, x, [y]));
      } else {
        assert ([y] + s)[1..] == s;
        if cmp(x, y) == 0 {
          NoneTiedAbove(cmp, x, y, s);
        }
      }
    }
  }

  /** The sort is stable: elements that tie stay in the order of the input. */
  lemma {:induction false} SortIsStable<T(!new)>(cmp: Comparator<T>, s: seq<T>, x: T)
    requires IsOrder(cmp)
    ensures Tied(cmp, x, Sort(cmp, s)) == Tied(cmp, x, s)
  {
    if s != [] {
      var front, last := s[..|s| - 1], s[|s| - 1];
      SortIsStable(cmp, front, x);
      assert Sorted(cmp, Sort(cmp, front)) by {
        SortSorts(cmp, front);
      }
      InsertIsStable(cmp, x, last, Sort(cmp, front));
      TiedOfBoth(cmp, x, front, [last]);
      assert s == front + [last];
    }
  }

  // ---------- Uniqueness of the sorted list ----------

  lemma HeadIsLeast<T(!new)>(cmp: Comparator<T>, s: seq<T>, x: T)
    requires IsOrder(cmp) && Sorted(cmp, s) && x in s
    ensures cmp(s[0], x) <= 0
  {
    var i :| 0 <= i < |s| && s[i] == x;
    assert Opposed(cmp, x, x);
  }

  /** There is one sorted arrangement of elements that only compare equal to themselves. */
  lemma {:induction false} SortedArrangementIsUnique<T(!new)>(cmp: Comparator<T>, s: seq<T>, t: seq<T>)
    requires IsOrder(cmp) && Sorted(cmp, s) && Sorted(cmp, t)
    requires multiset(s) == multiset(t)
    requires forall a, b :: a in s && b in s && cmp(a, b) == 0 ==> a == b
    ensures s == t
  {
    assert |multiset(s)| == |s| && |multiset(t)| == |t|;
    if s != [] {
      assert t[0] in multiset(t) && s[0] in multiset(s);
      HeadIsLeast(cmp, s, t[0]);
      HeadIsLeast(cmp, t, s[0]);
      assert Opposed(cmp, s[0], t[0]);
      assert t[0] in s && s[0] == t[0];
      TailElements(s);
      TailElements(t);
      SortedArrangementIsUnique(cmp, s[1..], t[1..]);
    }
  }

  lemma TailElements<T>(s: seq<T>)
    requires s != []
    ensures multiset(s[1..]) == multiset(s) - multiset{s[0]}
  {
    assert s == [s[0]] + s[1..];
  }

  /** Two strictly sorted lists with the same elements are the same list. */
  lemma {:induction false} StrictlySortedIsUnique<T(!new)>(cmp: Comparator<T>, s: seq<T>, t: seq<T>)
    requires IsOrder(cmp) && StrictlySorted(cmp, s) && StrictlySorted(cmp, t)
    requires forall x :: x in s <==> x in t
    ensures s == t
  {
    assert s != [] ==> s[0] in s;
    assert t != [] ==> t[0] in t;
    if s != [] {
      HeadIsLeast(cmp, s, t[0]);
      HeadIsLeast(cmp, t, s[0]);
      assert Opposed(cmp, s[0], t[0]) && Opposed(cmp, t[0], s[0]);
      forall x
        ensures x in s[1..] <==> x in t[1..]
      {
        TailExcludesHead(cmp, s, x);
        TailExcludesHead(cmp, t, x);
      }
      StrictlySortedIsUnique(cmp, s[1..], t[1..]);
    }
  }

  lemma TailExcludesHead<T(!new)>(cmp: Comparator<T>, s: seq<T>, x: T)
    requires IsOrder(cmp) && StrictlySorted(cmp, s) && s != []
    ensures x in s[1..] <==> x in s && x != s[0]
  {
    assert Opposed(cmp, s[0], s[0]);
    if x in s[1..] {
      var k :| 0 <= k < |s[1..]| && s[1..][k] == x;
      assert cmp(s[0], s[k + 1]) < 0;
    }
  }

  // ---------- When the input order matters ----------

  lemma {:induction false} InsertLast<T>(cmp: Comparator<T>, x: T, s: seq<T>)
    requires forall i :: 0 <= i < |s| ==> cmp(x, s[i]) >= 0
    ensures Insert(cmp, x, s) == s + [x]
  {
    if s != [] {
      InsertLast(cmp, x, s[1..]);
      assert s == [s[0]] + s[1..];
    }
  }

  /** Sorting leaves a sorted list as it is, ties included. */
  lemma {:induction false} SortedIsFixed<T(!new)>(cmp: Comparator<T>, s: seq<T>)
    requires IsOrder(cmp) && Sorted(cmp, s)
    ensures Sort(cmp, s) == s
  {
    if s != [] {
      var front, last := s[..|s| - 1], s[|s| - 1];
      SortedIsFixed(cmp, front);
      forall i | 0 <= i < |front|
        ensures cmp(last, front[i]) >= 0
      {
        assert cmp(s[i], s[|s| - 1]) <= 0;
        assert Opposed(cmp, last, front[i]);
      }
      InsertLast(cmp, last, front);
    }
  }

  /** The list with the elements at two places exchanged. */
  function Exchange<T>(s: seq<T>, i: nat, j: nat): seq<T>
    requires i < |s| && j < |s|
  {
    s[i := s[j]][j := s[i]]
  }

  lemma ExchangedTies<T(!new)>(cmp: Comparator<T>, s: seq<T>, i: nat, j: nat)
    requires IsOrder(cmp) && Sorted(cmp, s)
    requires i < |s| && j < |s| && cmp(s[i], s[j]) == 0
    ensures Sorted(cmp, Exchange(s, i, j))
    ensures multiset(Exchange(s, i, j)) == multiset(s)
  {
    var t := Exchange(s, i, j);
    forall k | 0 <= k < |s|
      ensures cmp(t[k], s[k]) <= 0 && cmp(s[k], t[k]) <= 0
    {
      assert Opposed(cmp, s[k], s[k]) && Opposed(cmp, s[i], s[j]) && Opposed(cmp, s[j], s[i]);
    }
    forall k, l | 0 <= k < l < |s|
      ensures cmp(t[k], t[l]) <= 0
    {
      assert Chained(cmp, t[k], s[k], s[l]) && Chained(cmp, t[k], s[l], t[l]);
    }
  }

  /** Every arrangement of the elements sorts to the same list. */
  ghost predicate OrderIrrelevant<T(!new)>(cmp: Comparator<T>, s: seq<T>) {
    forall t: seq<T> :: multiset(t) == multiset(s) ==> Sort(cmp, t) == Sort(cmp, s)
  }

  ghost predicate OnlySelfTies<T>(cmp: Comparator<T>, s: seq<T>) {
    forall a, b :: a in s && b in s && cmp(a, b) == 0 ==> a == b
  }

  /** The input order is irrelevant exactly when no two different elements tie. */
  lemma OrderMattersOnTies<T(!new)>(cmp: Comparator<T>, s: seq<T>)
    requires IsOrder(cmp)
    ensures OrderIrrelevant(cmp, s) <==> OnlySelfTies(cmp, s)
  {
    SortSorts(cmp, s);
    if OnlySelfTies(cmp, s) {
      SameElements(Sort(cmp, s), s);
      forall t: seq<T> | multiset(t) == multiset(s)
        ensures Sort(cmp, t) == Sort(cmp, s)
      {
        SortSorts(cmp, t);
        SortedArrangementIsUnique(cmp, Sort(cmp, s), Sort(cmp, t));
      }
    }
    if OrderIrrelevant(cmp, s) {
      forall a, b | a in s && b in s && cmp(a, b) == 0
        ensures a == b
      {
        TieIsSame(cmp, s, a, b);
      }
    }
  }

  lemma TieIsSame<T(!new)>(cmp: Comparator<T>, s: seq<T>, a: T, b: T)
    requires IsOrder(cmp) && OrderIrrelevant(cmp, s) && a in s && b in s && cmp(a, b) == 0
    ensures a == b
  {
    var sorted := Sort(cmp, s);
    SortSorts(cmp, s);
    SameElements(sorted, s);
    var i :| 0 <= i < |sorted| && sorted[i] == a;
    var j :| 0 <= j < |sorted| && sorted[j] == b;
    ExchangedTies(cmp, sorted, i, j);
    SortedIsFixed(cmp, Exchange(sorted, i, j));
    assert Exchange(sorted, i, j)[i] == b || i == j;
  }

  // ---------- Strings ----------

  /** Strings by code point, a proper prefix first. */
  function CompareText(a: string, b: string): int {
    if a == [] then if b == [] then 0 else -1
    else if b == [] then 1
    else if a[0] < b[0] then -1
    else if b[0] < a[0] then 1
    else CompareText(a[1..], b[1..])
  }

  /** The texts agree up to `k`, where the first ends or has the smaller character. */
  ghost predicate SmallerAt(a: string, b: string, k: int) {
    0 <= k <= |a| && k < |b| && a[..k] == b[..k] && (k == |a| || a[k] < b[k])
  }

  /** The order of strings: decided where they first differ. */
  lemma {:induction false} CompareTextExactly(a: string, b: string)
    ensures CompareText(a, b) < 0 <==> exists k :: SmallerAt(a, b, k)
  {
    if a != [] && b != [] && a[0] == b[0] {
      CompareTextExactly(a[1..], b[1..]);
      if k :| SmallerAt(a[1..], b[1..], k) {
        assert a[..k + 1] == [a[0]] + a[1..][..k] && b[..k + 1] == [b[0]] + b[1..][..k];
        assert SmallerAt(a, b, k + 1);
      }
      if k :| SmallerAt(a, b, k) {
        assert k > 0;
        assert a[1..][..k - 1] == a[..k][1..] && b[1..][..k - 1] == b[..k][1..];
        assert SmallerAt(a[1..], b[1..], k - 1);
      }
    } else {
      assert b != [] && (a == [] || a[0] < b[0]) ==> SmallerAt(a, b, 0);
    }
  }

  lemma {:induction false} CompareTextReverses(a: string, b: string)
    ensures CompareText(a, b) == -CompareText(b, a)
    ensures CompareText(a, b) == 0 <==> a == b
  {
    if a != [] && b != [] && a[0] == b[0] {
      CompareTextReverses(a[1..], b[1..]);
      assert a == [a[0]] + a[1..] && b == [b[0]] + b[1..];
    }
  }

  lemma {:induction false} CompareTextTransitive(a: string, b: string, c: string)
    requires CompareText(a, b) <= 0 && CompareText(b, c) <= 0
    ensures CompareText(a, c) <= 0
  {
    if a != [] && b != [] && c != [] && a[0] == b[0] == c[0] {
      CompareTextTransitive(a[1..], b[1..], c[1..]);
    }
  }

  lemma {:induction false} TextIsOrdered()
    ensures IsOrder(CompareText)
  {
    forall a, b
      ensures Opposed(CompareText, a, b)
    {
      CompareTextReverses(a, b);
    }
    forall a, b, c
      ensures Chained(CompareText, a, b, c)
    {
      if CompareText(a, b) <= 0 && CompareText(b, c) <= 0 {
        CompareTextTransitive(a, b, c);
      }
    }
  }

  // ---------- Lexicographic comparison ----------

  /** `comparison or rest`. */
  function Then(comparison: int, rest: int): int {
    if comparison != 0 then comparison else rest
  }

  function Sign(x: int): int {
    if x < 0 then -1 else if x > 0 then 1 else 0
  }

  /** How three comparisons of a total preorder fit together. */
  predicate Fits(ab: int, bc: int, ac: int) {
    ab <= 0 && bc <= 0 ==> Sign(ac) == if ab < 0 || bc < 0 then -1 else 0
  }

  lemma TextFits(a: string, b: string, c: string)
    ensures Fits(CompareText(a, b), CompareText(b, c), CompareText(a, c))
  {
    CompareTextReverses(a, b);
    CompareTextReverses(b, c);
    CompareTextReverses(a, c);
    if CompareText(a, b) <= 0 && CompareText(b, c) <= 0 {
      CompareTextTransitive(a, b, c);
      if a == c {
        assert CompareText(b, a) <= 0;
      }
    }
  }
}
