/** Sums of sequences, and facts about sequences and multisets that several proofs use. */
module Sequences {
  function Sum(values: seq<real>): real {
    if values == [] then 0.0 else Sum(values[..|values| - 1]) + values[|values| - 1]
  }

  lemma SumOfAppended(values: seq<real>, value: real)
    ensures Sum(values + [value]) == Sum(values) + value
  {
    assert (values + [value])[..|values|] == values;
  }

  /** Where in the list the test holds. */
  ghost function Positions<T>(s: seq<T>, test: T -> bool): set<int> {
    set i | 0 <= i < |s| && test(s[i])
  }

  lemma PositionsOfLast<T>(s: seq<T>, test: T -> bool)
    requires s != []
    ensures var front, last := s[..|s| - 1], s[|s| - 1];
      |Positions(s, test)| == |Positions(front, test)| + if test(last) then 1 else 0
  {
    var front, last := s[..|s| - 1], s[|s| - 1];
    assert Positions(s, test) == Positions(front, test) + if test(last) then {|front|} else {};
  }

  function Average(values: seq<real>): real
    requires values != []
  {
    Sum(values) / |values| as real
  }

  lemma CountOfAppended<T>(s: seq<T>, x: T, y: T)
    ensures multiset(s + [x])[y] == multiset(s)[y] + if x == y then 1 else 0
  {
  }

  lemma Regroup<T>(a: seq<T>, b: seq<T>, c: seq<T>)
    ensures (a + b) + c == a + (b + c)
  {
  }

  lemma TailOfBoth<T>(a: seq<T>, b: seq<T>)
    requires a != []
    ensures (a + b)[1..] == a[1..] + b && (a + b)[0] == a[0]
  {
  }

  lemma LastMovesOut<T>(s: seq<T>, t: seq<T>)
    requires t != []
    ensures s + t == (s + t[..|t| - 1]) + [t[|t| - 1]]
  {
  }

  lemma SplitAround<T>(s: seq<T>, i: nat)
    requires i < |s|
    ensures s == (s[..i] + [s[i]]) + s[i + 1..]
  {
  }

  lemma TakeAll<T>(s: seq<T>)
    ensures s[..|s|] == s
  {
  }

  lemma TakeFewer<T>(s: seq<T>, n: nat, k: nat)
    requires k <= n <= |s|
    ensures s[..n][..k] == s[..k]
  {
  }

  lemma TakeMore<T>(s: seq<T>, n: nat, j: nat)
    requires n + j <= |s|
    ensures s[..n] + s[n..][..j] == s[..n + j]
  {
  }

  lemma SameEnd<T>(first: seq<T>, second: seq<T>, end: seq<T>)
    requires first + end == second + end
    ensures first == second
  {
    assert |first| == |second|;
    assert (first + end)[..|first|] == first && (second + end)[..|first|] == second;
  }

  lemma SameElements<T>(s: seq<T>, t: seq<T>)
    requires multiset(s) == multiset(t)
    ensures forall x :: x in s <==> x in t
    ensures |s| == |t|
  {
    assert forall x :: x in s <==> x in multiset(s);
    assert |multiset(s)| == |s| && |multiset(t)| == |t|;
  }

  lemma TwiceCounts<T>(s: seq<T>, i: nat, j: nat)
    requires i < j < |s| && s[i] == s[j]
    ensures multiset(s)[s[i]] >= 2
  {
    assert s == s[..i] + [s[i]] + s[i + 1..j] + [s[j]] + s[j + 1..];
  }

  function Without<T>(s: seq<T>, i: nat): seq<T>
    requires i < |s|
  {
    s[..i] + s[i + 1..]
  }

  /** A permutation puts the last element of one list somewhere in the other. */
  lemma FindLast<T>(s: seq<T>, t: seq<T>) returns (i: nat)
    requires s != [] && multiset(s) == multiset(t)
    ensures i < |t| && t[i] == s[|s| - 1] && multiset(Without(t, i)) == multiset(s[..|s| - 1])
  {
    var last := s[|s| - 1];
    assert last in multiset(t);
    i :| 0 <= i < |t| && t[i] == last;
    assert t == t[..i] + [t[i]] + t[i + 1..];
    assert Without(t, i) == t[..i] + t[i + 1..];
    assert multiset(Without(t, i)) == multiset(t) - multiset{last};
    assert s == s[..|s| - 1] + [last];
  }
}
