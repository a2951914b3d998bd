/** Shared vocabulary: optional values, results, and facts about duplicate-free sequences. */
module Prelude {

  /** A task's name, which is also its node in the dependency graph. */
  datatype Name = Name(text: string)

  datatype Option<+T> = None | Some(value: T)

  datatype Result<+T, +E> = Success(value: T) | Failure(error: E)

  ghost predicate NoDup<T>(s: seq<T>)
  {
    forall i, j :: 0 <= i < j < |s| ==> s[i] != s[j]
  }

  function Elems<T>(s: seq<T>): set<T>
  {
    set x | x in s
  }

  /** A duplicate-free sequence has as many entries as it has distinct entries. */
  lemma {:induction false} NoDupCardinality<T>(s: seq<T>)
    requires NoDup(s)
    ensures |Elems(s)| == |s|
  {
    if s == [] {
      assert Elems(s) == {};
    } else {
      var front, last := s[..|s| - 1], s[|s| - 1];
      NoDupCardinality(front);
      assert last !in front;
      assert s == front + [last];
      assert Elems(s) == Elems(front) + {last};
    }
  }

  lemma SubsetCardinality<T>(a: set<T>, b: set<T>)
    requires a <= b
    ensures |a| <= |b|
    ensures |a| == |b| ==> a == b
  {
    assert b == a + (b - a);
  }

  lemma SmallerSubset<T>(a: set<T>, b: set<T>)
    requires a <= b && |a| < |b|
    ensures b - a != {}
  {
    assert |b - a| == |b| - |a|;
  }

  lemma Pick<T>(s: set<T>) returns (x: T)
    requires s != {}
    ensures x in s
  {
    x :| x in s;
  }

  /** Sum of a weight over the entries of a sequence. */
  function Sum<T>(s: seq<T>, weight: T -> nat): nat
  {
    if s == [] then 0 else weight(s[0]) + Sum(s[1..], weight)
  }

  /** Raising no weight keeps the sum from growing, and lowering one weight by k lowers the sum by k. */
  lemma {:induction false} SumDrops<T>(s: seq<T>, before: T -> nat, after: T -> nat, k: nat)
    requires forall x :: x in s ==> after(x) <= before(x)
    ensures Sum(s, after) <= Sum(s, before)
    ensures (exists x :: x in s && after(x) + k <= before(x)) ==> Sum(s, after) + k <= Sum(s, before)
  {
    if s != [] {
      assert s[0] in s;
      forall x | x in s[1..] ensures x in s {}
      SumDrops(s[1..], before, after, k);
      if x :| x in s && after(x) + k <= before(x) {
        if x in s[1..] {
          assert Sum(s[1..], after) + k <= Sum(s[1..], before);
        } else {
          assert x == s[0];
        }
      }
    }
  }

  lemma OneMoreTimes(n: nat, bound: nat)
    ensures (n + 1) * bound == n * bound + bound
  {
  }

  /** A sum is bounded by the number of entries times a bound on each of them. */
  lemma {:induction false} SumBounded<T>(s: seq<T>, weight: T -> nat, bound: nat)
    requires forall x :: x in s ==> weight(x) <= bound
    ensures Sum(s, weight) <= |s| * bound
  {
    if s != [] {
      var rest := s[1..];
      assert s[0] in s;
      forall x | x in rest ensures x in s {}
      SumBounded(rest, weight, bound);
      OneMoreTimes(|rest|, bound);
    }
  }
}
