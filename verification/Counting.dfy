/** Counting elements of sets and sequences. */
module Counting {

  lemma {:induction false} SubsetCount<T>(a: set<T>, b: set<T>)
    requires a <= b
    ensures |a| <= |b|
  {
    if a != {} {
      var x :| x in a;
      SubsetCount(a - {x}, b - {x});
    }
  }

  function Below(n: nat): (r: set<int>)
    ensures |r| == n && forall k :: k in r <==> 0 <= k < n
  {
    if n == 0 then {} else Below(n - 1) + {n - 1}
  }

  function Elements(numbers: seq<int>): (r: set<int>)
    ensures forall k :: k in r <==> k in numbers
  {
    if numbers == [] then {} else Elements(numbers[..|numbers| - 1]) + {numbers[|numbers| - 1]}
  }

  predicate Distinct(numbers: seq<int>) {
    forall i, j :: 0 <= i < j < |numbers| ==> numbers[i] != numbers[j]
  }

  lemma {:induction false} ElementsCount(numbers: seq<int>)
    requires Distinct(numbers)
    ensures |Elements(numbers)| == |numbers|
  {
    if numbers != [] {
      var n := |numbers| - 1;
      ElementsCount(numbers[..n]);
      assert numbers[n] !in numbers[..n];
    }
  }

  /** There are at most n distinct numbers below n. */
  lemma DistinctBelow(numbers: seq<int>, n: nat)
    requires Distinct(numbers) && forall i :: 0 <= i < |numbers| ==> 0 <= numbers[i] < n
    ensures |numbers| <= n
  {
    ElementsCount(numbers);
    SubsetCount(Elements(numbers), Below(n));
  }
}
