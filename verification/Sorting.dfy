/** A stable sort by a total preorder, as `sorted(items, key=...)`. */
module Sorting {

  ghost predicate TotalPreorder<T(!new)>(leq: (T, T) -> bool) {
    && (forall a, b :: leq(a, b) || leq(b, a))
    && (forall a, b, c :: leq(a, b) && leq(b, c) ==> leq(a, c))
  }

  predicate SortedBy<T>(leq: (T, T) -> bool, s: seq<T>) {
    forall i, j :: 0 <= i < j < |s| ==> leq(s[i], s[j])
  }

  /** Puts `x` behind every element it does not precede. */
  function Insert<T>(leq: (T, T) -> bool, s: seq<T>, x: T): (r: seq<T>)
    ensures |r| == |s| + 1
    ensures multiset(r) == multiset(s) + multiset{x}
  {
    if s == [] then [x]
    else if leq(s[0], x) then
      assert s == [s[0]] + s[1..];
      [s[0]] + Insert(leq, s[1..], x)
    else [x] + s
  }

  function Sort<T>(leq: (T, T) -> bool, s: seq<T>): (r: seq<T>)
    ensures |r| == |s|
    ensures multiset(r) == multiset(s)
  {
    if s == [] then [] else
    assert s == s[..|s| - 1] + [s[|s| - 1]];
    Insert(leq, Sort(leq, s[..|s| - 1]), s[|s| - 1])
  }

  lemma SortMembers<T>(leq: (T, T) -> bool, s: seq<T>)
    ensures forall x :: x in Sort(leq, s) <==> x in s
  {
    forall x ensures x in Sort(leq, s) <==> x in s {
      assert x in s <==> x in multiset(s);
      assert x in Sort(leq, s) <==> x in multiset(Sort(leq, s));
    }
  }

  lemma {:induction false} InsertSorted<T(!new)>(leq: (T, T) -> bool, s: seq<T>, x: T)
    requires TotalPreorder(leq) && SortedBy(leq, s)
    ensures SortedBy(leq, Insert(leq, s, x))
  {
    if s != [] {
      if leq(s[0], x) {
        InsertSorted(leq, s[1..], x);
        var rest := Insert(leq, s[1..], x);
        forall j | 0 <= j < |rest| ensures leq(s[0], rest[j]) {
          assert rest[j] in multiset(rest);
          assert rest[j] == x || rest[j] in s[1..];
        }
      } else {
        forall j | 0 <= j < |s| ensures leq(x, s[j]) {
          assert leq(x, s[0]);
          if j > 0 { assert leq(s[0], s[j]); }
        }
      }
    }
  }

  lemma {:induction false} SortSorts<T(!new)>(leq: (T, T) -> bool, s: seq<T>)
    requires TotalPreorder(leq)
    ensures SortedBy(leq, Sort(leq, s))
  {
    if s != [] {
      SortSorts(leq, s[..|s| - 1]);
      InsertSorted(leq, Sort(leq, s[..|s| - 1]), s[|s| - 1]);
    }
  }

  lemma {:induction false} InsertLast<T>(leq: (T, T) -> bool, s: seq<T>, x: T)
    requires forall i :: 0 <= i < |s| ==> leq(s[i], x)
    ensures Insert(leq, s, x) == s + [x]
  {
    if s != [] {
      InsertLast(leq, s[1..], x);
      assert s + [x] == [s[0]] + (s[1..] + [x]);
    }
  }

  /** Sorting what is already sorted changes nothing. */
  lemma {:induction false} SortOfSorted<T>(leq: (T, T) -> bool, s: seq<T>)
    requires SortedBy(leq, s)
    ensures Sort(leq, s) == s
  {
    hide Insert;
    if s != [] {
      var front, last := s[..|s| - 1], s[|s| - 1];
      SortOfSorted(leq, front);
      InsertLast(leq, front, last);
      assert s == front + [last];
    }
  }

  ghost predicate Pairwise<T(!new)>(p: (T, T) -> bool, s: seq<T>) {
    forall i, j :: 0 <= i < j < |s| ==> p(s[i], s[j])
  }

  lemma {:induction false} InsertKeepsPairwise<T(!new)>(leq: (T, T) -> bool, p: (T, T) -> bool, s: seq<T>, x: T)
    requires forall a, b :: p(a, b) ==> p(b, a)
    requires Pairwise(p, s) && forall i :: 0 <= i < |s| ==> p(s[i], x)
    ensures Pairwise(p, Insert(leq, s, x))
  {
    if s != [] && leq(s[0], x) {
      var rest := Insert(leq, s[1..], x);
      InsertKeepsPairwise(leq, p, s[1..], x);
      forall j | 0 <= j < |rest| ensures p(s[0], rest[j]) {
        assert rest[j] in multiset(rest);
        assert rest[j] == x || rest[j] in s[1..];
      }
    }
  }

  /** A symmetric relation between all pairs of elements survives sorting. */
  lemma {:induction false} SortKeepsPairwise<T(!new)>(leq: (T, T) -> bool, p: (T, T) -> bool, s: seq<T>)
    requires forall a, b :: p(a, b) ==> p(b, a)
    requires Pairwise(p, s)
    ensures Pairwise(p, Sort(leq, s))
  {
    if s != [] {
      var front, last := s[..|s| - 1], s[|s| - 1];
      SortKeepsPairwise(leq, p, front);
      var sorted := Sort(leq, front);
      forall i | 0 <= i < |sorted| ensures p(sorted[i], last) {
        assert sorted[i] in multiset(front);
        var k :| 0 <= k < |front| && front[k] == sorted[i];
        assert s[k] == front[k];
      }
      InsertKeepsPairwise(leq, p, sorted, last);
    }
  }

  // ---- Stability, on positions -------------------------------------------------------

  /** In order, and among equals by position. */
  predicate StableSorted(leq: (int, int) -> bool, s: seq<int>) {
    forall i, j :: 0 <= i < j < |s| ==> leq(s[i], s[j]) && (leq(s[j], s[i]) ==> s[i] < s[j])
  }

  function Range(n: nat): (r: seq<int>)
    ensures |r| == n && forall i :: 0 <= i < n ==> r[i] == i
  {
    seq(n, i => i)
  }

  lemma InsertedIsOldOrNew(leq: (int, int) -> bool, s: seq<int>, x: int, j: nat)
    requires j < |s| + 1
    ensures Insert(leq, s, x)[j] == x || exists i :: 0 <= i < |s| && s[i] == Insert(leq, s, x)[j]
  {
    var y := Insert(leq, s, x)[j];
    assert y in multiset(Insert(leq, s, x));
    assert y == x || y in s;
  }

  lemma PrependBefore(leq: (int, int) -> bool, x: int, s: seq<int>)
    requires TotalPreorder(leq) && StableSorted(leq, s)
    requires s != [] && !leq(s[0], x)
    ensures StableSorted(leq, [x] + s)
  {
    forall j | 0 <= j < |s| ensures leq(x, s[j]) && !leq(s[j], x) {
      if j > 0 { assert leq(s[0], s[j]); }
    }
    var r := [x] + s;
    forall i, j | 0 <= i < j < |r| ensures leq(r[i], r[j]) && (leq(r[j], r[i]) ==> r[i] < r[j]) {
      if i > 0 { assert r[i] == s[i - 1] && r[j] == s[j - 1]; }
    }
  }

  lemma PrependLeast(leq: (int, int) -> bool, x: int, s: seq<int>)
    requires StableSorted(leq, s)
    requires forall j :: 0 <= j < |s| ==> leq(x, s[j]) && (leq(s[j], x) ==> x < s[j])
    ensures StableSorted(leq, [x] + s)
  {
    var r := [x] + s;
    forall i, j | 0 <= i < j < |r| ensures leq(r[i], r[j]) && (leq(r[j], r[i]) ==> r[i] < r[j]) {
      if i > 0 { assert r[i] == s[i - 1] && r[j] == s[j - 1]; }
    }
  }

  lemma TailStable(leq: (int, int) -> bool, s: seq<int>)
    requires s != [] && StableSorted(leq, s)
    ensures StableSorted(leq, s[1..])
    ensures forall j :: 0 <= j < |s| - 1 ==> leq(s[0], s[1..][j]) && (leq(s[1..][j], s[0]) ==> s[0] < s[1..][j])
  {
  }

  lemma {:induction false} InsertStable(leq: (int, int) -> bool, s: seq<int>, x: int)
    requires TotalPreorder(leq) && StableSorted(leq, s)
    requires forall i :: 0 <= i < |s| ==> s[i] < x
    ensures StableSorted(leq, Insert(leq, s, x))
  {
    if s != [] {
      hide TotalPreorder, StableSorted;
      if leq(s[0], x) {
        var rest := s[1..];
        TailStable(leq, s);
        InsertStable(leq, rest, x);
        var longer := Insert(leq, rest, x);
        forall j | 0 <= j < |longer| ensures leq(s[0], longer[j]) && (leq(longer[j], s[0]) ==> s[0] < longer[j]) {
          InsertedIsOldOrNew(leq, rest, x, j);
        }
        PrependLeast(leq, s[0], longer);
      } else {
        PrependBefore(leq, x, s);
      }
    }
  }

  /** Sorting the positions 0..n-1 keeps equal ones in their original order. */
  lemma {:induction false} SortIsStable(leq: (int, int) -> bool, n: nat)
    requires TotalPreorder(leq)
    ensures StableSorted(leq, Sort(leq, Range(n)))
    ensures forall i :: 0 <= i < |Sort(leq, Range(n))| ==> Sort(leq, Range(n))[i] < n
  {
    hide StableSorted, TotalPreorder, Insert;
    if n > 0 {
      var earlier := Sort(leq, Range(n - 1));
      assert Range(n)[..n - 1] == Range(n - 1);
      SortIsStable(leq, n - 1);
      InsertStable(leq, earlier, n - 1);
      var r := Insert(leq, earlier, n - 1);
      forall i | 0 <= i < |r| ensures r[i] < n {
        InsertedIsOldOrNew(leq, earlier, n - 1, i);
      }
    } else {
      NothingIsStable(leq);
    }
  }

  lemma NothingIsStable(leq: (int, int) -> bool)
    ensures StableSorted(leq, Sort(leq, Range(0)))
  {
    assert Range(0) == [];
  }
}
