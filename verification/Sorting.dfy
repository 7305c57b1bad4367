/** The host language's sorted(): sorted, a permutation, and stable, which together determine the result. */
module Sorting {
  import opened Sequences

  ghost predicate TotalPreorder<T(!new)>(leq: (T, T) -> bool) {
    && (forall x, y :: leq(x, y) || leq(y, x))
    && (forall x, y, z :: leq(x, y) && leq(y, z) ==> leq(x, z))
  }

  ghost predicate SortedBy<T>(s: seq<T>, leq: (T, T) -> bool) {
    forall i, j :: 0 <= i < j < |s| ==> leq(s[i], s[j])
  }

  function Insert<T>(x: T, s: seq<T>, leq: (T, T) -> bool): seq<T> {
    if s == [] then [x] else if leq(x, s[0]) then [x] + s else [s[0]] + Insert(x, s[1..], leq)
  }

  function Sort<T>(s: seq<T>, leq: (T, T) -> bool): seq<T> {
    if s == [] then [] else Insert(s[0], Sort(s[1..], leq), leq)
  }

  lemma {:induction false} InsertPermutes<T>(x: T, s: seq<T>, leq: (T, T) -> bool)
    ensures multiset(Insert(x, s, leq)) == multiset(s) + multiset{x}
  {
    if s != [] && !leq(x, s[0]) {
      InsertPermutes(x, s[1..], leq);
      assert s == [s[0]] + s[1..];
    }
  }

  lemma {:induction false} InsertSorts<T(!new)>(x: T, s: seq<T>, leq: (T, T) -> bool)
    requires TotalPreorder(leq) && SortedBy(s, leq)
    ensures SortedBy(Insert(x, s, leq), leq)
  {
    if s != [] && !leq(x, s[0]) {
      var rest := Insert(x, s[1..], leq);
      InsertSorts(x, s[1..], leq);
      InsertPermutes(x, s[1..], leq);
      forall i | 0 <= i < |rest|
        ensures leq(s[0], rest[i])
      {
        assert rest[i] in multiset(rest);
      }
    }
  }

  lemma {:induction false} SortCorrect<T(!new)>(s: seq<T>, leq: (T, T) -> bool)
    requires TotalPreorder(leq)
    ensures SortedBy(Sort(s, leq), leq) && multiset(Sort(s, leq)) == multiset(s) && |Sort(s, leq)| == |s|
  {
    if s != [] {
      SortCorrect(s[1..], leq);
      InsertSorts(s[0], Sort(s[1..], leq), leq);
      InsertPermutes(s[0], Sort(s[1..], leq), leq);
      assert s == [s[0]] + s[1..];
      assert |multiset(Sort(s, leq))| == |multiset(s)|;
    }
  }

  /** same holds only of elements that compare equal to each other. */
  ghost predicate Ties<T(!new)>(same: T -> bool, leq: (T, T) -> bool) {
    forall x, y :: same(x) && same(y) ==> leq(x, y)
  }

  lemma SwapFiltered<T>(x: T, y: T, s: seq<T>, same: T -> bool)
    requires !(same(x) && same(y))
    ensures Filter([x] + ([y] + s), same) == Filter([y] + ([x] + s), same)
  {
    FilterCons(x, [y] + s, same);
    FilterCons(y, s, same);
    FilterCons(y, [x] + s, same);
    FilterCons(x, s, same);
  }

  lemma {:induction false} InsertStable<T(!new)>(x: T, s: seq<T>, leq: (T, T) -> bool, same: T -> bool)
    requires Ties(same, leq)
    ensures Filter(Insert(x, s, leq), same) == Filter([x] + s, same)
  {
    if s != [] && !leq(x, s[0]) {
      InsertStable(x, s[1..], leq, same);
      assert s == [s[0]] + s[1..];
      SwapFiltered(x, s[0], s[1..], same);
      FilterCons(s[0], Insert(x, s[1..], leq), same);
      FilterCons(s[0], [x] + s[1..], same);
    }
  }

  /** Elements that compare equal keep their order. */
  lemma {:induction false} SortStable<T(!new)>(s: seq<T>, leq: (T, T) -> bool, same: T -> bool)
    requires Ties(same, leq)
    ensures Filter(Sort(s, leq), same) == Filter(s, same)
  {
    if s != [] {
      SortStable(s[1..], leq, same);
      InsertStable(s[0], Sort(s[1..], leq), leq, same);
      assert s == [s[0]] + s[1..];
      FilterCons(s[0], s[1..], same);
      FilterCons(s[0], Sort(s[1..], leq), same);
    }
  }
}
