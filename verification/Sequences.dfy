/** Facts about sequences used by more than one component. */
module Sequences {

  /** The index of the first element satisfying p, or |s| when there is none. */
  function FirstIndex<T>(s: seq<T>, p: T -> bool): (i: nat)
    ensures i <= |s|
    ensures forall j :: 0 <= j < i ==> !p(s[j])
    ensures i < |s| ==> p(s[i])
  {
    if s == [] then 0 else if p(s[0]) then 0 else 1 + FirstIndex(s[1..], p)
  }

  function RemoveAt<T>(s: seq<T>, i: nat): seq<T>
    requires i < |s|
  {
    s[..i] + s[i + 1..]
  }

  function Filter<T>(s: seq<T>, p: T -> bool): seq<T>
  {
    if s == [] then []
    else Filter(s[..|s| - 1], p) + if p(s[|s| - 1]) then [s[|s| - 1]] else []
  }

  /** How many elements satisfy p. */
  function Count<T>(s: seq<T>, p: T -> bool): nat {
    if s == [] then 0 else Count(s[..|s| - 1], p) + if p(s[|s| - 1]) then 1 else 0
  }

  lemma CountOneMore<T>(s: seq<T>, x: T, p: T -> bool)
    ensures Count(s + [x], p) == Count(s, p) + if p(x) then 1 else 0
  {
    assert (s + [x])[..|s|] == s;
  }

  /** The places of the elements satisfying p. */
  function Places<T>(s: seq<T>, p: T -> bool): set<int> { set i | 0 <= i < |s| && p(s[i]) }

  /** Counting elements is counting their places. */
  lemma {:induction false} CountIsSize<T>(s: seq<T>, p: T -> bool)
    ensures Count(s, p) == |Places(s, p)|
  {
    if s != [] {
      var n := |s| - 1;
      CountIsSize(s[..n], p);
      assert Places(s, p) == if p(s[n]) then Places(s[..n], p) + {n} else Places(s[..n], p);
    }
  }

  lemma {:induction false} CountConcat<T>(a: seq<T>, b: seq<T>, p: T -> bool)
    ensures Count(a + b, p) == Count(a, p) + Count(b, p)
  {
    if b == [] {
      assert a + b == a;
    } else {
      assert (a + b)[..|a + b| - 1] == a + b[..|b| - 1];
      CountConcat(a, b[..|b| - 1], p);
    }
  }

  function Total<T>(s: seq<T>, of: T -> real): real {
    if s == [] then 0.0 else Total(s[..|s| - 1], of) + of(s[|s| - 1])
  }

  lemma {:induction false} FilterConcat<T>(a: seq<T>, b: seq<T>, p: T -> bool)
    ensures Filter(a + b, p) == Filter(a, p) + Filter(b, p)
  {
    if b == [] {
      assert a + b == a;
    } else {
      assert (a + b)[..|a + b| - 1] == a + b[..|b| - 1];
      FilterConcat(a, b[..|b| - 1], p);
    }
  }

  lemma FilterOneMore<T>(s: seq<T>, x: T, p: T -> bool)
    ensures Filter(s + [x], p) == Filter(s, p) + if p(x) then [x] else []
  {
    assert (s + [x])[..|s|] == s;
  }

  /** Counting among the elements kept is counting those that are kept and satisfy p. */
  lemma {:induction false} CountFilter<T(!new)>(s: seq<T>, keep: T -> bool, p: T -> bool, both: T -> bool)
    requires forall x :: both(x) <==> keep(x) && p(x)
    ensures Count(Filter(s, keep), p) == Count(s, both)
  {
    if s != [] {
      CountFilter(s[..|s| - 1], keep, p, both);
      CountOneMore(Filter(s[..|s| - 1], keep), s[|s| - 1], p);
      assert Filter(s[..|s| - 1], keep) + [] == Filter(s[..|s| - 1], keep);
    }
  }

  lemma TotalOneMore<T>(s: seq<T>, x: T, of: T -> real)
    ensures Total(s + [x], of) == Total(s, of) + of(x)
  {
    assert (s + [x])[..|s|] == s;
  }

  /** Adding up what is kept is adding up everything, with zero for what is not. */
  lemma {:induction false} TotalFilter<T(!new)>(s: seq<T>, keep: T -> bool, of: T -> real, kept: T -> real)
    requires forall x :: kept(x) == if keep(x) then of(x) else 0.0
    ensures Total(Filter(s, keep), of) == Total(s, kept)
  {
    if s != [] {
      TotalFilter(s[..|s| - 1], keep, of, kept);
      TotalOneMore(Filter(s[..|s| - 1], keep), s[|s| - 1], of);
      assert Filter(s[..|s| - 1], keep) + [] == Filter(s[..|s| - 1], keep);
    }
  }

  predicate Anything<T>(x: T) { true }

  lemma {:induction false} CountAnything<T>(s: seq<T>)
    ensures Count(s, Anything) == |s|
  {
    if s != [] {
      CountAnything(s[..|s| - 1]);
    }
  }

  predicate Distinct<T(==)>(s: seq<T>) { forall i, j :: 0 <= i < j < |s| ==> s[i] != s[j] }

  lemma FilterCons<T>(x: T, s: seq<T>, p: T -> bool)
    ensures Filter([x] + s, p) == (if p(x) then [x] else []) + Filter(s, p)
  {
    FilterConcat([x], s, p);
    assert [x][..0] == [];
    assert Filter([x], p) == if p(x) then [x] else [];
  }

  /** Removing an element that p rejects does not change what p keeps. */
  lemma FilterRemoveAt<T>(s: seq<T>, i: nat, p: T -> bool)
    requires i < |s| && !p(s[i])
    ensures Filter(RemoveAt(s, i), p) == Filter(s, p)
  {
    assert s == s[..i] + ([s[i]] + s[i + 1..]);
    FilterConcat(s[..i], [s[i]] + s[i + 1..], p);
    FilterConcat([s[i]], s[i + 1..], p);
    FilterConcat(s[..i], s[i + 1..], p);
  }

  lemma {:induction false} FilterLength<T>(s: seq<T>, p: T -> bool)
    ensures |Filter(s, p)| <= |s|
    ensures (exists i :: 0 <= i < |s| && p(s[i])) <==> |Filter(s, p)| > 0
  {
    if s != [] {
      FilterLength(s[..|s| - 1], p);
    }
  }

  lemma {:induction false} InFilter<T>(s: seq<T>, p: T -> bool, x: T)
    ensures x in Filter(s, p) <==> x in s && p(x)
  {
    if s != [] {
      InFilter(s[..|s| - 1], p, x);
      assert s == s[..|s| - 1] + [s[|s| - 1]];
    }
  }

  lemma DistinctOneMore<T>(s: seq<T>, x: T)
    requires Distinct(s) && x !in s
    ensures Distinct(s + [x])
  {
  }

  /** f picks out a in order inside b. */
  ghost predicate Embeds<T>(f: seq<nat>, a: seq<T>, b: seq<T>)
  {
    && |f| == |a|
    && (forall i, j :: 0 <= i < j < |f| ==> f[i] < f[j])
    && (forall i :: 0 <= i < |f| ==> f[i] < |b| && a[i] == b[f[i]])
  }

  /** a is what remains of b after deleting some elements: order and multiplicity are kept. */
  ghost predicate Subsequence<T>(a: seq<T>, b: seq<T>)
  {
    exists f :: Embeds(f, a, b)
  }

  lemma SubsequenceExtend<T>(a: seq<T>, b: seq<T>, x: T)
    requires Subsequence(a, b)
    ensures Subsequence(a + [x], b + [x]) && Subsequence(a, b + [x])
  {
    var f: seq<nat> :| Embeds(f, a, b);
    assert Embeds(f, a, b + [x]);
    assert Embeds(f + [|b|], a + [x], b + [x]);
  }

  lemma SubsequenceRemoveAt<T>(a: seq<T>, b: seq<T>, i: nat)
    requires Subsequence(a, b) && i < |a|
    ensures Subsequence(RemoveAt(a, i), b)
  {
    var f: seq<nat> :| Embeds(f, a, b);
    assert Embeds(RemoveAt(f, i), RemoveAt(a, i), b);
  }

  lemma SubsequenceTransitive<T>(a: seq<T>, b: seq<T>, c: seq<T>)
    requires Subsequence(a, b) && Subsequence(b, c)
    ensures Subsequence(a, c)
  {
    var f: seq<nat> :| Embeds(f, a, b);
    var g: seq<nat> :| Embeds(g, b, c);
    assert Embeds(seq(|f|, i requires 0 <= i < |f| => g[f[i]]), a, c);
  }

  predicate Ascending(at: seq<nat>) { forall j, k :: 0 <= j < k < |at| ==> at[j] < at[k] }

  /** Each element of t goes with the element of s at its place, and the places come in order. */
  ghost predicate Accompanies<A, B>(at: seq<nat>, s: seq<A>, t: seq<B>, goes: (A, B) -> bool) {
    && |at| == |t| && Ascending(at)
    && (forall k :: 0 <= k < |at| ==> at[k] < |s| && goes(s[at[k]], t[k]))
  }

  lemma PlacesLonger<A, B>(at: seq<nat>, s: seq<A>, x: A, t: seq<B>, goes: (A, B) -> bool)
    requires Accompanies(at, s, t, goes)
    ensures Accompanies(at, s + [x], t, goes)
  {
  }

  lemma PlacesMore<A, B>(at: seq<nat>, s: seq<A>, x: A, t: seq<B>, y: B, goes: (A, B) -> bool)
    requires Accompanies(at, s, t, goes) && goes(x, y)
    ensures Accompanies(at + [|s|], s + [x], t + [y], goes)
  {
  }

  lemma MultisetRemoveAt<T>(s: seq<T>, i: nat)
    requires i < |s|
    ensures multiset(s) == multiset(RemoveAt(s, i)) + multiset{s[i]}
  {
    assert s == s[..i] + [s[i]] + s[i + 1..];
  }
}
