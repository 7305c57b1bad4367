/** The label keys of the metrics registry: a label dict written as one string and read back. */
module MetricLabels {
  import opened Text

  type Labels = map<string, string>
  type Item = (string, string)

  predicate NotEquals(c: char) { c != '=' }

  /** sorted(labels.items()): the keys of a dict are distinct, so only they decide the order. */
  function SortedItems(m: Labels): seq<Item> {
    var keys := SortedStrings(m.Keys);
    seq(|keys|, i requires 0 <= i < |keys| => (keys[i], m[keys[i]]))
  }

  function Plain(item: Item): string { item.0 + "=" + item.1 }

  function PlainAll(items: seq<Item>): (parts: seq<string>)
    ensures |parts| == |items|
    ensures forall i :: 0 <= i < |items| ==> parts[i] == Plain(items[i])
  {
    seq(|items|, i requires 0 <= i < |items| => Plain(items[i]))
  }

  function Serialize(m: Labels): string { Join(PlainAll(SortedItems(m)), ",") }

  /** What one comma-separated piece adds: nothing when it has no equals sign. */
  function AddPair(m: Labels, pair: string): Labels {
    var n := Span(pair, NotEquals);
    if n < |pair| then m[pair[..n] := pair[n + 1..]] else m
  }

  function AddPairs(pairs: seq<string>): Labels {
    if pairs == [] then map[] else AddPair(AddPairs(pairs[..|pairs| - 1]), pairs[|pairs| - 1])
  }

  function Deserialize(key: string): Labels {
    if key == "" then map[] else AddPairs(SplitCommas(key))
  }

  method DeserializeLabels(key: string) returns (result: Labels)
    ensures result == Deserialize(key)
  {
    if key == "" {
      return map[];
    }
    var pairs := SplitCommas(key);
    result := map[];
    for i := 0 to |pairs|
      invariant result == AddPairs(pairs[..i])
    {
      assert pairs[..i + 1][..i] == pairs[..i];
      var n := Span(pairs[i], NotEquals);
      if n < |pairs[i]| {
        result := result[pairs[i][..n] := pairs[i][n + 1..]];
      }
    }
    assert pairs[..|pairs|] == pairs;
  }

  lemma TwoItems(a: Item, b: Item)
    requires a.0 != b.0 && LexLeq(a.0, b.0)
    ensures SortedItems(map[a.0 := a.1, b.0 := b.1]) == [a, b]
  {
    var m := map[a.0 := a.1, b.0 := b.1];
    assert m.Keys == {a.0, b.0};
    SortedUnique(SortedStrings(m.Keys), [a.0, b.0]);
  }

  lemma OneItem(a: Item)
    ensures SortedItems(map[a.0 := a.1]) == [a]
  {
    assert map[a.0 := a.1].Keys == {a.0};
    SortedUnique(SortedStrings({a.0}), [a.0]);
  }

  /** How a counter key is written: key=value pieces in key order, commas between them. */
  lemma KeysAsWritten(a: Item, b: Item)
    requires a.0 != b.0 && LexLeq(a.0, b.0)
    ensures Serialize(map[]) == ""
    ensures Serialize(map[a.0 := a.1]) == a.0 + "=" + a.1
    ensures Serialize(map[b.0 := b.1, a.0 := a.1]) == a.0 + "=" + a.1 + "," + (b.0 + "=" + b.1)
  {
    OneItem(a);
    TwoItems(a, b);
    assert map[b.0 := b.1, a.0 := a.1] == map[a.0 := a.1, b.0 := b.1];
    assert PlainAll([a]) == [Plain(a)];
    assert PlainAll([a, b]) == [Plain(a), Plain(b)];
    assert Join([Plain(b)], ",") == Plain(b);
  }

  /** The labels that survive: no equals sign in a key, no comma anywhere. */
  predicate Clean(m: Labels) {
    forall k :: k in m ==> All(k, NotEquals) && All(k, NotComma) && All(m[k], NotComma)
  }

  lemma AddPlain(m: Labels, item: Item)
    requires All(item.0, NotEquals)
    ensures AddPair(m, Plain(item)) == m[item.0 := item.1]
  {
    var rest := "=" + item.1;
    assert Plain(item) == item.0 + rest;
    SpanIs(item.0, rest, NotEquals);
    assert Plain(item)[..|item.0|] == item.0;
    assert Plain(item)[|item.0| + 1..] == item.1;
  }

  predicate DistinctKeys(items: seq<Item>) {
    forall i, j :: 0 <= i < j < |items| ==> items[i].0 != items[j].0
  }

  /** m holds the given items and nothing else. */
  ghost predicate Holds(m: Labels, items: seq<Item>) {
    && (forall i :: 0 <= i < |items| ==> items[i].0 in m && m[items[i].0] == items[i].1)
    && (forall k :: k in m ==> exists i :: 0 <= i < |items| && items[i].0 == k)
  }

  lemma HoldsExtend(m: Labels, items: seq<Item>, item: Item)
    requires Holds(m, items) && DistinctKeys(items + [item])
    ensures Holds(m[item.0 := item.1], items + [item])
  {
    var all, next := items + [item], m[item.0 := item.1];
    forall i | 0 <= i < |all|
      ensures all[i].0 in next && next[all[i].0] == all[i].1
    {
      assert i < |items| ==> items[i] == all[i] && all[i].0 != all[|items|].0;
    }
    forall k | k in next
      ensures exists i :: 0 <= i < |all| && all[i].0 == k
    {
      if k == item.0 {
        assert all[|items|].0 == k;
      } else {
        var i :| 0 <= i < |items| && items[i].0 == k;
        assert all[i].0 == k;
      }
    }
  }

  lemma {:induction false} AddPlainAll(items: seq<Item>)
    requires DistinctKeys(items) && forall i :: 0 <= i < |items| ==> All(items[i].0, NotEquals)
    ensures Holds(AddPairs(PlainAll(items)), items)
  {
    if items != [] {
      var n := |items| - 1;
      AddPlainAll(items[..n]);
      assert PlainAll(items)[..n] == PlainAll(items[..n]);
      AddPlain(AddPairs(PlainAll(items[..n])), items[n]);
      assert items == items[..n] + [items[n]];
      HoldsExtend(AddPairs(PlainAll(items[..n])), items[..n], items[n]);
    }
  }

  lemma SortedItemsDistinct(m: Labels)
    ensures DistinctKeys(SortedItems(m)) && |SortedItems(m)| == |m|
  {
  }

  lemma SortedItemsHold(m: Labels)
    ensures DistinctKeys(SortedItems(m)) && Holds(m, SortedItems(m)) && |SortedItems(m)| == |m|
  {
    SortedItemsDistinct(m);
    forall k | k in m
      ensures exists i :: 0 <= i < |SortedItems(m)| && SortedItems(m)[i].0 == k
    {
      var i := IndexOfKey(m, k);
    }
  }

  lemma IndexOfKey(m: Labels, k: string) returns (i: nat)
    requires k in m
    ensures i < |SortedItems(m)| && SortedItems(m)[i].0 == k
  {
    var keys := SortedStrings(m.Keys);
    assert k in keys;
    i :| 0 <= i < |keys| && keys[i] == k;
  }

  lemma HoldsUnique(a: Labels, b: Labels, items: seq<Item>)
    requires Holds(a, items) && Holds(b, items)
    ensures a == b
  {
    forall k | k in a || k in b
      ensures k in a && k in b && a[k] == b[k]
    {
      var i :| 0 <= i < |items| && items[i].0 == k;
    }
  }

  lemma CleanParts(items: seq<Item>, m: Labels)
    requires Clean(m) && forall i :: 0 <= i < |items| ==> items[i].0 in m && m[items[i].0] == items[i].1
    ensures forall p :: p in PlainAll(items) ==> All(p, NotComma)
  {
    forall p | p in PlainAll(items)
      ensures All(p, NotComma)
    {
      var i :| 0 <= i < |items| && PlainAll(items)[i] == p;
    }
  }

  lemma ItemsReturn(items: seq<Item>, m: Labels)
    requires items != [] && Holds(m, items) && DistinctKeys(items) && Clean(m)
    ensures Deserialize(Join(PlainAll(items), ",")) == m
  {
    var parts := PlainAll(items);
    CleanParts(items, m);
    SplitJoin(parts);
    assert parts[0] == Plain(items[0]);
    assert |Join(parts, ",")| >= |parts[0]| > 0;
    AddPlainAll(items);
    HoldsUnique(AddPairs(parts), m, items);
  }

  lemma CleanReturns(m: Labels)
    requires Clean(m)
    ensures Deserialize(Serialize(m)) == m
  {
    SortedItemsHold(m);
    if SortedItems(m) != [] {
      ItemsReturn(SortedItems(m), m);
    }
  }

  lemma {:induction false} PairsAreClean(pairs: seq<string>)
    requires forall p :: p in pairs ==> All(p, NotComma)
    ensures Clean(AddPairs(pairs))
  {
    if pairs != [] {
      var n := |pairs| - 1;
      PairsAreClean(pairs[..n]);
      assert pairs[n] in pairs;
    }
  }

  /** Reading back a serialized label dict returns it exactly when it is clean. */
  lemma SerializeRoundTripIff(m: Labels)
    ensures Deserialize(Serialize(m)) == m <==> Clean(m)
  {
    if Clean(m) {
      CleanReturns(m);
    } else {
      PairsAreClean(SplitCommas(Serialize(m)));
    }
  }

  /** A comma in a label value splits it: the dict does not come back. */
  lemma CommaDoesNotComeBack(key: string, before: string, after: string)
    ensures var m := map[key := before + "," + after]; Deserialize(Serialize(m)) != m
  {
    var m := map[key := before + "," + after];
    assert m[key][|before|] == ',';
    assert key in m && !All(m[key], NotComma);
    SerializeRoundTripIff(m);
  }

  /** The piece gives this value to this key: they are what stands before and after its first equals sign. */
  predicate Gives(piece: string, k: string, v: string) { piece == k + "=" + v && All(k, NotEquals) }

  lemma GivesOne(m: Labels, piece: string, k: string, v: string)
    ensures Gives(piece, k, v) ==> AddPair(m, piece) == m[k := v]
    ensures Span(piece, NotEquals) == |piece| ==> !Gives(piece, k, v)
  {
    if Gives(piece, k, v) {
      AddPlain(m, (k, v));
      assert piece[|k|] == '=';
    }
  }

  lemma Given(m: Labels, piece: string)
    requires Span(piece, NotEquals) < |piece|
    ensures var n := Span(piece, NotEquals); Gives(piece, piece[..n], piece[n + 1..])
  {
    Rejoin(piece, Span(piece, NotEquals));
  }

  /** After a piece, a key has the value the piece gives it, or else the one it had. */
  lemma PieceAdds(m: Labels, piece: string, k: string)
    ensures var after := AddPair(m, piece);
            if exists v :: Gives(piece, k, v) then k in after && Gives(piece, k, after[k])
            else (k in after <==> k in m) && (k in after ==> after[k] == m[k])
  {
    if Span(piece, NotEquals) < |piece| {
      Given(m, piece);
    }
    forall v | Gives(piece, k, v)
      ensures AddPair(m, piece) == m[k := v]
    {
      GivesOne(m, piece, k, v);
    }
  }

  /** A key is read exactly from the pieces that give it a value, the last of them winning; other pieces are ignored. */
  lemma {:induction false} LastPieceWins(pieces: seq<string>, k: string) returns (i: nat)
    ensures k in AddPairs(pieces) <==> exists j, v :: 0 <= j < |pieces| && Gives(pieces[j], k, v)
    ensures k in AddPairs(pieces) ==>
              && i < |pieces| && Gives(pieces[i], k, AddPairs(pieces)[k])
              && forall j, v :: i < j < |pieces| ==> !Gives(pieces[j], k, v)
  {
    i := 0;
    if pieces != [] {
      var n := |pieces| - 1;
      i := LastPieceWins(pieces[..n], k);
      PieceAdds(AddPairs(pieces[..n]), pieces[n], k);
      if exists v :: Gives(pieces[n], k, v) {
        i := n;
      }
    }
  }

  /** Distinct clean label sets never share a counter key. */
  lemma SerializeInjective(a: Labels, b: Labels)
    requires Clean(a) && Clean(b)
    ensures Serialize(a) == Serialize(b) <==> a == b
  {
    SerializeRoundTripIff(a);
    SerializeRoundTripIff(b);
  }
}
