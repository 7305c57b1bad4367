/** String operations of the host language that the text formats rely on. */
module Text {

  // ---- code-point order and sorting ----

  predicate LexLeq(a: string, b: string) {
    a == "" || (b != "" && (a[0] < b[0] || (a[0] == b[0] && LexLeq(a[1..], b[1..]))))
  }

  lemma {:induction false} LexTotal(a: string, b: string)
    ensures LexLeq(a, b) || LexLeq(b, a)
    ensures LexLeq(a, b) && LexLeq(b, a) ==> a == b
  {
    if a != "" && b != "" {
      LexTotal(a[1..], b[1..]);
      assert a == [a[0]] + a[1..] && b == [b[0]] + b[1..];
    }
  }

  lemma {:induction false} LexTransitive(a: string, b: string, c: string)
    requires LexLeq(a, b) && LexLeq(b, c)
    ensures LexLeq(a, c)
  {
    if a != "" && a[0] == b[0] && b[0] == c[0] {
      LexTransitive(a[1..], b[1..], c[1..]);
    }
  }

  lemma {:induction false} LeastExists(s: set<string>) returns (m: string)
    requires s != {}
    ensures m in s && forall x :: x in s ==> LexLeq(m, x)
  {
    m :| m in s;
    var rest := s - {m};
    LexTotal(m, m);
    if rest != {} {
      var r := LeastExists(rest);
      LexTotal(m, r);
      forall x | x in s
        ensures LexLeq(if LexLeq(m, r) then m else r, x)
      {
        if x != m && LexLeq(m, r) {
          LexTransitive(m, r, x);
        }
      }
      m := if LexLeq(m, r) then m else r;
    } else {
      assert s == {m};
    }
  }

  function Least(s: set<string>): (m: string)
    requires s != {}
    ensures m in s && forall x :: x in s ==> LexLeq(m, x)
  {
    assert exists m :: m in s && forall x :: x in s ==> LexLeq(m, x) by {
      var m := LeastExists(s);
    }
    assert forall a, b :: a in s && b in s && LexLeq(a, b) && LexLeq(b, a) ==> a == b by {
      forall a, b | a in s && b in s && LexLeq(a, b) && LexLeq(b, a)
        ensures a == b
      {
        LexTotal(a, b);
      }
    }
    var m :| m in s && forall x :: x in s ==> LexLeq(m, x);
    m
  }

  /** sorted() of a set of strings. */
  function SortedStrings(s: set<string>): (r: seq<string>)
    ensures forall x :: x in r <==> x in s
    ensures |r| == |s|
    ensures forall i, j :: 0 <= i < j < |r| ==> LexLeq(r[i], r[j]) && r[i] != r[j]
  {
    if s == {} then [] else
      var m := Least(s);
      [m] + SortedStrings(s - {m})
  }

  predicate StrictlySorted(s: seq<string>) {
    forall i, j :: 0 <= i < j < |s| ==> LexLeq(s[i], s[j]) && s[i] != s[j]
  }

  /** A strictly sorted list is determined by its elements. */
  lemma {:induction false} SortedUnique(a: seq<string>, b: seq<string>)
    requires StrictlySorted(a) && StrictlySorted(b) && forall x :: x in a <==> x in b
    ensures a == b
  {
    EmptyAlike(a, b);
    if a != [] {
      var n, m := |a| - 1, |b| - 1;
      SameLast(a, b);
      assert a == a[..n] + [a[n]] && b == b[..m] + [b[m]];
      forall x
        ensures x in a[..n] <==> x in b[..m]
      {
        assert x in a[..n] <==> x in a && x != a[n];
        assert x in b[..m] <==> x in b && x != b[m];
      }
      SortedUnique(a[..n], b[..m]);
    }
  }

  lemma EmptyAlike(a: seq<string>, b: seq<string>)
    requires forall x :: x in a <==> x in b
    ensures a == [] <==> b == []
  {
    if a != [] {
      assert a[0] in b;
    }
    if b != [] {
      assert b[0] in a;
    }
  }

  lemma SameLast(a: seq<string>, b: seq<string>)
    requires StrictlySorted(a) && StrictlySorted(b) && a != [] && b != [] && forall x :: x in a <==> x in b
    ensures a[|a| - 1] == b[|b| - 1]
  {
    assert a[|a| - 1] in b && b[|b| - 1] in a;
    LexTotal(a[|a| - 1], b[|b| - 1]);
  }

  // ---- scanning ----

  /** The length of the longest prefix whose characters all satisfy p. */
  function Span(s: string, p: char -> bool): (n: nat)
    ensures n <= |s|
    ensures forall i :: 0 <= i < n ==> p(s[i])
    ensures n < |s| ==> !p(s[n])
  {
    if s == "" || !p(s[0]) then 0 else 1 + Span(s[1..], p)
  }

  predicate All(s: string, p: char -> bool) { forall i :: 0 <= i < |s| ==> p(s[i]) }

  lemma SpanIs(a: string, b: string, p: char -> bool)
    requires All(a, p) && (b == "" || !p(b[0]))
    ensures Span(a + b, p) == |a|
  {
    assert forall i :: 0 <= i < |a| ==> (a + b)[i] == a[i];
    assert b != "" ==> (a + b)[|a|] == b[0];
  }

  /** A text cut at one of its characters. */
  lemma Rejoin(s: string, i: nat)
    requires i < |s|
    ensures s == s[..i] + s[i..] && s[i..] == [s[i]] + s[i + 1..]
    ensures s == s[..i] + [s[i]] + s[i + 1..]
  {
  }

  // ---- join and split ----

  function Join(parts: seq<string>, sep: string): string {
    if parts == [] then "" else if |parts| == 1 then parts[0] else parts[0] + sep + Join(parts[1..], sep)
  }

  predicate NotComma(c: char) { c != ',' }

  /** text.split(",") */
  function SplitCommas(s: string): (parts: seq<string>)
    ensures |parts| > 0
    ensures forall p :: p in parts ==> All(p, NotComma)
    decreases |s|
  {
    var n := Span(s, NotComma);
    if n == |s| then [s] else [s[..n]] + SplitCommas(s[n + 1..])
  }

  lemma SplitFirst(a: string, rest: string)
    requires All(a, NotComma)
    ensures SplitCommas(a + "," + rest) == [a] + SplitCommas(rest)
  {
    var s := a + "," + rest;
    assert s == a + ("," + rest);
    SpanIs(a, "," + rest, NotComma);
    assert s[..|a|] == a && s[|a| + 1..] == rest;
  }

  lemma {:induction false} SplitJoin(parts: seq<string>)
    requires parts != [] && forall p :: p in parts ==> All(p, NotComma)
    ensures SplitCommas(Join(parts, ",")) == parts
  {
    if |parts| == 1 {
      SpanIs(parts[0], "", NotComma);
      assert parts[0] + "" == parts[0];
    } else {
      SplitFirst(parts[0], Join(parts[1..], ","));
      SplitJoin(parts[1..]);
    }
  }

  // ---- lines and white space ----

  predicate IsLineBreak(c: char) {
    c in {'\n', '\U{0B}', '\U{0C}', '\r', '\U{1C}', '\U{1D}', '\U{1E}', '\U{85}', '\U{2028}', '\U{2029}'}
  }

  predicate NotLineBreak(c: char) { !IsLineBreak(c) }

  predicate IsSpace(c: char) {
    || IsLineBreak(c)
    || c in {' ', '\t', '\U{1F}', '\U{A0}', '\U{1680}', '\U{202F}', '\U{205F}', '\U{3000}'}
    || '\U{2000}' <= c <= '\U{200A}'
  }

  predicate NotSpace(c: char) { !IsSpace(c) }

  /** text.splitlines(): a carriage return and a line feed together are one break. */
  function SplitLines(s: string): seq<string>
    decreases |s|
  {
    if s == "" then [] else
      var n := Span(s, NotLineBreak);
      if n == |s| then [s]
      else if s[n] == '\r' && n + 1 < |s| && s[n + 1] == '\n' then [s[..n]] + SplitLines(s[n + 2..])
      else [s[..n]] + SplitLines(s[n + 1..])
  }

  /** "\n".join(lines + [""]), or the empty text when there is no line. */
  function Unlines(lines: seq<string>): string {
    if lines == [] then "" else lines[0] + "\n" + Unlines(lines[1..])
  }

  lemma {:induction false} SplitUnlines(lines: seq<string>)
    requires forall l :: l in lines ==> All(l, NotLineBreak)
    ensures SplitLines(Unlines(lines)) == lines
  {
    if lines != [] {
      var rest := "\n" + Unlines(lines[1..]);
      assert Unlines(lines) == lines[0] + rest;
      assert rest[0] == '\n';
      SpanIs(lines[0], rest, NotLineBreak);
      assert Unlines(lines)[|lines[0]| + 1..] == Unlines(lines[1..]);
      SplitUnlines(lines[1..]);
      assert lines == [lines[0]] + lines[1..];
    }
  }

  lemma {:induction false} SplitLinesAreBare(s: string)
    ensures forall l :: l in SplitLines(s) ==> All(l, NotLineBreak)
    decreases |s|
  {
    var n := Span(s, NotLineBreak);
    if n < |s| {
      var skip := if s[n] == '\r' && n + 1 < |s| && s[n + 1] == '\n' then 2 else 1;
      SplitLinesAreBare(s[n + skip..]);
      assert SplitLines(s) == [s[..n]] + SplitLines(s[n + skip..]);
    }
  }

  lemma {:induction false} JoinWithFinalBreak(lines: seq<string>)
    requires lines != []
    ensures Join(lines + [""], "\n") == Unlines(lines)
  {
    if |lines| == 1 {
      assert (lines + [""])[1..] == [""];
      assert Unlines(lines[1..]) == "";
    } else {
      assert (lines + [""])[1..] == lines[1..] + [""];
      JoinWithFinalBreak(lines[1..]);
    }
  }

  function TrimEnd(s: string): string
    decreases |s|
  {
    if s != "" && IsSpace(s[|s| - 1]) then TrimEnd(s[..|s| - 1]) else s
  }

  /** text.strip() */
  function Strip(s: string): string { TrimEnd(s[Span(s, IsSpace)..]) }

  lemma StripNothing(s: string)
    requires s != "" && !IsSpace(s[0]) && !IsSpace(s[|s| - 1])
    ensures Strip(s) == s
  {
    assert Span(s, IsSpace) == 0;
    assert s[0..] == s;
  }
}
