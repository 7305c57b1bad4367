/** The reader's scanners accept exactly the languages of its two patterns and of the text splitting they sit on. */
module ExpositionGrammar {
  import opened Wrappers
  import opened Text
  import opened MetricLabels
  import opened ExpositionParser

  // ---- one label ----

  /** key="value", with the text that follows it. */
  ghost predicate IsLabelText(s: string, item: Item, rest: string) {
    && s == item.0 + "=\"" + item.1 + "\"" + rest
    && item.0 != "" && IsLabelStart(item.0[0]) && All(item.0, IsLabelChar) && All(item.1, NotQuote)
  }

  lemma LabelRead(s: string)
    requires MatchLabel(s).Label?
    ensures IsLabelText(s, MatchLabel(s).item, MatchLabel(s).rest)
  {
    var n, v := LabelCaptures(s);
    var value := s[n + 2..];
    Rejoin(value, v);
    Rejoin(s, n);
    KeyThenValue(s[..n], s[n..], value, value[..v], value[v + 1..]);
  }

  lemma LabelCaptures(s: string) returns (n: nat, v: nat)
    requires MatchLabel(s).Label?
    ensures 0 < n && n + 1 < |s| && IsLabelStart(s[0]) && All(s[..n], IsLabelChar) && s[n] == '=' && s[n + 1] == '"'
    ensures v < |s[n + 2..]| && All(s[n + 2..][..v], NotQuote) && s[n + 2..][v] == '"'
    ensures MatchLabel(s) == Label((s[..n], s[n + 2..][..v]), s[n + 2..][v + 1..])
  {
    n := Span(s, IsLabelChar);
    v := Span(s[n + 2..], NotQuote);
  }

  lemma KeyThenValue(key: string, rest: string, text: string, value: string, after: string)
    requires |rest| >= 2 && rest[0] == '=' && rest[1] == '"' && text == rest[2..] && text == value + ("\"" + after)
    ensures key + rest == key + "=\"" + value + "\"" + after
  {
    assert rest == "=\"" + text;
  }

  lemma LabelScans(item: Item, rest: string)
    requires IsLabelText(item.0 + "=\"" + item.1 + "\"" + rest, item, rest)
    ensures MatchLabel(item.0 + "=\"" + item.1 + "\"" + rest) == Label(item, rest)
  {
    var s, tail := item.0 + "=\"" + item.1 + "\"" + rest, "\"" + rest;
    assert s == item.0 + ("=\"" + item.1 + tail);
    SpanIs(item.0, "=\"" + item.1 + tail, IsLabelChar);
    assert s[|item.0| + 2..] == item.1 + tail;
    SpanIs(item.1, tail, NotQuote);
    assert (item.1 + tail)[|item.1| + 1..] == rest;
  }

  lemma LabelText(s: string, item: Item, rest: string)
    ensures MatchLabel(s) == Label(item, rest) <==> IsLabelText(s, item, rest)
  {
    if MatchLabel(s) == Label(item, rest) {
      LabelRead(s);
    }
    if IsLabelText(s, item, rest) {
      LabelScans(item, rest);
    }
  }

  /** Scanning takes a label where one starts and goes on behind it; elsewhere it moves one character on. */
  lemma ScanText(s: string)
    requires s != ""
    ensures forall item, rest :: IsLabelText(s, item, rest) ==> FindLabels(s) == [item] + FindLabels(rest)
    ensures (forall item, rest :: !IsLabelText(s, item, rest)) ==> FindLabels(s) == FindLabels(s[1..])
  {
    forall item, rest | IsLabelText(s, item, rest)
      ensures MatchLabel(s) == Label(item, rest)
    {
      LabelText(s, item, rest);
    }
    if MatchLabel(s).Label? {
      LabelRead(s);
    }
  }

  /** Item i is the last one for this key. */
  predicate IsLastFor(items: seq<Item>, i: nat, key: string) {
    i < |items| && items[i].0 == key && forall j :: i < j < |items| ==> items[j].0 != key
  }

  /** Of several values for one key the last is kept, and no key is invented. */
  lemma {:induction false} LastLabelWins(items: seq<Item>, key: string) returns (i: nat)
    ensures key in Collected(items) <==> exists j :: 0 <= j < |items| && items[j].0 == key
    ensures key in Collected(items) ==> IsLastFor(items, i, key) && Collected(items)[key] == items[i].1
  {
    i := 0;
    if items != [] {
      var n := |items| - 1;
      i := LastLabelWins(items[..n], key);
      if items[n].0 == key {
        i := n;
      }
    }
  }

  // ---- one line ----

  ghost predicate IsBlock(block: string, labels: string) {
    (block == "" && labels == "") || (block == "{" + labels + "}" && All(labels, NotCloseBrace))
  }

  ghost predicate IsStamp(tail: string, gap: string, stamp: string, trailing: string) {
    && tail == gap + stamp + trailing && gap != "" && stamp != ""
    && All(gap, IsSpace) && All(stamp, IsDigit) && All(trailing, IsSpace)
  }

  /** White space, or an integer timestamp with white space before it and perhaps after it. */
  ghost predicate IsTail(tail: string) {
    All(tail, IsSpace) || exists gap, stamp, trailing :: IsStamp(tail, gap, stamp, trailing)
  }

  ghost predicate IsValue(rest: string, gap: string, value: string, tail: string) {
    && rest == gap + value + tail && gap != "" && All(gap, IsSpace)
    && value != "" && All(value, NotSpace) && IsTail(tail)
  }

  ghost predicate IsLineText(s: string, name: string, labels: string, value: string) {
    && name != "" && IsNameStart(name[0]) && All(name, IsNameChar)
    && exists block, gap, tail :: s == name + block + gap + value + tail && IsBlock(block, labels)
                                  && IsValue(gap + value + tail, gap, value, tail)
  }

  lemma TailText(tail: string)
    ensures MatchTail(tail) <==> IsTail(tail)
  {
    var w := Span(tail, IsSpace);
    var d := Span(tail[w..], IsDigit);
    if w == |tail| {
      assert All(tail, IsSpace);
    } else if MatchTail(tail) {
      assert tail == tail[..w] + tail[w..][..d] + tail[w..][d..];
      assert IsStamp(tail, tail[..w], tail[w..][..d], tail[w..][d..]);
    } else if exists gap, stamp, trailing :: IsStamp(tail, gap, stamp, trailing) {
      var gap, stamp, trailing :| IsStamp(tail, gap, stamp, trailing);
      StampScans(tail, gap, stamp, trailing);
    }
  }

  lemma StampScans(tail: string, gap: string, stamp: string, trailing: string)
    requires IsStamp(tail, gap, stamp, trailing)
    ensures MatchTail(tail)
  {
    assert tail == gap + (stamp + trailing);
    assert IsDigit(stamp[0]) && !IsSpace(stamp[0]);
    SpanIs(gap, stamp + trailing, IsSpace);
    assert tail[|gap|..] == stamp + trailing;
    assert trailing != "" ==> IsSpace(trailing[0]) && !IsDigit(trailing[0]);
    SpanIs(stamp, trailing, IsDigit);
    assert (stamp + trailing)[|stamp|..] == trailing;
    SpanIs(trailing, "", IsSpace);
    assert trailing + "" == trailing;
  }

  lemma TailHead(tail: string)
    requires IsTail(tail) && tail != ""
    ensures IsSpace(tail[0])
  {
    if !All(tail, IsSpace) {
      var gap, stamp, trailing :| IsStamp(tail, gap, stamp, trailing);
      assert tail[0] == gap[0];
    }
  }

  lemma ValueScans(rest: string, gap: string, value: string, tail: string)
    requires IsValue(rest, gap, value, tail)
    ensures MatchValue(rest) == Some(value)
  {
    assert rest == gap + (value + tail);
    assert !IsSpace(value[0]);
    SpanIs(gap, value + tail, IsSpace);
    assert rest[|gap|..] == value + tail;
    if tail != "" {
      TailHead(tail);
    }
    SpanIs(value, tail, NotSpace);
    assert (value + tail)[|value|..] == tail && (value + tail)[..|value|] == value;
    TailText(tail);
  }

  lemma ValueRead(rest: string) returns (gap: string, tail: string)
    requires MatchValue(rest).Some?
    ensures IsValue(rest, gap, MatchValue(rest).value, tail)
  {
    var w, v := Span(rest, IsSpace), Span(rest[Span(rest, IsSpace)..], NotSpace);
    gap, tail := rest[..w], rest[w..][v..];
    TailText(tail);
    CutTwice(rest, w, v);
  }

  lemma CutTwice(s: string, i: nat, j: nat)
    requires i <= |s| && j <= |s[i..]|
    ensures s == s[..i] + s[i..][..j] + s[i..][j..]
  {
  }

  lemma BlockRead(rest: string) returns (block: string)
    requires MatchBlock(rest).Some?
    ensures IsBlock(block, MatchBlock(rest).value.0) && rest == block + MatchBlock(rest).value.1
  {
    if rest != "" && rest[0] == '{' {
      var m := Span(rest[1..], NotCloseBrace);
      block := "{" + rest[1..][..m] + "}";
      Rejoin(rest[1..], m);
      Braced(rest, rest[1..][..m], rest[1..][m..], rest[1..][m + 1..]);
    } else {
      block := "";
    }
  }

  lemma Braced(s: string, body: string, tail: string, after: string)
    requires s != "" && s[0] == '{' && s[1..] == body + tail && tail == "}" + after
    ensures s == "{" + body + "}" + after
  {
    assert s == "{" + s[1..];
  }

  lemma BlockScans(block: string, labels: string, rest: string)
    requires IsBlock(block, labels) && rest != "" && rest[0] != '{'
    ensures MatchBlock(block + rest) == Some((labels, rest))
  {
    if block == "" {
      assert "" + rest == rest;
    } else {
      var s := block + rest;
      assert s[1..] == labels + ("}" + rest);
      SpanIs(labels, "}" + rest, NotCloseBrace);
      assert s[1..][..|labels|] == labels && s[1..][|labels| + 1..] == rest;
    }
  }

  lemma LineParts(name: string, tail: string, labels: string, rest: string, value: string)
    requires name != "" && IsNameStart(name[0]) && All(name, IsNameChar) && tail != "" && !IsNameChar(tail[0])
    requires MatchBlock(tail) == Some((labels, rest)) && MatchValue(rest) == Some(value)
    ensures MatchLine(name + tail) == Line(name, labels, value)
  {
    SpanIs(name, tail, IsNameChar);
    assert (name + tail)[..|name|] == name && (name + tail)[|name|..] == tail;
  }

  lemma LineJoined(name: string, block: string, gap: string, value: string, tail: string)
    ensures name + block + gap + value + tail == name + (block + (gap + value + tail))
  {
  }

  lemma BlockHead(block: string, labels: string, rest: string)
    requires IsBlock(block, labels) && rest != "" && IsSpace(rest[0])
    ensures block + rest != "" && !IsNameChar((block + rest)[0])
  {
  }

  lemma BlockThenValue(name: string, block: string, labels: string, rest: string, value: string)
    requires name != "" && IsNameStart(name[0]) && All(name, IsNameChar) && IsBlock(block, labels)
    requires rest != "" && IsSpace(rest[0]) && MatchValue(rest) == Some(value)
    ensures MatchLine(name + (block + rest)) == Line(name, labels, value)
  {
    BlockHead(block, labels, rest);
    BlockScans(block, labels, rest);
    LineParts(name, block + rest, labels, rest, value);
  }

  lemma LineScans(name: string, block: string, labels: string, gap: string, value: string, tail: string)
    requires name != "" && IsNameStart(name[0]) && All(name, IsNameChar) && IsBlock(block, labels)
    requires IsValue(gap + value + tail, gap, value, tail)
    ensures MatchLine(name + block + gap + value + tail) == Line(name, labels, value)
  {
    var rest := gap + value + tail;
    assert rest[0] == gap[0];
    ValueScans(rest, gap, value, tail);
    LineJoined(name, block, gap, value, tail);
    BlockThenValue(name, block, labels, rest, value);
  }

  lemma LineCaptures(s: string) returns (n: nat, labels: string, rest: string)
    requires MatchLine(s).Line?
    ensures 0 < n <= |s| && IsNameStart(s[0]) && All(s[..n], IsNameChar) && MatchLine(s).name == s[..n]
    ensures MatchBlock(s[n..]) == Some((labels, rest)) && MatchLine(s).labels == labels
    ensures MatchValue(rest) == Some(MatchLine(s).value)
  {
    n := Span(s, IsNameChar);
    labels, rest := MatchBlock(s[n..]).value.0, MatchBlock(s[n..]).value.1;
  }

  lemma LineRead(s: string)
    requires MatchLine(s).Line?
    ensures IsLineText(s, MatchLine(s).name, MatchLine(s).labels, MatchLine(s).value)
  {
    var n, labels, rest := LineCaptures(s);
    var block := BlockRead(s[n..]);
    var gap, tail := ValueRead(rest);
    LineFound(s, n, block, labels, gap, MatchLine(s).value, tail);
  }

  lemma LineFound(s: string, n: nat, block: string, labels: string, gap: string, value: string, tail: string)
    requires 0 < n <= |s| && IsNameStart(s[0]) && All(s[..n], IsNameChar) && IsBlock(block, labels)
    requires s[n..] == block + (gap + value + tail) && IsValue(gap + value + tail, gap, value, tail)
    ensures IsLineText(s, s[..n], labels, value)
  {
    assert s == s[..n] + s[n..];
    LineJoined(s[..n], block, gap, value, tail);
  }

  /** The line scanner accepts a text exactly when the line pattern does, and captures the same three groups. */
  lemma LineText(s: string, name: string, labels: string, value: string)
    ensures MatchLine(s) == Line(name, labels, value) <==> IsLineText(s, name, labels, value)
  {
    if MatchLine(s) == Line(name, labels, value) {
      LineRead(s);
    }
    if IsLineText(s, name, labels, value) {
      var block, gap, tail :| s == name + block + gap + value + tail && IsBlock(block, labels)
                              && IsValue(gap + value + tail, gap, value, tail);
      LineScans(name, block, labels, gap, value, tail);
    }
  }

  lemma NoLineText(s: string)
    ensures MatchLine(s).NoLine? <==> !exists name, labels, value :: IsLineText(s, name, labels, value)
  {
    if MatchLine(s).Line? {
      LineRead(s);
    } else {
      forall name, labels, value
        ensures !IsLineText(s, name, labels, value)
      {
        LineText(s, name, labels, value);
      }
    }
  }

  // ---- cutting a text into lines and trimming them ----

  lemma {:induction false} TrimEndOf(core: string, trailing: string)
    requires All(trailing, IsSpace) && (core == "" || !IsSpace(core[|core| - 1]))
    ensures TrimEnd(core + trailing) == core
    decreases |trailing|
  {
    if trailing == "" {
      assert core + "" == core;
    } else {
      var n := |trailing| - 1;
      assert (core + trailing)[..|core + trailing| - 1] == core + trailing[..n];
      TrimEndOf(core, trailing[..n]);
    }
  }

  /** Trimming takes away the white space on both sides and nothing else. */
  lemma StripText(leading: string, core: string, trailing: string)
    requires All(leading, IsSpace) && All(trailing, IsSpace)
    requires core == "" || (!IsSpace(core[0]) && !IsSpace(core[|core| - 1]))
    ensures Strip(leading + core + trailing) == core
  {
    var s := leading + core + trailing;
    if core == "" {
      assert leading + "" + trailing == leading + trailing;
      SpanIs(leading + trailing, "", IsSpace);
      assert leading + trailing + "" == leading + trailing;
      assert s[|s|..] == "";
    } else {
      assert s == leading + (core + trailing);
      SpanIs(leading, core + trailing, IsSpace);
      assert s[|leading|..] == core + trailing;
      TrimEndOf(core, trailing);
    }
  }

  /** A carriage return with a line feed is one break; any other line boundary is one by itself. */
  lemma SplitText(line: string, boundary: string, rest: string)
    requires All(line, NotLineBreak)
    requires || boundary == "\r\n"
             || (|boundary| == 1 && IsLineBreak(boundary[0])
                 && !(boundary == "\r" && rest != "" && rest[0] == '\n'))
    ensures SplitLines(line + boundary + rest) == [line] + SplitLines(rest)
  {
    var s := line + boundary + rest;
    assert s == line + (boundary + rest);
    SpanIs(line, boundary + rest, NotLineBreak);
    assert s[..|line|] == line && s[|line|] == boundary[0] && s[|line| + |boundary|..] == rest;
    if boundary == "\r\n" {
      assert s[|line| + 1] == '\n';
    } else if rest != "" {
      assert s[|line| + 1] == rest[0];
    }
  }

  lemma SplitLast(line: string)
    requires All(line, NotLineBreak)
    ensures SplitLines(line) == if line == "" then [] else [line]
  {
    SpanIs(line, "", NotLineBreak);
    assert line + "" == line;
  }
}
