/** The renderer and the audit's parser, written independently, undo each other. */
module ExpositionRoundTrip {
  import opened Wrappers
  import opened Sequences
  import opened Sorting
  import opened Text
  import opened MetricLabels
  import opened Exposition
  import opened ExpositionParser
  import opened ExpositionGrammar

  /** A name the line pattern captures whole. */
  predicate IsName(name: string) { name != "" && IsNameStart(name[0]) && All(name, IsNameChar) }

  /** One that the schema of a parsed sample accepts as well. */
  predicate LegalName(name: string) { IsName(name) && |name| <= MAX_NAME }

  predicate LegalItem(item: Item) {
    && item.0 != "" && IsLabelStart(item.0[0]) && All(item.0, IsLabelChar)
    && All(item.1, NotQuote) && All(item.1, NotCloseBrace) && All(item.1, NotLineBreak)
  }

  predicate LegalLabels(m: Labels) { forall k :: k in m ==> LegalItem((k, m[k])) }

  /** A printed decimal is one token, and reading it gives the value back. */
  predicate LegalNumeral(v: real, show: Printer, read: Reader) {
    show(v) != "" && All(show(v), NotSpace) && read(show(v)) == Finite(v)
  }

  predicate Printable(s: Sample, show: Printer, read: Reader) {
    IsName(s.name) && All(s.helpText, NotLineBreak) && LegalLabels(s.labels) && LegalNumeral(s.value, show, read)
  }

  predicate AllPrintable(samples: seq<Sample>, show: Printer, read: Reader) {
    forall s :: s in samples ==> Printable(s, show, read)
  }

  predicate AllShort(samples: seq<Sample>) { forall s :: s in samples ==> |s.name| <= MAX_NAME }

  predicate LegalItems(items: seq<Item>) { forall i :: 0 <= i < |items| ==> LegalItem(items[i]) }

  // ---- the label block ----

  lemma FindOne(item: Item, rest: string)
    requires LegalItem(item)
    ensures FindLabels(Quoted(item) + rest) == [item] + FindLabels(rest)
  {
    LabelScans(item, rest);
  }

  lemma SkipComma(rest: string)
    ensures FindLabels("," + rest) == FindLabels(rest)
  {
    assert MatchLabel("," + rest) == NoLabel;
    assert ("," + rest)[1..] == rest;
  }

  lemma {:induction false} FindAll(items: seq<Item>)
    requires LegalItems(items)
    ensures FindLabels(Join(QuotedAll(items), ",")) == items
  {
    if |items| == 1 {
      FindOne(items[0], "");
      assert Quoted(items[0]) + "" == Quoted(items[0]);
      assert FindLabels("") == [];
    } else if items != [] {
      var tail := Join(QuotedAll(items[1..]), ",");
      assert QuotedAll(items)[1..] == QuotedAll(items[1..]);
      assert Join(QuotedAll(items), ",") == Quoted(items[0]) + ("," + tail);
      FindOne(items[0], "," + tail);
      SkipComma(tail);
      FindAll(items[1..]);
    }
  }

  lemma {:induction false} CollectedHolds(items: seq<Item>)
    requires DistinctKeys(items)
    ensures Holds(Collected(items), items)
  {
    if items != [] {
      var n := |items| - 1;
      CollectedHolds(items[..n]);
      assert items == items[..n] + [items[n]];
      HoldsExtend(Collected(items[..n]), items[..n], items[n]);
    }
  }

  lemma LabelsComeBack(m: Labels)
    requires LegalLabels(m)
    ensures LegalItems(SortedItems(m))
    ensures Collected(FindLabels(Join(QuotedAll(SortedItems(m)), ","))) == m
  {
    var items := SortedItems(m);
    SortedItemsHold(m);
    forall i | 0 <= i < |items|
      ensures LegalItem(items[i])
    {
      assert items[i] == (items[i].0, m[items[i].0]);
    }
    FindAll(items);
    CollectedHolds(items);
    HoldsUnique(Collected(items), m, items);
  }

  lemma {:induction false} JoinAll(parts: seq<string>, sep: string, p: char -> bool)
    requires All(sep, p) && forall i :: 0 <= i < |parts| ==> All(parts[i], p)
    ensures All(Join(parts, sep), p)
  {
    if |parts| > 1 {
      JoinAll(parts[1..], sep, p);
    }
  }

  lemma BlockBody(items: seq<Item>)
    requires LegalItems(items)
    ensures All(Join(QuotedAll(items), ","), NotCloseBrace) && All(Join(QuotedAll(items), ","), NotLineBreak)
  {
    JoinAll(QuotedAll(items), ",", NotCloseBrace);
    JoinAll(QuotedAll(items), ",", NotLineBreak);
  }

  // ---- one line ----

  /** The text the label group of the line pattern captures. */
  function BlockText(m: Labels): string { if m == map[] then "" else Join(QuotedAll(SortedItems(m)), ",") }

  lemma BlockAsRead(m: Labels)
    requires LegalLabels(m)
    ensures IsBlock(LabelBlock(m), BlockText(m))
  {
    if m != map[] {
      LabelsComeBack(m);
      BlockBody(SortedItems(m));
    }
  }

  lemma LineComesBack(s: Sample, show: Printer, read: Reader)
    requires Printable(s, show, read)
    ensures MatchLine(FormatLine(s, show)) == Line(s.name, BlockText(s.labels), show(s.value))
  {
    BlockAsRead(s.labels);
    PiecesComeBack(s.name, LabelBlock(s.labels), BlockText(s.labels), show(s.value));
  }

  lemma PiecesComeBack(name: string, block: string, labels: string, token: string)
    requires IsName(name) && IsBlock(block, labels) && token != "" && All(token, NotSpace)
    ensures MatchLine(name + block + " " + token) == Line(name, labels, token)
  {
    assert " " + token + "" == " " + token;
    assert name + block + " " + token + "" == name + block + " " + token;
    LineScans(name, block, labels, " ", token, "");
  }

  lemma AllWeakens(s: string, p: char -> bool, q: char -> bool)
    requires All(s, p) && forall c :: p(c) ==> q(c)
    ensures All(s, q)
  {
  }

  lemma BlockIsBare(m: Labels)
    requires LegalLabels(m)
    ensures All(LabelBlock(m), NotLineBreak)
  {
    if m != map[] {
      LabelsComeBack(m);
      BlockBody(SortedItems(m));
    }
  }

  lemma LineIsBare(s: Sample, show: Printer, read: Reader)
    requires Printable(s, show, read)
    ensures var l := FormatLine(s, show); Strip(l) == l && l != "" && l[0] != '#' && All(l, NotLineBreak)
  {
    var l, token := FormatLine(s, show), show(s.value);
    assert l[0] == s.name[0] && IsNameChar(s.name[0]);
    assert l[|l| - 1] == token[|token| - 1];
    StripNothing(l);
    AllWeakens(s.name, IsNameChar, NotLineBreak);
    AllWeakens(token, NotSpace, NotLineBreak);
    BlockIsBare(s.labels);
  }

  function Triple(s: Sample): Parsed { Parsed(s.name, s.value, s.labels) }

  lemma BlockTextReads(m: Labels)
    requires LegalLabels(m)
    ensures Collected(FindLabels(BlockText(m))) == m
  {
    LabelsComeBack(m);
    if m == map[] {
      assert SortedItems(m) == [];
    }
  }

  lemma AbsorbBare(o: Outcome, line: string, n: nat, read: Reader, m: LineMatch)
    requires Strip(line) == line && line != "" && line[0] != '#' && MatchLine(line) == m
    ensures Absorb(o, line, n, read) == AbsorbMatch(o, m, n, read)
  {
  }

  lemma AbsorbLine(o: Outcome, s: Sample, n: nat, show: Printer, read: Reader)
    requires Printable(s, show, read)
    ensures Absorb(o, FormatLine(s, show), n, read)
         == if |s.name| > MAX_NAME then Failure(NameTooLong(n))
            else Success(o.(samples := o.samples + [Triple(s)]))
  {
    LineIsBare(s, show, read);
    LineComesBack(s, show, read);
    BlockTextReads(s.labels);
    AbsorbBare(o, FormatLine(s, show), n, read, Line(s.name, BlockText(s.labels), show(s.value)));
    MatchAdds(o, s.name, BlockText(s.labels), show(s.value), s.value, n, read);
  }

  lemma MatchAdds(o: Outcome, name: string, labels: string, token: string, v: real, n: nat, read: Reader)
    requires read(token) == Finite(v)
    ensures AbsorbMatch(o, Line(name, labels, token), n, read)
         == if |name| > MAX_NAME then Failure(NameTooLong(n))
            else Success(o.(samples := o.samples + [Parsed(name, v, Collected(FindLabels(labels)))]))
  {
  }

  lemma {:induction false} TrimEndKeepsHead(s: string)
    requires s != "" && !IsSpace(s[0])
    ensures TrimEnd(s) != "" && TrimEnd(s)[0] == s[0]
    decreases |s|
  {
    if IsSpace(s[|s| - 1]) {
      TrimEndKeepsHead(s[..|s| - 1]);
    }
  }

  lemma AbsorbComment(o: Outcome, line: string, n: nat, read: Reader)
    requires line != "" && line[0] == '#'
    ensures Absorb(o, line, n, read) == Success(o)
  {
    assert Span(line, IsSpace) == 0;
    assert line[0..] == line;
    TrimEndKeepsHead(line);
  }

  // ---- the whole text ----

  function Triples(samples: seq<Sample>): seq<Parsed> {
    if samples == [] then [] else Triples(samples[..|samples| - 1]) + [Triple(samples[|samples| - 1])]
  }

  lemma HeadingsIgnored(lines: seq<string>, s: Sample, read: Reader)
    requires IsName(s.name) && All(s.helpText, NotLineBreak)
    ensures ParseLines(lines + Headings(s), read) == ParseLines(lines, read)
  {
    var h := Headings(s);
    HeadingsAreComments(s);
    CommentIgnored(lines, h[0], read);
    CommentIgnored(lines + [h[0]], h[1], read);
    assert lines + [h[0]] + [h[1]] == lines + h;
  }

  lemma CommentIgnored(lines: seq<string>, line: string, read: Reader)
    requires line != "" && line[0] == '#'
    ensures ParseLines(lines + [line], read) == ParseLines(lines, read)
  {
    ParseExtend(lines, line, read);
    if ParseLines(lines, read).Success? {
      AbsorbComment(ParseLines(lines, read).value, line, |lines| + 1, read);
    }
  }

  /** What one more sample does to what has been read, with or without its headings. */
  lemma SampleAdded(lines: seq<string>, headings: seq<string>, s: Sample, show: Printer, read: Reader)
    requires Printable(s, show, read) && (headings == [] || headings == Headings(s))
    ensures var r := ParseLines(lines + headings + [FormatLine(s, show)], read);
            match ParseLines(lines, read)
            case Failure(_) => r.Failure?
            case Success(o) =>
              if |s.name| > MAX_NAME then r.Failure? else r == Success(o.(samples := o.samples + [Triple(s)]))
  {
    HeadingsIgnored(lines, s, read);
    assert lines + [] == lines;
    ParseExtend(lines + headings, FormatLine(s, show), read);
    if ParseLines(lines, read).Success? {
      AbsorbLine(ParseLines(lines, read).value, s, |lines + headings| + 1, show, read);
    }
  }

  /** The lines of printable samples read back as their triples, or raise when some name is too long. */
  lemma {:induction false} LinesComeBack(samples: seq<Sample>, show: Printer, read: Reader)
    requires AllPrintable(samples, show, read)
    ensures AllShort(samples) ==> ParseLines(Lines(samples, show), read) == Success(Outcome(Triples(samples), []))
    ensures !AllShort(samples) ==> ParseLines(Lines(samples, show), read).Failure?
  {
    if samples != [] {
      var n := |samples| - 1;
      var s := samples[n];
      assert samples == samples[..n] + [s];
      LinesComeBack(samples[..n], show, read);
      SampleAdded(Lines(samples[..n], show), if s.name in Names(samples[..n]) then [] else Headings(s), s, show, read);
    }
  }

  lemma {:induction false} LinesHaveNoBreaks(samples: seq<Sample>, show: Printer, read: Reader)
    requires AllPrintable(samples, show, read)
    ensures forall l :: l in Lines(samples, show) ==> All(l, NotLineBreak)
  {
    if samples != [] {
      var s := samples[|samples| - 1];
      LinesHaveNoBreaks(samples[..|samples| - 1], show, read);
      LineIsBare(s, show, read);
      HeadingsAreComments(s);
      assert Headings(s) == [Headings(s)[0], Headings(s)[1]];
    }
  }

  lemma HeadingsAreComments(s: Sample)
    requires IsName(s.name) && All(s.helpText, NotLineBreak)
    ensures forall i :: 0 <= i < 2 ==>
              Headings(s)[i] != "" && Headings(s)[i][0] == '#' && All(Headings(s)[i], NotLineBreak)
  {
    assert forall i :: 0 <= i < |s.name| ==> IsNameChar(s.name[i]);
    assert All("# HELP ", NotLineBreak) && All("# TYPE ", NotLineBreak) && All(TypeName(s.kind), NotLineBreak);
  }

  /**
   * Parsing the rendered text gives back every sample's name, labels and value, in the order of the
   * sort key, and reports no error; a name over the limit raises instead.
   */
  lemma PrintParseRoundTrip(samples: seq<Sample>, show: Printer, read: Reader)
    requires AllPrintable(samples, show, read)
    ensures var r := ParseLines(SplitLines(Rendered(samples, show)), read);
            if AllShort(samples) then r == Success(Outcome(Triples(Sort(samples, SampleLeq)), [])) else r.Failure?
  {
    var sorted := Sort(samples, SampleLeq);
    SortedAlike(samples);
    assert AllPrintable(sorted, show, read);
    LinesComeBack(sorted, show, read);
    LinesHaveNoBreaks(sorted, show, read);
    SplitUnlines(Lines(sorted, show));
  }

  lemma SortedAlike(samples: seq<Sample>)
    ensures forall s :: s in samples <==> s in Sort(samples, SampleLeq)
    ensures AllShort(samples) <==> AllShort(Sort(samples, SampleLeq))
  {
    var sorted := Sort(samples, SampleLeq);
    SampleLeqTotal();
    SortCorrect(samples, SampleLeq);
    forall s
      ensures s in samples <==> s in sorted
    {
      assert s in samples <==> s in multiset(samples);
      assert s in sorted <==> s in multiset(sorted);
    }
  }

  // ---- each name is headed once ----

  function Heading(word: string, name: string): string { "# " + word + " " + name + " " }

  /** How many of the lines head this name with this word. */
  function HeadingCount(lines: seq<string>, word: string, name: string): nat {
    Count(lines, (l: string) => Heading(word, name) <= l)
  }

  lemma NamesDelimited(a: string, b: string, rest: string)
    requires IsName(a) && IsName(b) && a + " " <= b + " " + rest
    ensures a == b
  {
    var line := b + " " + rest;
    var tail := line[|a| + 1..];
    assert line == a + (" " + tail) && line == b + (" " + rest);
    SpanIs(a, " " + tail, IsNameChar);
    SpanIs(b, " " + rest, IsNameChar);
    assert line[..|a|] == a && line[..|b|] == b;
  }

  lemma HeadsOnlyItself(word: string, other: string, a: string, b: string, rest: string)
    requires word in {"HELP", "TYPE"} && other in {"HELP", "TYPE"} && IsName(a) && IsName(b)
    ensures Heading(word, a) <= Heading(other, b) + rest <==> word == other && a == b
  {
    var line := Heading(other, b) + rest;
    assert line[2] == other[0];
    if Heading(word, a) <= line {
      assert line[2] == Heading(word, a)[2] == word[0];
      assert line[7..] == b + " " + rest;
      assert Heading(word, a)[7..] == a + " ";
      NamesDelimited(a, b, rest);
    }
  }

  lemma SampleLineHeadsNothing(s: Sample, word: string, name: string, show: Printer)
    requires IsName(s.name)
    ensures !(Heading(word, name) <= FormatLine(s, show))
  {
    assert FormatLine(s, show)[0] == s.name[0] != '#';
  }

  lemma HeadingsCount(s: Sample, word: string, name: string)
    requires word in {"HELP", "TYPE"} && IsName(s.name) && IsName(name)
    ensures HeadingCount(Headings(s), word, name) == if s.name == name then 1 else 0
  {
    HelpHeads(s, word, name);
    TypeHeads(s, word, name);
    CountTwo(Headings(s)[0], Headings(s)[1], (l: string) => Heading(word, name) <= l);
    assert Headings(s) == [Headings(s)[0], Headings(s)[1]];
  }

  lemma HelpHeads(s: Sample, word: string, name: string)
    requires word in {"HELP", "TYPE"} && IsName(s.name) && IsName(name)
    ensures Heading(word, name) <= Headings(s)[0] <==> word == "HELP" && name == s.name
  {
    HeadsOnlyItself(word, "HELP", name, s.name, s.helpText);
    assert Headings(s)[0] == Heading("HELP", s.name) + s.helpText;
  }

  lemma TypeHeads(s: Sample, word: string, name: string)
    requires word in {"HELP", "TYPE"} && IsName(s.name) && IsName(name)
    ensures Heading(word, name) <= Headings(s)[1] <==> word == "TYPE" && name == s.name
  {
    HeadsOnlyItself(word, "TYPE", name, s.name, TypeName(s.kind));
    assert Headings(s)[1] == Heading("TYPE", s.name) + TypeName(s.kind);
  }

  lemma CountTwo(a: string, b: string, p: string -> bool)
    ensures Count([a, b], p) == (if p(a) then 1 else 0) + if p(b) then 1 else 0
  {
    CountOneMore([], a, p);
    CountOneMore([a], b, p);
    assert [] + [a] == [a] && [a] + [b] == [a, b];
  }

  /** What one more sample adds to the headings of a name, with or without its own. */
  lemma HeadedStep(
      before: seq<string>, headings: seq<string>, s: Sample, word: string, name: string, show: Printer)
    requires word in {"HELP", "TYPE"} && IsName(s.name) && IsName(name) && (headings == [] || headings == Headings(s))
    ensures HeadingCount(before + headings + [FormatLine(s, show)], word, name)
         == HeadingCount(before, word, name) + if headings != [] && s.name == name then 1 else 0
  {
    var heads := (l: string) => Heading(word, name) <= l;
    HeadingsCount(s, word, name);
    SampleLineHeadsNothing(s, word, name, show);
    CountConcat(before, headings, heads);
    CountOneMore(before + headings, FormatLine(s, show), heads);
  }

  /** However many samples share a name, the text has one HELP and one TYPE line for it. */
  lemma {:induction false} HeadedOnce(samples: seq<Sample>, word: string, name: string, show: Printer)
    requires word in {"HELP", "TYPE"} && IsName(name) && forall s :: s in samples ==> IsName(s.name)
    ensures HeadingCount(Lines(samples, show), word, name) == if name in Names(samples) then 1 else 0
  {
    if samples != [] {
      var n := |samples| - 1;
      var s := samples[n];
      assert samples == samples[..n] + [s];
      HeadedOnce(samples[..n], word, name, show);
      var headings := if s.name in Names(samples[..n]) then [] else Headings(s);
      HeadedStep(Lines(samples[..n], show), headings, s, word, name, show);
    }
  }

  /** At this place stand the help and the type of the sample's name, and then the sample. */
  predicate HeadedAt(lines: seq<string>, k: nat, s: Sample, show: Printer) {
    && k + 2 < |lines|
    && lines[k] == "# HELP " + s.name + " " + s.helpText
    && lines[k + 1] == "# TYPE " + s.name + (if s.kind == COUNTER then " counter" else " gauge")
    && lines[k + 2] == FormatLine(s, show)
  }

  lemma {:induction false} InNames(samples: seq<Sample>, name: string)
    ensures name in Names(samples) <==> exists i :: 0 <= i < |samples| && samples[i].name == name
  {
    if samples != [] {
      InNames(samples[..|samples| - 1], name);
    }
  }

  lemma HeadedLast(before: seq<string>, s: Sample, show: Printer)
    ensures HeadedAt(before + Headings(s) + [FormatLine(s, show)], |before|, s, show)
  {
    assert "# TYPE " + s.name + " " + TypeName(s.kind) == "# TYPE " + s.name + (" " + TypeName(s.kind));
    assert " " + TypeName(s.kind) == if s.kind == COUNTER then " counter" else " gauge";
  }

  lemma HeadedLonger(before: seq<string>, more: seq<string>, k: nat, s: Sample, show: Printer)
    requires HeadedAt(before, k, s, show)
    ensures HeadedAt(before + more, k, s, show)
  {
  }

  /** The first sample of a name stands right under the name's help and type. */
  lemma {:induction false} HeadingsPrecede(samples: seq<Sample>, i: nat, show: Printer) returns (k: nat)
    requires i < |samples| && forall j :: 0 <= j < i ==> samples[j].name != samples[i].name
    ensures HeadedAt(Lines(samples, show), k, samples[i], show)
  {
    var n := |samples| - 1;
    var before := Lines(samples[..n], show);
    if i == n {
      InNames(samples[..n], samples[n].name);
      k := |before|;
      HeadedLast(before, samples[n], show);
    } else {
      k := HeadingsPrecede(samples[..n], i, show);
      var headings := if samples[n].name in Names(samples[..n]) then [] else Headings(samples[n]);
      HeadedLonger(before, headings, k, samples[i], show);
      HeadedLonger(before + headings, [FormatLine(samples[n], show)], k, samples[i], show);
    }
  }

  /** A sample's line: the name, its labels in key order inside braces, one blank and the value. */
  lemma LinesAsWritten(s: Sample, a: Item, b: Item, show: Printer)
    requires a.0 != b.0 && LexLeq(a.0, b.0)
    ensures FormatLine(s.(labels := map[]), show) == s.name + " " + show(s.value)
    ensures FormatLine(s.(labels := map[b.0 := b.1, a.0 := a.1]), show)
         == s.name + ("{" + (a.0 + "=\"" + a.1 + "\"" + "," + (b.0 + "=\"" + b.1 + "\"")) + "}") + " " + show(s.value)
  {
    TwoItems(a, b);
    assert map[b.0 := b.1, a.0 := a.1] == map[a.0 := a.1, b.0 := b.1];
    assert a.0 in map[a.0 := a.1, b.0 := b.1];
    assert QuotedAll([a, b]) == [Quoted(a), Quoted(b)];
    assert Join([Quoted(b)], ",") == Quoted(b);
    assert s.name + "" == s.name;
  }

  lemma {:induction false} UnlinesEnds(lines: seq<string>)
    requires lines != []
    ensures Unlines(lines) != "" && Unlines(lines)[|Unlines(lines)| - 1] == '\n'
  {
    if |lines| > 1 {
      UnlinesEnds(lines[1..]);
    }
  }

  /** No samples give the empty text; any other text ends with a line feed. */
  lemma TextEnds(samples: seq<Sample>, show: Printer)
    ensures var text := Rendered(samples, show);
            if samples == [] then text == "" else text != "" && text[|text| - 1] == '\n'
  {
    var sorted := Sort(samples, SampleLeq);
    SampleLeqTotal();
    SortCorrect(samples, SampleLeq);
    if samples != [] {
      assert Lines(sorted, show) != [];
      UnlinesEnds(Lines(sorted, show));
    }
  }

  /** The samples are sorted by name and then by label key, so those of one name stand together. */
  lemma SamplesInOrder(samples: seq<Sample>)
    ensures var sorted := Sort(samples, SampleLeq);
            forall i, j :: 0 <= i < j < |sorted| ==>
              var s, t := sorted[i], sorted[j];
              LexLeq(s.name, t.name) && (s.name == t.name ==> LexLeq(Serialize(s.labels), Serialize(t.labels)))
  {
    SampleLeqTotal();
    SortCorrect(samples, SampleLeq);
    forall n: string
      ensures LexLeq(n, n)
    {
      LexTotal(n, n);
    }
  }

  // ---- and only such samples come back ----

  /** What the two patterns can produce at all, whatever the text. */
  predicate Producible(p: Parsed) { LegalName(p.name) && LegalLabels(p.labels) }

  predicate Bare(s: string) { All(s, NotCloseBrace) && All(s, NotLineBreak) }

  lemma MatchedIsLegal(s: string)
    requires Bare(s) && MatchLabel(s).Label?
    ensures LegalItem(MatchLabel(s).item) && Bare(MatchLabel(s).rest)
  {
    var n := Span(s, IsLabelChar);
    assert n > 0;
    var value := s[n + 2..];
    assert Bare(value);
    assert All(value[..Span(value, NotQuote)], NotQuote);
  }

  lemma {:induction false} FoundAreLegal(s: string)
    requires Bare(s)
    ensures LegalItems(FindLabels(s))
    decreases |s|
  {
    if s != "" {
      if MatchLabel(s).Label? {
        MatchedIsLegal(s);
        FoundAreLegal(MatchLabel(s).rest);
      } else {
        FoundAreLegal(s[1..]);
      }
    }
  }

  lemma {:induction false} CollectedAreLegal(items: seq<Item>)
    requires LegalItems(items)
    ensures LegalLabels(Collected(items))
  {
    if items != [] {
      CollectedAreLegal(items[..|items| - 1]);
      assert items[|items| - 1] == (items[|items| - 1].0, items[|items| - 1].1);
    }
  }

  lemma MatchedLineIsBare(s: string)
    requires All(s, NotLineBreak) && MatchLine(s).Line?
    ensures IsName(MatchLine(s).name) && Bare(MatchLine(s).labels)
  {
    var n := Span(s, IsNameChar);
    assert n > 0;
    assert All(s[..n], IsNameChar);
    assert All(s[n..], NotLineBreak);
  }

  lemma {:induction false} TrimEndKeepsAll(s: string, p: char -> bool)
    requires All(s, p)
    ensures All(TrimEnd(s), p)
    decreases |s|
  {
    if s != "" && IsSpace(s[|s| - 1]) {
      TrimEndKeepsAll(s[..|s| - 1], p);
    }
  }

  predicate AllProducible(ps: seq<Parsed>) { forall i :: 0 <= i < |ps| ==> Producible(ps[i]) }

  lemma MatchedProduces(m: LineMatch, v: real)
    requires m.Line? && LegalName(m.name) && Bare(m.labels)
    ensures Producible(Parsed(m.name, v, Collected(FindLabels(m.labels))))
  {
    FoundAreLegal(m.labels);
    CollectedAreLegal(FindLabels(m.labels));
  }

  lemma StripKeepsAll(s: string, p: char -> bool)
    requires All(s, p)
    ensures All(Strip(s), p)
  {
    TrimEndKeepsAll(s[Span(s, IsSpace)..], p);
  }

  lemma AbsorbProduces(o: Outcome, m: LineMatch, n: nat, read: Reader)
    requires AllProducible(o.samples) && (m.Line? ==> IsName(m.name) && Bare(m.labels))
    ensures var r := AbsorbMatch(o, m, n, read); r.Success? ==> AllProducible(r.value.samples)
  {
    if m.Line? && read(m.value).Finite? && |m.name| <= MAX_NAME {
      MatchedProduces(m, read(m.value).value);
      OneMoreProducible(o.samples, Parsed(m.name, read(m.value).value, Collected(FindLabels(m.labels))));
    }
  }

  lemma LineProduces(o: Outcome, line: string, n: nat, read: Reader)
    requires AllProducible(o.samples) && All(line, NotLineBreak)
    ensures var r := Absorb(o, line, n, read); r.Success? ==> AllProducible(r.value.samples)
  {
    var stripped := Strip(line);
    StripKeepsAll(line, NotLineBreak);
    if MatchLine(stripped).Line? {
      MatchedLineIsBare(stripped);
    }
    AbsorbProduces(o, MatchLine(stripped), n, read);
  }

  lemma OneMoreProducible(ps: seq<Parsed>, p: Parsed)
    requires AllProducible(ps) && Producible(p)
    ensures AllProducible(ps + [p])
  {
  }

  lemma {:induction false} ParsedAreProducible(lines: seq<string>, read: Reader)
    requires forall l :: l in lines ==> All(l, NotLineBreak)
    ensures var r := ParseLines(lines, read); r.Success? ==> AllProducible(r.value.samples)
  {
    if lines != [] {
      var n := |lines| - 1;
      ParsedAreProducible(lines[..n], read);
      if ParseLines(lines[..n], read).Success? {
        LineProduces(ParseLines(lines[..n], read).value, lines[n], |lines|, read);
      }
    }
  }

  lemma {:induction false} TriplesAt(samples: seq<Sample>)
    ensures |Triples(samples)| == |samples|
    ensures forall i :: 0 <= i < |samples| ==> Triples(samples)[i] == Triple(samples[i])
  {
    if samples != [] {
      TriplesAt(samples[..|samples| - 1]);
    }
  }

  /**
   * The exact reach of the format: given readable numerals and one-line help texts, the triples come
   * back if and only if every name is a metric name within the limit and every label is one the pattern
   * can capture.
   */
  lemma RoundTripIff(samples: seq<Sample>, show: Printer, read: Reader)
    requires forall s :: s in samples ==> All(s.helpText, NotLineBreak) && LegalNumeral(s.value, show, read)
    ensures ParseLines(SplitLines(Rendered(samples, show)), read)
            == Success(Outcome(Triples(Sort(samples, SampleLeq)), []))
            <==> forall s :: s in samples ==> Producible(Triple(s))
  {
    if forall s :: s in samples ==> Producible(Triple(s)) {
      PrintParseRoundTrip(samples, show, read);
    }
    SplitLinesAreBare(Rendered(samples, show));
    ParsedAreProducible(SplitLines(Rendered(samples, show)), read);
    SortedAlike(samples);
    TriplesProducible(Sort(samples, SampleLeq));
  }

  lemma TriplesProducible(samples: seq<Sample>)
    ensures AllProducible(Triples(samples)) ==> forall s :: s in samples ==> Producible(Triple(s))
  {
    TriplesAt(samples);
    forall s | s in samples && AllProducible(Triples(samples))
      ensures Producible(Triple(s))
    {
      var i :| 0 <= i < |samples| && samples[i] == s;
      assert Producible(Triples(samples)[i]);
    }
  }

  /** A quote inside a label value is printed as it is, and what is read back is something else. */
  lemma QuoteDoesNotComeBack(name: string, helpText: string, v: real, show: Printer, read: Reader)
    requires All(helpText, NotLineBreak) && LegalNumeral(v, show, read)
    ensures var samples := [Sample(name, helpText, COUNTER, map["reason" := "said \"no\""], v)];
            ParseLines(SplitLines(Rendered(samples, show)), read)
            != Success(Outcome(Triples(Sort(samples, SampleLeq)), []))
  {
    var s := Sample(name, helpText, COUNTER, map["reason" := "said \"no\""], v);
    assert s.labels["reason"][5] == '"';
    assert !LegalItem(("reason", s.labels["reason"]));
    assert "reason" in s.labels && !LegalLabels(s.labels);
    assert s in [s] && !Producible(Triple(s));
    RoundTripIff([s], show, read);
  }
}
