/** The runtime audit's reader of the text exposition format; its two patterns are hand-written scanners. */
module ExpositionParser {
  import opened Wrappers
  import opened Sequences
  import opened Text
  import opened MetricLabels

  datatype Numeral = NotANumeral | NotFinite | Finite(value: real)

  /** How the host language reads a decimal. */
  type Reader = string -> Numeral

  datatype Parsed = Parsed(name: string, value: real, labels: Labels)

  datatype ParseError = Unparseable(line: nat) | InvalidValue(line: nat)

  datatype Outcome = Outcome(samples: seq<Parsed>, errors: seq<ParseError>)

  /** Building a sample raises, out of the whole parse, when the schema refuses its name or its value. */
  datatype Raised = NameTooLong(line: nat) | ValueNotFinite(line: nat)

  const MAX_NAME := 256

  /** What the caller gets: the samples, and the error that says which lines were faulty. */
  datatype Reading = Reading(samples: seq<Parsed>, error: Option<seq<ParseError>>)

  predicate IsLetter(c: char) { 'a' <= c <= 'z' || 'A' <= c <= 'Z' }
  predicate IsDigit(c: char) { '0' <= c <= '9' }
  predicate IsLabelStart(c: char) { IsLetter(c) || c == '_' }
  predicate IsLabelChar(c: char) { IsLabelStart(c) || IsDigit(c) }
  predicate IsNameStart(c: char) { IsLabelStart(c) || c == ':' }
  predicate IsNameChar(c: char) { IsNameStart(c) || IsDigit(c) }
  predicate NotCloseBrace(c: char) { c != '}' }
  predicate NotQuote(c: char) { c != '"' }

  // ---- one label: key="value" at the start of the text ----

  datatype LabelMatch = NoLabel | Label(item: Item, rest: string)

  function MatchLabel(s: string): (m: LabelMatch)
    ensures m.Label? ==> |m.rest| < |s|
  {
    if s == "" || !IsLabelStart(s[0]) then NoLabel else
      var n := Span(s, IsLabelChar);
      if n + 1 >= |s| || s[n] != '=' || s[n + 1] != '"' then NoLabel else
        var value := s[n + 2..];
        var v := Span(value, NotQuote);
        if v == |value| then NoLabel else Label((s[..n], value[..v]), value[v + 1..])
  }

  /** Every non-overlapping match, scanning from the left. */
  function FindLabels(s: string): seq<Item>
    decreases |s|
  {
    if s == "" then [] else
      match MatchLabel(s)
      case Label(item, rest) => [item] + FindLabels(rest)
      case NoLabel => FindLabels(s[1..])
  }

  function Collected(items: seq<Item>): Labels {
    if items == [] then map[] else
      var n := |items| - 1;
      Collected(items[..n])[items[n].0 := items[n].1]
  }

  // ---- one line: name, optional label block, value, optional timestamp ----

  function MatchBlock(rest: string): Option<(string, string)> {
    if rest != "" && rest[0] == '{' then
      var m := Span(rest[1..], NotCloseBrace);
      if m == |rest| - 1 then None else Some((rest[1..][..m], rest[1..][m + 1..]))
    else Some(("", rest))
  }

  predicate MatchTail(tail: string) {
    var w := Span(tail, IsSpace);
    w == |tail| ||
    var d := Span(tail[w..], IsDigit);
    w > 0 && d > 0 && Span(tail[w..][d..], IsSpace) == |tail[w..][d..]|
  }

  function MatchValue(rest: string): Option<string> {
    var w := Span(rest, IsSpace);
    var v := Span(rest[w..], NotSpace);
    if w == 0 || v == 0 || !MatchTail(rest[w..][v..]) then None else Some(rest[w..][..v])
  }

  datatype LineMatch = NoLine | Line(name: string, labels: string, value: string)

  function MatchLine(s: string): LineMatch {
    if s == "" || !IsNameStart(s[0]) then NoLine else
      var n := Span(s, IsNameChar);
      match MatchBlock(s[n..])
      case None => NoLine
      case Some((labels, rest)) =>
        match MatchValue(rest)
        case None => NoLine
        case Some(value) => Line(s[..n], labels, value)
  }

  // ---- the whole text ----

  /** What one more line that is neither blank nor a comment adds. */
  function AbsorbMatch(o: Outcome, m: LineMatch, lineNumber: nat, read: Reader): Result<Outcome, Raised> {
    match m
    case NoLine => Success(o.(errors := o.errors + [Unparseable(lineNumber)]))
    case Line(name, labels, value) =>
      match read(value)
      case NotANumeral => Success(o.(errors := o.errors + [InvalidValue(lineNumber)]))
      case NotFinite => Failure(ValueNotFinite(lineNumber))
      case Finite(v) =>
        if |name| > MAX_NAME then Failure(NameTooLong(lineNumber))
        else Success(o.(samples := o.samples + [Parsed(name, v, Collected(FindLabels(labels)))]))
  }

  /** What reading one more line adds. */
  function Absorb(o: Outcome, line: string, lineNumber: nat, read: Reader): Result<Outcome, Raised> {
    var stripped := Strip(line);
    if stripped == "" || stripped[0] == '#' then Success(o)
    else AbsorbMatch(o, MatchLine(stripped), lineNumber, read)
  }

  function ParseLines(lines: seq<string>, read: Reader): Result<Outcome, Raised> {
    if lines == [] then Success(Outcome([], [])) else
      match ParseLines(lines[..|lines| - 1], read)
      case Failure(raised) => Failure(raised)
      case Success(o) => Absorb(o, lines[|lines| - 1], |lines|, read)
  }

  lemma ParseExtend(lines: seq<string>, line: string, read: Reader)
    ensures ParseLines(lines + [line], read)
         == match ParseLines(lines, read)
            case Failure(raised) => Failure(raised)
            case Success(o) => Absorb(o, line, |lines| + 1, read)
  {
    assert (lines + [line])[..|lines|] == lines;
  }

  /** The error lists the first five faulty lines, and is absent only when there is none. */
  function ReadingOf(o: Outcome): Reading {
    Reading(o.samples, if o.errors == [] then None else Some(o.errors[..if |o.errors| < 5 then |o.errors| else 5]))
  }

  // ---- what is reported ----

  /** A line that is neither blank nor a comment. */
  predicate IsContent(line: string) { Strip(line) != "" && Strip(line)[0] != '#' }

  /** The line cannot become a sample: it matches nothing, or its value is not a numeral. */
  predicate IsFaulty(line: string, read: Reader) {
    IsContent(line) && (MatchLine(Strip(line)).NoLine? || read(MatchLine(Strip(line)).value) == NotANumeral)
  }

  /** The error names a faulty line and what is wrong with it. */
  predicate Blames(lines: seq<string>, read: Reader, e: ParseError) {
    && 1 <= e.line <= |lines| && IsFaulty(lines[e.line - 1], read)
    && (e.Unparseable? <==> MatchLine(Strip(lines[e.line - 1])).NoLine?)
  }

  predicate InOrder(faults: seq<ParseError>) {
    forall i, j :: 0 <= i < j < |faults| ==> faults[i].line < faults[j].line
  }

  ghost predicate AllBlame(lines: seq<string>, read: Reader, faults: seq<ParseError>) {
    forall e :: e in faults ==> Blames(lines, read, e)
  }

  ghost predicate Reports(faults: seq<ParseError>, line: nat) { exists e :: e in faults && e.line == line }

  /** No faulty line goes unreported. */
  ghost predicate AllBlamed(lines: seq<string>, read: Reader, faults: seq<ParseError>) {
    forall i :: 0 <= i < |lines| && IsFaulty(lines[i], read) ==> Reports(faults, i + 1)
  }

  /** Each content line is a sample or a fault, and the faults are the faulty lines in order. */
  ghost predicate Accounts(lines: seq<string>, read: Reader, samples: seq<Parsed>, faults: seq<ParseError>) {
    && |samples| + |faults| == Count(lines, IsContent)
    && InOrder(faults) && AllBlame(lines, read, faults) && AllBlamed(lines, read, faults)
  }

  lemma BlameLonger(lines: seq<string>, line: string, read: Reader, faults: seq<ParseError>)
    requires AllBlame(lines, read, faults)
    ensures AllBlame(lines + [line], read, faults)
  {
    forall e | e in faults
      ensures Blames(lines + [line], read, e)
    {
      assert Blames(lines, read, e);
      assert (lines + [line])[e.line - 1] == lines[e.line - 1];
    }
  }

  /** A line that is no fault needs no report. */
  lemma BlamedSound(lines: seq<string>, line: string, read: Reader, faults: seq<ParseError>)
    requires AllBlamed(lines, read, faults) && !IsFaulty(line, read)
    ensures AllBlamed(lines + [line], read, faults)
  {
    forall i | 0 <= i < |lines + [line]| && IsFaulty((lines + [line])[i], read)
      ensures Reports(faults, i + 1)
    {
      assert i < |lines| && lines[i] == (lines + [line])[i];
    }
  }

  lemma BlamedFault(lines: seq<string>, line: string, read: Reader, faults: seq<ParseError>, fault: ParseError)
    requires AllBlamed(lines, read, faults) && fault.line == |lines| + 1
    ensures AllBlamed(lines + [line], read, faults + [fault])
  {
    var all := faults + [fault];
    forall i | 0 <= i < |lines + [line]| && IsFaulty((lines + [line])[i], read)
      ensures Reports(all, i + 1)
    {
      if i < |lines| {
        assert lines[i] == (lines + [line])[i];
        var e :| e in faults && e.line == i + 1;
        assert e in all;
      } else {
        assert fault in all;
      }
    }
  }

  lemma OrderFault(lines: seq<string>, read: Reader, faults: seq<ParseError>, fault: ParseError)
    requires InOrder(faults) && AllBlame(lines, read, faults) && fault.line == |lines| + 1
    ensures InOrder(faults + [fault])
  {
    forall i, j | 0 <= i < j < |faults + [fault]|
      ensures (faults + [fault])[i].line < (faults + [fault])[j].line
    {
      assert faults[i] in faults && Blames(lines, read, faults[i]);
    }
  }

  /** A line that is no fault adds a sample exactly when it has content. */
  lemma AccountsSound(
      lines: seq<string>, line: string, read: Reader, samples: seq<Parsed>, faults: seq<ParseError>, more: seq<Parsed>)
    requires Accounts(lines, read, samples, faults) && !IsFaulty(line, read)
    requires |more| == if IsContent(line) then 1 else 0
    ensures Accounts(lines + [line], read, samples + more, faults)
  {
    CountOneMore(lines, line, IsContent);
    BlameLonger(lines, line, read, faults);
    BlamedSound(lines, line, read, faults);
  }

  lemma AccountsFault(
      lines: seq<string>, line: string, read: Reader, samples: seq<Parsed>, faults: seq<ParseError>, fault: ParseError)
    requires Accounts(lines, read, samples, faults) && Blames(lines + [line], read, fault) && fault.line == |lines| + 1
    ensures Accounts(lines + [line], read, samples, faults + [fault])
  {
    CountOneMore(lines, line, IsContent);
    BlameLonger(lines, line, read, faults);
    BlamedFault(lines, line, read, faults, fault);
    OrderFault(lines, read, faults, fault);
  }

  lemma AbsorbAccounts(lines: seq<string>, line: string, read: Reader, o: Outcome)
    requires Accounts(lines, read, o.samples, o.errors)
    ensures var r := Absorb(o, line, |lines| + 1, read);
            r.Success? ==> Accounts(lines + [line], read, r.value.samples, r.value.errors)
  {
    var r := Absorb(o, line, |lines| + 1, read);
    assert (lines + [line])[|lines|] == line;
    if r.Success? {
      if IsFaulty(line, read) {
        AccountsFault(lines, line, read, o.samples, o.errors, r.value.errors[|o.errors|]);
      } else {
        AccountsSound(lines, line, read, o.samples, o.errors, r.value.samples[|o.samples|..]);
        assert r.value.samples == o.samples + r.value.samples[|o.samples|..];
      }
    }
  }

  lemma AccountStep(lines: seq<string>, line: string, read: Reader)
    requires var r := ParseLines(lines, read); r.Success? ==> Accounts(lines, read, r.value.samples, r.value.errors)
    ensures var r := ParseLines(lines + [line], read);
            r.Success? ==> Accounts(lines + [line], read, r.value.samples, r.value.errors)
  {
    ParseExtend(lines, line, read);
    if ParseLines(lines, read).Success? {
      AbsorbAccounts(lines, line, read, ParseLines(lines, read).value);
    }
  }

  /** Whatever the text, nothing is skipped in silence and nothing is reported that is not faulty. */
  lemma {:induction false} NothingSkipped(lines: seq<string>, read: Reader)
    ensures var r := ParseLines(lines, read); r.Success? ==> Accounts(lines, read, r.value.samples, r.value.errors)
  {
    if lines != [] {
      var n := |lines| - 1;
      NothingSkipped(lines[..n], read);
      AccountStep(lines[..n], lines[n], read);
      assert lines == lines[..n] + [lines[n]];
    }
  }

  /** The line becomes this sample: its name, its readable value and its labels, a later value for a key winning. */
  predicate Becomes(line: string, read: Reader, p: Parsed) {
    var m := MatchLine(Strip(line));
    && IsContent(line) && m.Line? && read(m.value) == Finite(p.value)
    && p.name == m.name && p.labels == Collected(FindLabels(m.labels))
  }

  function BecomesWith(read: Reader): (string, Parsed) -> bool { (line: string, p: Parsed) => Becomes(line, read, p) }

  /** The samples are lines of the text, in the order of the text. */
  ghost predicate Placed(at: seq<nat>, lines: seq<string>, read: Reader, samples: seq<Parsed>) {
    Accompanies(at, lines, samples, BecomesWith(read))
  }

  lemma MatchAddsAtMost(o: Outcome, m: LineMatch, lineNumber: nat, read: Reader)
    requires AbsorbMatch(o, m, lineNumber, read).Success?
    ensures var samples := AbsorbMatch(o, m, lineNumber, read).value.samples;
            if m.Line? && read(m.value).Finite?
            then samples == o.samples + [Parsed(m.name, read(m.value).value, Collected(FindLabels(m.labels)))]
            else samples == o.samples
  {
  }

  /** A line adds nothing to the samples, or the one it becomes. */
  lemma AbsorbAdds(o: Outcome, line: string, lineNumber: nat, read: Reader) returns (p: Parsed)
    requires Absorb(o, line, lineNumber, read).Success?
    ensures var samples := Absorb(o, line, lineNumber, read).value.samples;
            samples == o.samples || (samples == o.samples + [p] && Becomes(line, read, p))
  {
    var m := MatchLine(Strip(line));
    if IsContent(line) {
      MatchAddsAtMost(o, m, lineNumber, read);
    }
    p := if m.Line? && read(m.value).Finite?
         then Parsed(m.name, read(m.value).value, Collected(FindLabels(m.labels))) else Parsed("", 0.0, map[]);
  }

  lemma AbsorbPlaces(lines: seq<string>, line: string, read: Reader, o: Outcome)
    requires exists at :: Placed(at, lines, read, o.samples)
    ensures var r := Absorb(o, line, |lines| + 1, read);
            r.Success? ==> exists at :: Placed(at, lines + [line], read, r.value.samples)
  {
    var at: seq<nat> :| Placed(at, lines, read, o.samples);
    if Absorb(o, line, |lines| + 1, read).Success? {
      var p := AbsorbAdds(o, line, |lines| + 1, read);
      var samples := Absorb(o, line, |lines| + 1, read).value.samples;
      if samples == o.samples {
        PlacesLonger(at, lines, line, samples, BecomesWith(read));
        assert Placed(at, lines + [line], read, samples);
      } else {
        PlacesMore(at, lines, line, o.samples, p, BecomesWith(read));
        assert Placed(at + [|lines|], lines + [line], read, samples);
      }
    }
  }

  lemma PlaceStep(lines: seq<string>, line: string, read: Reader)
    requires var r := ParseLines(lines, read); r.Success? ==> exists at :: Placed(at, lines, read, r.value.samples)
    ensures var r := ParseLines(lines + [line], read);
            r.Success? ==> exists at :: Placed(at, lines + [line], read, r.value.samples)
  {
    ParseExtend(lines, line, read);
    if ParseLines(lines, read).Success? {
      AbsorbPlaces(lines, line, read, ParseLines(lines, read).value);
    }
  }

  lemma {:induction false} SamplesPlaced(lines: seq<string>, read: Reader)
    ensures var r := ParseLines(lines, read); r.Success? ==> exists at :: Placed(at, lines, read, r.value.samples)
  {
    if lines == [] {
      assert Accompanies([], lines, [], BecomesWith(read));
      assert Placed([], lines, read, []);
    } else {
      var n := |lines| - 1;
      SamplesPlaced(lines[..n], read);
      PlaceStep(lines[..n], lines[n], read);
      assert lines == lines[..n] + [lines[n]];
    }
  }

  /** The schema refuses the line's value or, its value being fine, its name. */
  predicate Raises(line: string, read: Reader) {
    var m := MatchLine(Strip(line));
    && IsContent(line) && m.Line?
    && (read(m.value) == NotFinite || (read(m.value).Finite? && |m.name| > 256))
  }

  /** The first line of the text that raises, and what it raises. */
  predicate RaisedFirst(lines: seq<string>, read: Reader, raised: Raised) {
    && 1 <= raised.line <= |lines| && Raises(lines[raised.line - 1], read)
    && (raised.ValueNotFinite? <==> read(MatchLine(Strip(lines[raised.line - 1])).value) == NotFinite)
    && NoneRaises(lines[..raised.line - 1], read)
  }

  predicate NoneRaises(lines: seq<string>, read: Reader) {
    forall i :: 0 <= i < |lines| ==> !Raises(lines[i], read)
  }

  ghost predicate RaisesRight(lines: seq<string>, read: Reader, r: Result<Outcome, Raised>) {
    match r
    case Success(_) => NoneRaises(lines, read)
    case Failure(raised) => RaisedFirst(lines, read, raised)
  }

  lemma AbsorbRaises(o: Outcome, line: string, n: nat, read: Reader)
    ensures match Absorb(o, line, n, read)
            case Success(_) => !Raises(line, read)
            case Failure(raised) =>
              && Raises(line, read) && raised.line == n
              && (raised.ValueNotFinite? <==> read(MatchLine(Strip(line)).value) == NotFinite)
  {
  }

  lemma RaiseStep(lines: seq<string>, line: string, read: Reader)
    requires RaisesRight(lines, read, ParseLines(lines, read))
    ensures RaisesRight(lines + [line], read, ParseLines(lines + [line], read))
  {
    ParseExtend(lines, line, read);
    match ParseLines(lines, read) {
      case Failure(raised) =>
        assert (lines + [line])[..raised.line - 1] == lines[..raised.line - 1];
        assert (lines + [line])[raised.line - 1] == lines[raised.line - 1];
      case Success(o) =>
        AbsorbRaises(o, line, |lines| + 1, read);
        assert (lines + [line])[..|lines|] == lines;
    }
  }

  ghost predicate RaisesRightly(lines: seq<string>, read: Reader) { RaisesRight(lines, read, ParseLines(lines, read)) }

  lemma {:induction false} RaisesExactly(lines: seq<string>, read: Reader)
    ensures RaisesRightly(lines, read)
  {
    if lines != [] {
      var before, line := lines[..|lines| - 1], lines[|lines| - 1];
      RaisesExactly(before, read);
      RaiseStep(before, line, read);
      assert RaisesRightly(before + [line], read);
      assert lines == before + [line];
    }
  }

  /** Fails closed: a faulty line never goes unreported, and an over-long name or an infinity raises. */
  method ParsePrometheusText(raw: string, read: Reader) returns (r: Result<Reading, Raised>)
    ensures r == match ParseLines(SplitLines(raw), read)
                 case Failure(raised) => Failure(raised)
                 case Success(o) => Success(ReadingOf(o))
    ensures r.Success? ==>
              exists faults :: Accounts(SplitLines(raw), read, r.value.samples, faults)
                               && r.value.error
                                  == if faults == [] then None
                                     else Some(if |faults| <= 5 then faults else faults[..5])
    ensures r.Success? ==> exists at :: Placed(at, SplitLines(raw), read, r.value.samples)
    ensures if r.Success? then NoneRaises(SplitLines(raw), read) else RaisedFirst(SplitLines(raw), read, r.error)
    ensures r.Success? ==> (r.value.error.None? <==> |r.value.samples| == Count(SplitLines(raw), IsContent))
  {
    NothingSkipped(SplitLines(raw), read);
    SamplesPlaced(SplitLines(raw), read);
    RaisesExactly(SplitLines(raw), read);
    var lines := SplitLines(raw);
    var o := Outcome([], []);
    for i := 0 to |lines|
      invariant ParseLines(lines[..i], read) == Success(o)
    {
      ParseStep(lines, i, read, o);
      var next := ReadLine(o, lines[i], i + 1, read);
      if next.Failure? {
        RaisedStays(lines, i + 1, read);
        return Failure(next.error);
      }
      o := next.value;
    }
    assert lines[..|lines|] == lines;
    r := Success(ReadingOf(o));
    FirstFive(o);
  }

  lemma FirstFive(o: Outcome)
    ensures ReadingOf(o).error
         == if o.errors == [] then None else Some(if |o.errors| <= 5 then o.errors else o.errors[..5])
  {
    assert o.errors[..|o.errors|] == o.errors;
  }

  lemma ParseStep(lines: seq<string>, i: nat, read: Reader, o: Outcome)
    requires i < |lines| && ParseLines(lines[..i], read) == Success(o)
    ensures ParseLines(lines[..i + 1], read) == Absorb(o, lines[i], i + 1, read)
  {
    assert lines[..i + 1][..i] == lines[..i];
  }

  /** The body of the loop: blank lines and comments are skipped. */
  method ReadLine(o: Outcome, line: string, lineNumber: nat, read: Reader) returns (next: Result<Outcome, Raised>)
    ensures next == Absorb(o, line, lineNumber, read)
  {
    var stripped := Strip(line);
    if stripped == "" || stripped[0] == '#' {
      return Success(o);
    }
    next := ReadMatch(o, MatchLine(stripped), lineNumber, read);
  }

  method ReadMatch(o: Outcome, m: LineMatch, lineNumber: nat, read: Reader) returns (next: Result<Outcome, Raised>)
    ensures next == AbsorbMatch(o, m, lineNumber, read)
  {
    if m.NoLine? {
      return Success(o.(errors := o.errors + [Unparseable(lineNumber)]));
    }
    var labels := CollectLabels(FindLabels(m.labels));
    var value := read(m.value);
    if value.NotANumeral? {
      return Success(o.(errors := o.errors + [InvalidValue(lineNumber)]));
    }
    if value.NotFinite? {
      return Failure(ValueNotFinite(lineNumber));
    }
    if |m.name| > MAX_NAME {
      return Failure(NameTooLong(lineNumber));
    }
    next := Success(o.(samples := o.samples + [Parsed(m.name, value.value, labels)]));
  }

  /** A later match for the same key wins. */
  method CollectLabels(items: seq<Item>) returns (labels: Labels)
    ensures labels == Collected(items)
  {
    labels := map[];
    for j := 0 to |items|
      invariant labels == Collected(items[..j])
    {
      assert items[..j + 1][..j] == items[..j];
      labels := labels[items[j].0 := items[j].1];
    }
    assert items[..|items|] == items;
  }

  lemma {:induction false} RaisedStays(lines: seq<string>, i: nat, read: Reader)
    requires i <= |lines| && ParseLines(lines[..i], read).Failure?
    ensures ParseLines(lines, read) == ParseLines(lines[..i], read)
  {
    if i < |lines| {
      assert lines[..|lines| - 1][..i] == lines[..i];
      RaisedStays(lines[..|lines| - 1], i, read);
    } else {
      assert lines[..i] == lines;
    }
  }
}
