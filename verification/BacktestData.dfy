/** The replay loader: which files of a directory it reads, and what it makes of their records. */
module BacktestData {
  import opened Wrappers
  import opened Sorting
  import opened Text

  /** A JSON value; Number is decimal text and Time an ISO timestamp, each read back as written. */
  datatype Field = Time(utc: int) | Number(value: real) | Float(approx: real) | Str(text: string)

  datatype Record = NotObject | Object(fields: map<string, Field>)

  datatype File = Records(records: seq<Record>) | SingleObject(fields: map<string, Field>) | BadJson

  type Directory = map<string, File>

  datatype Snapshot = Snapshot(
    tokenId: string, timestampUtc: int, bestBid: real, bestAsk: real, midpoint: real,
    realizedPnl: real, outcomeResolved: bool)

  datatype LoadError =
    | MalformedFile(file: string)
    | BadRecord(file: string, index: nat, why: RecordError)

  datatype RecordError = NotAnObject | MissingFields | InvalidTimestamp | InvalidNumber

  const MICROSECONDS_PER_DAY := 86_400_000_000

  datatype Window = Window(first: Option<int>, last: Option<int>)

  predicate Within(w: Window, timestampUtc: int) {
    var day := timestampUtc / MICROSECONDS_PER_DAY;
    (w.first.Some? ==> w.first.value <= day) && (w.last.Some? ==> day <= w.last.value)
  }

  /** The window runs from the first instant of its first day to the last instant of its last. */
  lemma WindowDays(w: Window, timestampUtc: int)
    ensures Within(w, timestampUtc) <==>
              && (w.first.Some? ==> w.first.value * 86_400_000_000 <= timestampUtc)
              && (w.last.Some? ==> timestampUtc < (w.last.value + 1) * 86_400_000_000)
  {
    var day := timestampUtc / MICROSECONDS_PER_DAY;
    assert day * MICROSECONDS_PER_DAY <= timestampUtc < (day + 1) * MICROSECONDS_PER_DAY;
  }

  // ---- file names: <token>_<YYYY-MM-DD>.json ----

  predicate IsDateDigit(c: char) { '0' <= c <= '9' }

  predicate IsDate(s: string) {
    && |s| == 10 && s[4] == '-' && s[7] == '-'
    && IsDateDigit(s[0]) && IsDateDigit(s[1]) && IsDateDigit(s[2]) && IsDateDigit(s[3])
    && IsDateDigit(s[5]) && IsDateDigit(s[6]) && IsDateDigit(s[8]) && IsDateDigit(s[9])
  }

  type DateKey = s: string | IsDate(s) witness "2024-01-31"

  const EXTENSION := ".json"
  const SUFFIX_LENGTH := 16

  predicate NotNewline(c: char) { c != '\n' }

  /** The greedy pattern .+ leaves exactly the fixed-length suffix; a dot does not match a line feed. */
  function MatchName(name: string): Option<string> {
    var n := |name| - SUFFIX_LENGTH;
    if n > 0 && name[n] == '_' && IsDate(name[n + 1..n + 11]) && name[n + 11..] == EXTENSION
       && All(name[..n], NotNewline)
    then Some(name[..n]) else None
  }

  /** A name matches for a token exactly when it is the token, an underscore, a date and the extension. */
  lemma NameMatches(name: string, token: string)
    ensures MatchName(name) == Some(token)
            <==> token != "" && All(token, NotNewline) && exists d: DateKey :: name == token + "_" + d + ".json"
  {
    if MatchName(name) == Some(token) {
      var n := |name| - SUFFIX_LENGTH;
      var d: DateKey := name[n + 1..n + 11];
      assert name == name[..n] + [name[n]] + name[n + 1..n + 11] + name[n + 11..];
      assert name == token + "_" + d + ".json";
    }
    forall d: DateKey | token != "" && All(token, NotNewline) && name == token + "_" + d + ".json"
      ensures MatchName(name) == Some(token)
    {
      var n := |token|;
      assert name[..n] == token && name[n + 1..n + 11] == d && name[n + 11..] == ".json";
    }
  }

  /** The glob *.json. */
  predicate HasExtension(name: string) {
    |name| >= |EXTENSION| && name[|name| - |EXTENSION|..] == EXTENSION
  }

  // ---- records ----

  const REQUIRED := {"timestamp_utc", "best_bid", "best_ask", "midpoint"}

  /** A record becomes a snapshot, nothing (outside the date window), or an error. */
  function ReadRecord(w: Window, token: string, r: Record): Result<seq<Snapshot>, RecordError> {
    if r.NotObject? then Failure(NotAnObject)
    else if !(REQUIRED <= r.fields.Keys) then Failure(MissingFields)
    else
      assert "timestamp_utc" in REQUIRED && "best_bid" in REQUIRED && "best_ask" in REQUIRED && "midpoint" in REQUIRED;
      var f := r.fields;
      if !f["timestamp_utc"].Time? then Failure(InvalidTimestamp)
      else if !Within(w, f["timestamp_utc"].utc) then Success([])
      else
        var resolved := "realized_pnl_usdc" in f;
        if !f["best_bid"].Number? || !f["best_ask"].Number? || !f["midpoint"].Number?
           || (resolved && !f["realized_pnl_usdc"].Number?)
        then Failure(InvalidNumber)
        else Success([Snapshot(token, f["timestamp_utc"].utc, f["best_bid"].value, f["best_ask"].value,
                               f["midpoint"].value, if resolved then f["realized_pnl_usdc"].value else 0.0, resolved)])
  }

  /** The four fields without which a record is not read. */
  predicate HasRequired(f: map<string, Field>) {
    "timestamp_utc" in f && "best_bid" in f && "best_ask" in f && "midpoint" in f
  }

  lemma RequiredIff(f: map<string, Field>)
    ensures REQUIRED <= f.Keys <==> HasRequired(f)
  {
    if REQUIRED <= f.Keys {
      assert "timestamp_utc" in REQUIRED && "best_bid" in REQUIRED && "best_ask" in REQUIRED && "midpoint" in REQUIRED;
    }
  }

  /** The record's numbers can be read: the three quotes, and the profit when one is given. */
  predicate HasNumbers(f: map<string, Field>)
    requires HasRequired(f)
  {
    && f["best_bid"].Number? && f["best_ask"].Number? && f["midpoint"].Number?
    && ("realized_pnl_usdc" in f ==> f["realized_pnl_usdc"].Number?)
  }

  /** Which error a record raises; one outside the window is dropped before its numbers are looked at. */
  lemma RecordErrors(w: Window, token: string, r: Record)
    ensures ReadRecord(w, token, r) == Failure(NotAnObject) <==> r.NotObject?
    ensures ReadRecord(w, token, r) == Failure(MissingFields) <==> r.Object? && !HasRequired(r.fields)
    ensures ReadRecord(w, token, r) == Failure(InvalidTimestamp)
            <==> r.Object? && HasRequired(r.fields) && !r.fields["timestamp_utc"].Time?
    ensures ReadRecord(w, token, r) == Failure(InvalidNumber)
            <==> && r.Object? && HasRequired(r.fields) && r.fields["timestamp_utc"].Time?
                 && Within(w, r.fields["timestamp_utc"].utc) && !HasNumbers(r.fields)
  {
    if r.Object? {
      RequiredIff(r.fields);
    }
  }

  /** What a record without error gives: its own figures, the profit only when it is resolved, or nothing. */
  lemma RecordFigures(w: Window, token: string, r: Record)
    requires ReadRecord(w, token, r).Success?
    ensures r.Object? && HasRequired(r.fields) && r.fields["timestamp_utc"].Time?
    ensures var f, got := r.fields, ReadRecord(w, token, r).value;
            if Within(w, f["timestamp_utc"].utc) then
              && HasNumbers(f) && |got| == 1
              && got[0].tokenId == token && got[0].timestampUtc == f["timestamp_utc"].utc
              && got[0].bestBid == f["best_bid"].value && got[0].bestAsk == f["best_ask"].value
              && got[0].midpoint == f["midpoint"].value
              && got[0].outcomeResolved == ("realized_pnl_usdc" in f)
              && got[0].realizedPnl == if "realized_pnl_usdc" in f then f["realized_pnl_usdc"].value else 0.0
            else got == []
  {
    if r.Object? {
      RequiredIff(r.fields);
    }
  }

  function ReadRecords(w: Window, name: string, token: string, rs: seq<Record>): Result<seq<Snapshot>, LoadError> {
    if rs == [] then Success([]) else
      var n := |rs| - 1;
      match ReadRecords(w, name, token, rs[..n])
      case Failure(e) => Failure(e)
      case Success(before) =>
        match ReadRecord(w, token, rs[n])
        case Failure(why) => Failure(BadRecord(name, n, why))
        case Success(more) => Success(before + more)
  }

  /** The first faulty record of a file is the one reported, with its place and fault. */
  lemma {:induction false} FirstFaultyRecord(w: Window, name: string, token: string, rs: seq<Record>)
    ensures match ReadRecords(w, name, token, rs)
            case Success(_) => forall i :: 0 <= i < |rs| ==> ReadRecord(w, token, rs[i]).Success?
            case Failure(e) =>
              && e.BadRecord? && e.file == name && e.index < |rs|
              && ReadRecord(w, token, rs[e.index]) == Failure(e.why)
              && forall i :: 0 <= i < e.index ==> ReadRecord(w, token, rs[i]).Success?
  {
    if rs != [] {
      FirstFaultyRecord(w, name, token, rs[..|rs| - 1]);
    }
  }

  /** Every snapshot of a file comes from one of its records, and every record's snapshot is there. */
  lemma {:induction false} RecordsGive(w: Window, name: string, token: string, rs: seq<Record>, s: Snapshot)
    requires ReadRecords(w, name, token, rs).Success?
    ensures s in ReadRecords(w, name, token, rs).value
            <==> exists i :: 0 <= i < |rs| && ReadRecord(w, token, rs[i]) == Success([s])
  {
    if rs != [] {
      var n := |rs| - 1;
      RecordsGive(w, name, token, rs[..n], s);
      if s in ReadRecords(w, name, token, rs[..n]).value {
        var i :| 0 <= i < n && ReadRecord(w, token, rs[..n][i]) == Success([s]);
        assert rs[i] == rs[..n][i];
      }
      if i :| 0 <= i < n && ReadRecord(w, token, rs[i]) == Success([s]) {
        assert rs[..n][i] == rs[i];
      }
    }
  }

  function ReadFile(w: Window, name: string, file: File): Result<seq<Snapshot>, LoadError> {
    match MatchName(name)
    case None => Success([])
    case Some(token) =>
      if file.Records? then ReadRecords(w, name, token, file.records) else Failure(MalformedFile(name))
  }

  function ReadFiles(w: Window, dir: Directory, names: seq<string>): Result<seq<Snapshot>, LoadError>
    requires forall n :: n in names ==> n in dir
  {
    if names == [] then Success([]) else
      var n := |names| - 1;
      match ReadFiles(w, dir, names[..n])
      case Failure(e) => Failure(e)
      case Success(before) =>
        match ReadFile(w, names[n], dir[names[n]])
        case Failure(e) => Failure(e)
        case Success(more) => Success(before + more)
  }

  function JsonNames(dir: Directory): set<string> { set n | n in dir && HasExtension(n) }

  predicate Earlier(a: Snapshot, b: Snapshot) { a.timestampUtc <= b.timestampUtc }

  /** What loading a directory gives: its files by name, then one stable sort by time. */
  function Loaded(w: Window, dir: Directory): Result<seq<Snapshot>, LoadError> {
    match ReadFiles(w, dir, SortedStrings(JsonNames(dir)))
    case Failure(e) => Failure(e)
    case Success(all) => Success(Sort(all, Earlier))
  }

  method ParseFileRecords(w: Window, name: string, token: string, records: seq<Record>)
    returns (r: Result<seq<Snapshot>, LoadError>)
    ensures r == ReadRecords(w, name, token, records)
  {
    var parsed: seq<Snapshot> := [];
    for i := 0 to |records|
      invariant ReadRecords(w, name, token, records[..i]) == Success(parsed)
    {
      assert records[..i + 1][..i] == records[..i];
      match ReadRecord(w, token, records[i]) {
        case Failure(why) =>
          FailureStays(w, name, token, records, i + 1);
          return Failure(BadRecord(name, i, why));
        case Success(more) => parsed := parsed + more;
      }
    }
    assert records[..|records|] == records;
    r := Success(parsed);
  }

  lemma {:induction false} FailureStays(w: Window, name: string, token: string, rs: seq<Record>, i: nat)
    requires i <= |rs| && ReadRecords(w, name, token, rs[..i]).Failure?
    ensures ReadRecords(w, name, token, rs) == ReadRecords(w, name, token, rs[..i])
  {
    if i < |rs| {
      assert rs[..|rs| - 1][..i] == rs[..i];
      FailureStays(w, name, token, rs[..|rs| - 1], i);
    } else {
      assert rs[..i] == rs;
    }
  }

  lemma FilesExtend(w: Window, dir: Directory, names: seq<string>, i: nat, before: seq<Snapshot>)
    requires i < |names| && (forall n :: n in names ==> n in dir)
    requires ReadFiles(w, dir, names[..i]) == Success(before)
    ensures ReadFiles(w, dir, names[..i + 1])
         == match ReadFile(w, names[i], dir[names[i]])
            case Failure(e) => Failure(e)
            case Success(more) => Success(before + more)
  {
    assert names[..i + 1][..i] == names[..i];
  }

  method ReadNamed(w: Window, dir: Directory, names: seq<string>) returns (r: Result<seq<Snapshot>, LoadError>)
    requires forall n :: n in names ==> n in dir
    ensures r == ReadFiles(w, dir, names)
  {
    var snapshots: seq<Snapshot> := [];
    for i := 0 to |names|
      invariant ReadFiles(w, dir, names[..i]) == Success(snapshots)
    {
      FilesExtend(w, dir, names, i, snapshots);
      var token := MatchName(names[i]);
      if token.None? {
        assert snapshots + [] == snapshots;
        continue;
      }
      var file := dir[names[i]];
      if !file.Records? {
        FileFailureStays(w, dir, names, i + 1);
        return Failure(MalformedFile(names[i]));
      }
      var more := ParseFileRecords(w, names[i], token.value, file.records);
      if more.Failure? {
        FileFailureStays(w, dir, names, i + 1);
        return Failure(more.error);
      }
      snapshots := snapshots + more.value;
    }
    assert names[..|names|] == names;
    r := Success(snapshots);
  }

  predicate InTime(s: seq<Snapshot>) {
    forall i, j :: 0 <= i < j < |s| ==> s[i].timestampUtc <= s[j].timestampUtc
  }

  lemma SortedInTime(all: seq<Snapshot>)
    ensures InTime(Sort(all, Earlier))
  {
    assert TotalPreorder(Earlier);
    SortCorrect(all, Earlier);
  }

  method LoadAll(w: Window, dir: Directory) returns (r: Result<seq<Snapshot>, LoadError>)
    ensures r == Loaded(w, dir)
    ensures r.Success? ==> InTime(r.value)
  {
    r := ReadNamed(w, dir, SortedStrings(JsonNames(dir)));
    if r.Success? {
      SortedInTime(r.value);
      r := Success(Sort(r.value, Earlier));
    }
  }

  lemma {:induction false} FileFailureStays(w: Window, dir: Directory, names: seq<string>, i: nat)
    requires i <= |names| && forall n :: n in names ==> n in dir
    requires ReadFiles(w, dir, names[..i]).Failure?
    ensures ReadFiles(w, dir, names) == ReadFiles(w, dir, names[..i])
  {
    if i < |names| {
      assert names[..|names| - 1][..i] == names[..i];
      FileFailureStays(w, dir, names[..|names| - 1], i);
    } else {
      assert names[..i] == names;
    }
  }

  predicate NoneFaulty(w: Window, dir: Directory, names: seq<string>)
    requires forall n :: n in names ==> n in dir
  {
    forall i :: 0 <= i < |names| ==> ReadFile(w, names[i], dir[names[i]]).Success?
  }

  lemma {:induction false} FirstFaultyName(w: Window, dir: Directory, names: seq<string>) returns (i: nat)
    requires forall n :: n in names ==> n in dir
    ensures match ReadFiles(w, dir, names)
            case Success(_) => NoneFaulty(w, dir, names)
            case Failure(e) =>
              i < |names| && ReadFile(w, names[i], dir[names[i]]) == Failure(e) && NoneFaulty(w, dir, names[..i])
  {
    i := 0;
    if names != [] {
      var n := |names| - 1;
      i := FirstFaultyName(w, dir, names[..n]);
      if ReadFiles(w, dir, names[..n]).Failure? {
        assert names[..n][..i] == names[..i];
      } else {
        i := n;
      }
    }
  }

  /** The file, named *.json, raises this error. */
  predicate FileRaises(w: Window, dir: Directory, name: string, e: LoadError) {
    && name in dir && |name| >= 5 && name[|name| - 5..] == ".json"
    && ReadFile(w, name, dir[name]) == Failure(e)
  }

  lemma RaisesNotEarlier(w: Window, dir: Directory, names: seq<string>, i: nat, other: string, e: LoadError)
    requires StrictlySorted(names) && i <= |names| && forall n :: n in names ==> n in dir
    requires NoneFaulty(w, dir, names[..i]) && other in names && FileRaises(w, dir, other, e)
    ensures i < |names| && LexLeq(names[i], other)
  {
    assert forall k :: 0 <= k < i ==> names[..i][k] == names[k];
    var j :| 0 <= j < |names| && names[j] == other;
    LexTotal(other, other);
  }

  /** Loading fails exactly when a file does, and with the error of the first such file in name order. */
  lemma FirstFaultyFile(w: Window, dir: Directory)
    ensures match Loaded(w, dir)
            case Success(_) => forall name, e :: !FileRaises(w, dir, name, e)
            case Failure(e) =>
              exists name :: FileRaises(w, dir, name, e)
                             && forall other, f :: FileRaises(w, dir, other, f) ==> LexLeq(name, other)
  {
    var names := SortedStrings(JsonNames(dir));
    var i := FirstFaultyName(w, dir, names);
    forall other, f | FileRaises(w, dir, other, f)
      ensures other in names
    {
      assert other in JsonNames(dir);
    }
    if Loaded(w, dir).Failure? {
      assert names[i] in names && FileRaises(w, dir, names[i], Loaded(w, dir).error);
      forall other, f | FileRaises(w, dir, other, f)
        ensures LexLeq(names[i], other)
      {
        RaisesNotEarlier(w, dir, names, i, other, f);
      }
    }
  }

  /** Which error a file raises: what is not a list, or the first faulty record of a list. */
  lemma FileErrors(w: Window, name: string, file: File, token: string)
    requires MatchName(name) == Some(token)
    ensures ReadFile(w, name, file) == Failure(MalformedFile(name)) <==> !file.Records?
    ensures file.Records? ==> ReadFile(w, name, file) == ReadRecords(w, name, token, file.records)
  {
    if file.Records? {
      FirstFaultyRecord(w, name, token, file.records);
    }
  }
}
