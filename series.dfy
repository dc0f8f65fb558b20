/** `parseCSV` (App.jsx): from the uploaded text to the day-by-day series the
    dashboard charts. The text is cut into trimmed non-empty lines; reading
    starts at the first line that begins with a `YYYY-MM-DD` date (or at the
    first line when there is none); lines whose first field is empty, a
    totals row or a header row are skipped; every other line becomes a
    record; and the series is reversed when it runs from the latest date to
    the earliest. */
module Series {
  import opened Seqs
  import opened Optional
  import opened Text
  import opened JsNumber
  import opened DailyRecords

  /** A line with no text and no white space at either end. */
  predicate IsTrimmedLine(line: string) {
    line != [] && !IsSpace(line[0]) && !IsSpace(line[|line| - 1])
  }

  /** `.map(line => line.trim()).filter(line => line)` over the pieces. */
  function Kept(pieces: seq<string>): (ls: seq<string>)
    ensures |ls| <= |pieces|
    ensures ls == [] <==> forall i | 0 <= i < |pieces| :: AllSpace(pieces[i])
  {
    if pieces == [] then []
    else
      var t := Trim(pieces[0]);
      (if t == [] then [] else [t]) + Kept(pieces[1..])
  }

  /** Every kept line is trimmed and not empty. */
  lemma {:induction false} KeptTrimmed(pieces: seq<string>)
    ensures forall i | 0 <= i < |Kept(pieces)| :: IsTrimmedLine(Kept(pieces)[i])
  {
    if pieces != [] {
      var t := Trim(pieces[0]);
      var rest := Kept(pieces[1..]);
      KeptTrimmed(pieces[1..]);
      if t != [] {
        assert IsTrimmedLine(t);
        TrimmedCons(t, rest);
      }
    }
  }

  lemma TrimmedCons(t: string, rest: seq<string>)
    requires IsTrimmedLine(t)
    requires forall i | 0 <= i < |rest| :: IsTrimmedLine(rest[i])
    ensures forall i | 0 <= i < |[t] + rest| :: IsTrimmedLine(([t] + rest)[i])
  {
    var ls := [t] + rest;
    forall i | 0 <= i < |ls| ensures IsTrimmedLine(ls[i]) {
      if i > 0 {
        assert ls[i] == rest[i - 1];
      }
    }
  }

  /** The working lines of an upload: split on line feeds, trimmed, the
      empty ones dropped. */
  function Lines(text: string): (ls: seq<string>)
    ensures forall i | 0 <= i < |ls| :: IsTrimmedLine(ls[i])
  {
    KeptTrimmed(Split(text, '\n'));
    Kept(Split(text, '\n'))
  }

  lemma KeptCons(p: string, rest: seq<string>)
    ensures Kept([p] + rest) == (if Trim(p) == [] then [] else [Trim(p)]) + Kept(rest)
  {
    assert ([p] + rest)[0] == p && ([p] + rest)[1..] == rest;
  }

  lemma {:induction false} KeptConcat(a: seq<string>, b: seq<string>)
    ensures Kept(a + b) == Kept(a) + Kept(b)
  {
    if a != [] {
      var head := if Trim(a[0]) == [] then [] else [Trim(a[0])];
      assert a + b == [a[0]] + (a[1..] + b);
      assert a == [a[0]] + a[1..];
      KeptCons(a[0], a[1..] + b);
      KeptCons(a[0], a[1..]);
      KeptConcat(a[1..], b);
      assert Kept(a + b) == head + (Kept(a[1..]) + Kept(b));
      assert Kept(a) == head + Kept(a[1..]);
      AppendAssoc(head, Kept(a[1..]), Kept(b));
    } else {
      assert a + b == b;
      assert Kept(a) == [];
    }
  }

  /** Lines are read independently: the lines of two texts joined by a line
      feed are the lines of the first followed by those of the second. */
  lemma LinesConcat(a: string, b: string)
    ensures Lines(a + ['\n'] + b) == Lines(a) + Lines(b)
  {
    SplitConcat(a, b, '\n');
    KeptConcat(Split(a, '\n'), Split(b, '\n'));
  }

  /** A single line: kept, trimmed, unless it is all white space. */
  lemma LinesSingle(s: string)
    requires '\n' !in s
    ensures AllSpace(s) ==> Lines(s) == []
    ensures !AllSpace(s) ==> Lines(s) == [Trim(s)]
  {
    SplitJoin([s], '\n');
    assert Join([s], '\n') == s;
    assert Split(s, '\n') == [s];
    assert Kept([s]) == (if Trim(s) == [] then [] else [Trim(s)]) + Kept([]);
  }

  /** `/^\d{4}-\d{2}-\d{2}/`: the line begins with a date-shaped prefix. */
  function IsDateLine(line: string): (b: bool)
    ensures b <==> |line| >= 10 && forall i | 0 <= i < 10 ::
      if i == 4 || i == 7 then line[i] == '-' else IsDigit(line[i])
  {
    && |line| >= 10
    && IsDigit(line[0]) && IsDigit(line[1]) && IsDigit(line[2]) && IsDigit(line[3])
    && line[4] == '-' && IsDigit(line[5]) && IsDigit(line[6])
    && line[7] == '-' && IsDigit(line[8]) && IsDigit(line[9])
  }

  /** The index of the first date line, if any. */
  function FirstDateLine(lines: seq<string>): (r: Option<nat>)
    ensures r.Some? ==> r.value < |lines| && IsDateLine(lines[r.value])
    ensures r.Some? ==> forall j | 0 <= j < r.value :: !IsDateLine(lines[j])
    ensures r.None? <==> forall j | 0 <= j < |lines| :: !IsDateLine(lines[j])
  {
    if lines == [] then None
    else if IsDateLine(lines[0]) then Some(0)
    else
      match FirstDateLine(lines[1..])
      case None => None
      case Some(i) => Some(i + 1)
  }

  /** `startIndex`: the first date line, or 0 when there is none. */
  function StartIndex(lines: seq<string>): (k: nat)
    ensures k <= |lines|
    ensures FirstDateLine(lines).None? ==> k == 0
    ensures FirstDateLine(lines).Some? ==> k == FirstDateLine(lines).value
  {
    match FirstDateLine(lines)
    case None => 0
    case Some(i) => i
  }

  /** The scan for `startIndex`: stop at the first date line. */
  method FindStart(lines: seq<string>) returns (start: nat)
    ensures start == StartIndex(lines)
  {
    start := 0;
    for i := 0 to |lines|
      invariant forall j | 0 <= j < i :: !IsDateLine(lines[j])
    {
      if IsDateLine(lines[i]) {
        start := i;
        break;
      }
    }
  }

  /** The first field of a totals row. */
  const TotalsMarker: string := "汇总"

  /** The first field of a header row. */
  const HeaderMarker: string := "日期"

  /** A line that produces no record: its first field is empty, or names a
      totals row or a header row. */
  function Skipped(line: string): (b: bool)
    ensures b <==> !IsRecordDate(Row(line)[0])
  {
    var first := Row(line)[0];
    first == [] || Contains(first, TotalsMarker) || Contains(first, HeaderMarker)
  }

  /** A date a record may carry: non-empty, no totals or header marker. */
  predicate IsRecordDate(date: string) {
    date != [] && !Contains(date, TotalsMarker) && !Contains(date, HeaderMarker)
  }

  /** The records the lines give, in line order. */
  function Records(ls: seq<string>): (rs: seq<DailyRecord>)
    ensures |rs| <= |ls|
    ensures forall i | 0 <= i < |rs| :: IsRecordDate(rs[i].date)
  {
    if ls == [] then []
    else
      var last := ls[|ls| - 1];
      Records(ls[..|ls| - 1]) + (if Skipped(last) then [] else [ParseRow(last)])
  }

  /** Each line is read on its own: the records of two runs of lines are
      those of the first followed by those of the second. */
  lemma {:induction false} RecordsConcat(a: seq<string>, b: seq<string>)
    ensures Records(a + b) == Records(a) + Records(b)
    decreases |b|
  {
    if b == [] {
      assert a + b == a;
    } else {
      var c := a + b;
      var init := b[..|b| - 1];
      var last := b[|b| - 1];
      assert c[..|c| - 1] == a + init;
      assert c[|c| - 1] == last;
      RecordsConcat(a, init);
      var tail := if Skipped(last) then [] else [ParseRow(last)];
      assert Records(c) == Records(a + init) + tail;
      assert Records(b) == Records(init) + tail;
      AppendAssoc(Records(a), Records(init), tail);
    }
  }

  /** The last line of a run, read after the others. */
  lemma {:induction false} RecordsStep(ls: seq<string>)
    requires ls != []
    ensures Records(ls) == Records(ls[..|ls| - 1]) + Records([ls[|ls| - 1]])
    ensures Skipped(ls[|ls| - 1]) ==> Records([ls[|ls| - 1]]) == []
    ensures !Skipped(ls[|ls| - 1]) ==> Records([ls[|ls| - 1]]) == [ParseRow(ls[|ls| - 1])]
  {
    assert [ls[|ls| - 1]][..0] == [];
  }

  /** Where no line is skipped, every line gives one record, in order. */
  lemma {:induction false} RecordsAllKept(ls: seq<string>)
    requires forall i | 0 <= i < |ls| :: !Skipped(ls[i])
    ensures |Records(ls)| == |ls|
    ensures forall i | 0 <= i < |ls| :: Records(ls)[i] == ParseRow(ls[i])
  {
    if ls != [] {
      var init := ls[..|ls| - 1];
      RecordsAllKept(init);
      RecordsStep(ls);
      var rs := Records(ls);
      forall i | 0 <= i < |ls| ensures rs[i] == ParseRow(ls[i]) {
        if i < |init| {
          assert rs[i] == Records(init)[i];
          assert ls[i] == init[i];
        }
      }
    }
  }

  /** A skipped line adds nothing anywhere in the input. */
  lemma SkippedLineIgnored(a: seq<string>, line: string, b: seq<string>)
    requires Skipped(line)
    ensures Records(a + [line] + b) == Records(a + b)
  {
    assert Records(a + [line]) == Records(a) by {
      RecordsConcat(a, [line]);
      assert Records([line]) == [] by {
        assert [line][..0] == [];
      }
      assert Records(a) + [] == Records(a);
    }
    RecordsConcat(a + [line], b);
    RecordsConcat(a, b);
  }

  function TwoDigits(s: string, i: nat): nat
    requires i + 2 <= |s| && IsDigit(s[i]) && IsDigit(s[i + 1])
  {
    10 * DigitValue(s[i]) + DigitValue(s[i + 1])
  }

  /** A date `new Date` reads as a calendar day: exactly `YYYY-MM-DD`, month
      01 to 12, day 01 to 31. Any other text is an invalid date. */
  predicate IsIsoDate(s: string) {
    && |s| == 10 && IsDateLine(s)
    && 1 <= TwoDigits(s, 5) <= 12
    && 1 <= TwoDigits(s, 8) <= 31
  }

  function Year(s: string): nat
    requires IsIsoDate(s)
  {
    100 * TwoDigits(s, 0) + TwoDigits(s, 2)
  }

  function Month(s: string): nat
    requires IsIsoDate(s)
  {
    TwoDigits(s, 5)
  }

  function Day(s: string): nat
    requires IsIsoDate(s)
  {
    TwoDigits(s, 8)
  }

  /** The time value `new Date` gives a valid date, up to a monotone
      rescaling: a later calendar day has a larger key. */
  function DayKey(s: string): nat
    requires IsIsoDate(s)
  {
    10000 * Year(s) + 100 * Month(s) + Day(s)
  }

  /** `new Date(a) > new Date(b)`: false whenever either date is invalid
      (its time value is NaN); for two valid dates, whether `a` names a later
      day than `b`. */
  function DateAfter(a: string, b: string): (after: bool)
    ensures after ==> IsIsoDate(a) && IsIsoDate(b) && a != b
    ensures !IsIsoDate(a) || !IsIsoDate(b) ==> !after
  {
    IsIsoDate(a) && IsIsoDate(b) && DayKey(b) < DayKey(a)
  }

  /** For two valid dates, "after" is the calendar order: a later year, or
      the same year and a later month, or the same month and a later day. */
  lemma DateAfterCalendar(a: string, b: string)
    requires IsIsoDate(a) && IsIsoDate(b)
    ensures DateAfter(a, b) <==>
      || Year(a) > Year(b)
      || (Year(a) == Year(b) && Month(a) > Month(b))
      || (Year(a) == Year(b) && Month(a) == Month(b) && Day(a) > Day(b))
  {
  }

  lemma DateAfterAsymmetric(a: string, b: string)
    ensures DateAfter(a, b) ==> !DateAfter(b, a)
  {
  }

  /** Of three dates, a date after a second that is after a third is after
      the third. */
  lemma DateAfterTransitive(a: string, b: string, c: string)
    requires DateAfter(a, b) && DateAfter(b, c)
    ensures DateAfter(a, c)
  {
  }

  /** `Array.prototype.reverse`, as a value. */
  function Reverse<T>(s: seq<T>): (r: seq<T>)
    ensures |r| == |s|
  {
    if s == [] then [] else Reverse(s[1..]) + [s[0]]
  }

  /** Position `i` of the reversed sequence holds position `|s| - 1 - i`. */
  lemma {:induction false} ReverseAt<T>(s: seq<T>, i: nat)
    requires i < |s|
    ensures Reverse(s)[i] == s[|s| - 1 - i]
  {
    if i < |s| - 1 {
      ReverseAt(s[1..], i);
    }
  }

  lemma {:induction false} ReversePermutes<T>(s: seq<T>)
    ensures multiset(Reverse(s)) == multiset(s)
  {
    if s != [] {
      ReversePermutes(s[1..]);
      assert s == [s[0]] + s[1..];
    }
  }

  lemma ReverseReverse<T>(s: seq<T>)
    ensures Reverse(Reverse(s)) == s
  {
    var r := Reverse(Reverse(s));
    forall i | 0 <= i < |s| ensures r[i] == s[i] {
      ReverseAt(Reverse(s), i);
      ReverseAt(s, |s| - 1 - i);
    }
  }

  /** The conditional `reverse()`: a series of two or more records whose
      first date is after its last is put the other way round; any other
      series is left as it is. */
  function Oriented(rs: seq<DailyRecord>): (r: seq<DailyRecord>)
    ensures |r| == |rs|
    ensures r == rs || r == Reverse(rs)
    ensures |rs| > 1 && DateAfter(rs[0].date, rs[|rs| - 1].date) ==> r == Reverse(rs)
    ensures !(|rs| > 1 && DateAfter(rs[0].date, rs[|rs| - 1].date)) ==> r == rs
    ensures |r| > 1 ==> !DateAfter(r[0].date, r[|r| - 1].date)
  {
    if |rs| > 1 && DateAfter(rs[0].date, rs[|rs| - 1].date) then
      DateAfterAsymmetric(rs[0].date, rs[|rs| - 1].date);
      ReverseAt(rs, 0);
      ReverseAt(rs, |rs| - 1);
      Reverse(rs)
    else rs
  }

  /** The orientation keeps exactly the records it was given. */
  lemma OrientedPermutes(rs: seq<DailyRecord>)
    ensures multiset(Oriented(rs)) == multiset(rs)
  {
    ReversePermutes(rs);
  }

  /** Orienting twice is orienting once: an oriented series is never
      reversed back. */
  lemma OrientedIdempotent(rs: seq<DailyRecord>)
    ensures Oriented(Oriented(rs)) == Oriented(rs)
  {
  }

  /** Two valid dates in increasing order are left alone; in decreasing
      order, the series is turned round so that it ends with the latest. */
  lemma OrientedByDate(rs: seq<DailyRecord>)
    requires |rs| > 1 && IsIsoDate(rs[0].date) && IsIsoDate(rs[|rs| - 1].date)
    ensures DayKey(rs[0].date) <= DayKey(rs[|rs| - 1].date) ==> Oriented(rs) == rs
    ensures DayKey(rs[0].date) > DayKey(rs[|rs| - 1].date) ==> Oriented(rs) == Reverse(rs)
  {
  }

  /** A series whose end dates are the same day, or whose first or last date
      is not a valid date, is never reversed: the comparison is false. */
  lemma OrientedKeepsTiesAndInvalid(rs: seq<DailyRecord>)
    requires |rs| > 1
    requires rs[0].date == rs[|rs| - 1].date || !IsIsoDate(rs[0].date) || !IsIsoDate(rs[|rs| - 1].date)
    ensures Oriented(rs) == rs
  {
  }

  /** Every record of an oriented series is a record of the series. */
  lemma OrientedKeepsDates(rs: seq<DailyRecord>)
    requires forall i | 0 <= i < |rs| :: IsRecordDate(rs[i].date)
    ensures forall i | 0 <= i < |Oriented(rs)| :: IsRecordDate(Oriented(rs)[i].date)
  {
    var r := Oriented(rs);
    if r != rs {
      forall i | 0 <= i < |r| ensures IsRecordDate(r[i].date) {
        ReverseAt(rs, i);
      }
    }
  }

  /** The records read from the start index on, in line order. */
  function Body(lines: seq<string>): (rs: seq<DailyRecord>)
    ensures |rs| <= |lines| - StartIndex(lines)
    ensures forall i | 0 <= i < |rs| :: IsRecordDate(rs[i].date)
  {
    Records(lines[StartIndex(lines)..])
  }

  /** What `parseCSV` hands to `setData`. */
  function Ingest(text: string): (series: seq<DailyRecord>)
    ensures |series| <= |Lines(text)| - StartIndex(Lines(text))
    ensures forall i | 0 <= i < |series| :: IsRecordDate(series[i].date)
    ensures |series| > 1 ==> !DateAfter(series[0].date, series[|series| - 1].date)
  {
    OrientedKeepsDates(Body(Lines(text)));
    Oriented(Body(Lines(text)))
  }

  lemma RecordsPush(lines: seq<string>, start: nat, i: nat)
    requires start <= i < |lines|
    ensures Records(lines[start..i + 1])
      == Records(lines[start..i]) + (if Skipped(lines[i]) then [] else [ParseRow(lines[i])])
  {
    var run := lines[start..i + 1];
    assert run[..|run| - 1] == lines[start..i];
    assert run[|run| - 1] == lines[i];
  }

  /** The record loop of `parseCSV`: from `start` on, push the record of
      every line that is not skipped. */
  method ReadRecords(lines: seq<string>, start: nat) returns (parsed: seq<DailyRecord>)
    requires start <= |lines|
    ensures parsed == Records(lines[start..])
  {
    parsed := [];
    for i := start to |lines|
      invariant parsed == Records(lines[start..i])
    {
      RecordsPush(lines, start, i);
      var row := Row(lines[i]);
      if row[0] == [] || Contains(row[0], TotalsMarker) || Contains(row[0], HeaderMarker) {
        continue;
      }
      parsed := parsed + [ParseRow(lines[i])];
    }
    assert lines[start..|lines|] == lines[start..];
  }

  /** `parseCSV(text)`: the line scan, the record loop and the conditional
      reverse, computing the series `Ingest` describes. */
  method ParseCsv(text: string) returns (series: seq<DailyRecord>)
    ensures series == Ingest(text)
  {
    var lines := Lines(text);
    var start := FindStart(lines);
    var parsed := ReadRecords(lines, start);
    assert parsed == Body(lines);
    if |parsed| > 1 {
      var firstDate := parsed[0].date;
      var lastDate := parsed[|parsed| - 1].date;
      if DateAfter(firstDate, lastDate) {
        parsed := Reverse(parsed);
      }
    }
    series := parsed;
  }

  lemma {:induction false} BodyWithoutDateLine(lines: seq<string>)
    requires forall i | 0 <= i < |lines| :: !IsDateLine(lines[i])
    ensures Body(lines) == Records(lines)
  {
    assert lines[0..] == lines;
  }

  /** With no date line anywhere, reading starts at the first line and every
      line is a candidate record: the series is not empty by default. */
  lemma NoDateLineReadsAll(text: string)
    requires forall i | 0 <= i < |Lines(text)| :: !IsDateLine(Lines(text)[i])
    ensures Ingest(text) == Oriented(Records(Lines(text)))
  {
    BodyWithoutDateLine(Lines(text));
  }

  lemma {:induction false} FirstDateLineAfter(a: seq<string>, b: seq<string>)
    requires forall i | 0 <= i < |a| :: !IsDateLine(a[i])
    requires FirstDateLine(b).Some?
    ensures FirstDateLine(a + b) == Some(|a| + FirstDateLine(b).value)
  {
    var k := FirstDateLine(b).value;
    var c := a + b;
    assert c[|a| + k] == b[k];
    assert forall j | 0 <= j < |a| + k :: !IsDateLine(c[j]) by {
      forall j | 0 <= j < |a| + k ensures !IsDateLine(c[j]) {
        if j < |a| { assert c[j] == a[j]; } else { assert c[j] == b[j - |a|]; }
      }
    }
  }

  lemma StartAt(lines: seq<string>, k: nat)
    requires FirstDateLine(lines) == Some(k)
    ensures StartIndex(lines) == k
  {
  }

  lemma {:induction false} BodyAfterPreamble(a: seq<string>, b: seq<string>)
    requires forall i | 0 <= i < |a| :: !IsDateLine(a[i])
    requires FirstDateLine(b).Some?
    ensures Body(a + b) == Body(b)
  {
    var k := StartIndex(b);
    FirstDateLineAfter(a, b);
    StartAt(a + b, |a| + k);
    DropAppend(a, b, k);
  }

  /** A preamble without any date line (titles, header rows, blank lines) is
      dropped whole, even lines that would otherwise read as records, once a
      date line follows it. */
  lemma PreambleDropped(preamble: string, body: string)
    requires forall i | 0 <= i < |Lines(preamble)| :: !IsDateLine(Lines(preamble)[i])
    requires FirstDateLine(Lines(body)).Some?
    ensures Ingest(preamble + ['\n'] + body) == Ingest(body)
  {
    LinesConcat(preamble, body);
    BodyAfterPreamble(Lines(preamble), Lines(body));
  }

}
