/** `calculateSummary` (App.jsx): the headline figures of a series, and the
    dashboard state `parseCSV` leaves behind it. */
module Summaries {
  import opened Seqs
  import opened Optional
  import opened DailyRecords
  import opened Series

  /** The object handed to `setSummaryData`. */
  datatype Summary = Summary(spend: real, install: real, reg: real, regRate: real, cpi: real, roi1: real)

  /** `dataset.reduce((acc, cur) => acc + (cur[key] || 0), 0)` for metric
      column `k`, folded from the first day to the last. A missing value
      counts as 0; the record always holds a number, for which `|| 0` changes
      nothing. */
  function Total(ds: seq<DailyRecord>, k: nat): (t: real)
    requires FirstMetric <= k < Width
    ensures ds == [] ==> t == 0.0
    ensures |ds| == 1 ==> t == ds[0].Column(k)
  {
    if ds == [] then 0.0 else Total(ds[..|ds| - 1], k) + ds[|ds| - 1].Column(k)
  }

  /** `dataset.filter(d => d[key] > 0).length`. */
  function PositiveCount(ds: seq<DailyRecord>, k: nat): (n: nat)
    requires FirstMetric <= k < Width
    ensures n <= |ds|
  {
    if ds == [] then 0
    else PositiveCount(ds[..|ds| - 1], k) + (if ds[|ds| - 1].Column(k) > 0.0 then 1 else 0)
  }

  /** No day counts exactly when no day has a positive value. */
  lemma {:induction false} PositiveCountZero(ds: seq<DailyRecord>, k: nat)
    requires FirstMetric <= k < Width
    ensures PositiveCount(ds, k) == 0 <==> forall i | 0 <= i < |ds| :: ds[i].Column(k) <= 0.0
  {
    if ds != [] {
      var init := ds[..|ds| - 1];
      PositiveCountZero(init, k);
      assert forall i | 0 <= i < |init| :: init[i] == ds[i];
    }
  }

  /** Over days whose values are never negative, the total is not negative. */
  lemma {:induction false} TotalNonNegative(ds: seq<DailyRecord>, k: nat)
    requires FirstMetric <= k < Width
    requires forall i | 0 <= i < |ds| :: ds[i].Column(k) >= 0.0
    ensures Total(ds, k) >= 0.0
  {
    if ds != [] {
      var init := ds[..|ds| - 1];
      assert forall i | 0 <= i < |init| :: init[i] == ds[i];
      TotalNonNegative(init, k);
    }
  }

  /** `den > 0 ? num / den : 0`. */
  function Ratio(num: real, den: real): (r: real)
    ensures den > 0.0 ==> r * den == num
    ensures den <= 0.0 ==> r == 0.0
  {
    if den > 0.0 then num / den else 0.0
  }

  /** `calculateSummary(dataset)`: nothing for an empty series (the early
      return, which leaves the previous summary in place); otherwise the
      three totals, registration rate and cost per install over installs
      (0 without installs), and the day-one ROI: the sum over every day
      divided by the number of days with a positive ROI (0 without one). */
  function CalculateSummary(ds: seq<DailyRecord>): (r: Option<Summary>)
    ensures r.None? <==> ds == []
    ensures r.Some? ==> r.value.spend == Total(ds, TotalSpend)
    ensures r.Some? ==> r.value.install == Total(ds, TotalInstall)
    ensures r.Some? ==> r.value.reg == Total(ds, TotalReg)
    ensures r.Some? && r.value.install > 0.0 ==>
      r.value.regRate * r.value.install == r.value.reg && r.value.cpi * r.value.install == r.value.spend
    ensures r.Some? && r.value.install <= 0.0 ==> r.value.regRate == 0.0 && r.value.cpi == 0.0
    ensures r.Some? && PositiveCount(ds, TotalRoi1) > 0 ==>
      r.value.roi1 * (PositiveCount(ds, TotalRoi1) as real) == Total(ds, TotalRoi1)
    ensures r.Some? && PositiveCount(ds, TotalRoi1) == 0 ==> r.value.roi1 == 0.0
  {
    if ds == [] then None
    else
      var spend := Total(ds, TotalSpend);
      var install := Total(ds, TotalInstall);
      var reg := Total(ds, TotalReg);
      var validRoiCount := PositiveCount(ds, TotalRoi1);
      Some(Summary(
        spend, install, reg,
        Ratio(reg, install),
        Ratio(spend, install),
        Ratio(Total(ds, TotalRoi1), validRoiCount as real)))
  }

  lemma {:induction false} TotalAppend(a: seq<DailyRecord>, b: seq<DailyRecord>, k: nat)
    requires FirstMetric <= k < Width
    ensures Total(a + b, k) == Total(a, k) + Total(b, k)
    decreases |b|
  {
    if b == [] {
      assert a + b == a;
    } else {
      assert (a + b)[..|a + b| - 1] == a + b[..|b| - 1];
      assert (a + b)[|a + b| - 1] == b[|b| - 1];
      TotalAppend(a, b[..|b| - 1], k);
    }
  }

  lemma {:induction false} PositiveCountAppend(a: seq<DailyRecord>, b: seq<DailyRecord>, k: nat)
    requires FirstMetric <= k < Width
    ensures PositiveCount(a + b, k) == PositiveCount(a, k) + PositiveCount(b, k)
    decreases |b|
  {
    if b == [] {
      assert a + b == a;
    } else {
      assert (a + b)[..|a + b| - 1] == a + b[..|b| - 1];
      assert (a + b)[|a + b| - 1] == b[|b| - 1];
      PositiveCountAppend(a, b[..|b| - 1], k);
    }
  }

  /** The totals and the positive counts do not depend on the order of the
      days: any two series holding the same days agree on both. */
  lemma {:induction false} TotalPermutation(ds: seq<DailyRecord>, es: seq<DailyRecord>, k: nat)
    requires FirstMetric <= k < Width
    requires multiset(ds) == multiset(es)
    ensures Total(ds, k) == Total(es, k)
    ensures PositiveCount(ds, k) == PositiveCount(es, k)
    decreases |ds|
  {
    if ds == [] {
      assert |es| == |multiset(es)| == 0;
    } else {
      var init, x := ds[..|ds| - 1], ds[|ds| - 1];
      assert ds == init + [x];
      assert x in multiset(es);
      var j := DayIndex(es, x);
      var front, back := es[..j], es[j + 1..];
      assert es == front + [x] + back;
      SameDaysWithout(init, front, x, back);
      TotalPermutation(init, front + back, k);
      MovedDay(front, x, back, k);
      TotalAppend(init, [x], k);
      PositiveCountAppend(init, [x], k);
    }
  }

  /** A position of a day the series holds. */
  lemma DayIndex(es: seq<DailyRecord>, x: DailyRecord) returns (j: nat)
    requires x in multiset(es)
    ensures j < |es| && es[j] == x
  {
    assert x in es;
    j :| j < |es| && es[j] == x;
  }

  /** Taking the same day out of two series with the same days leaves two
      series with the same days. */
  lemma SameDaysWithout(init: seq<DailyRecord>, front: seq<DailyRecord>, x: DailyRecord, back: seq<DailyRecord>)
    requires multiset(init + [x]) == multiset(front + [x] + back)
    ensures multiset(init) == multiset(front + back)
  {
    assert multiset(init + [x]) == multiset(init) + multiset{x};
    MultisetMiddle(front, x, back);
    MultisetCancel(multiset(init), multiset(front + back), x);
  }

  /** Moving one day from the middle of a series to its end keeps the total
      and the positive count. */
  lemma MovedDay(front: seq<DailyRecord>, x: DailyRecord, back: seq<DailyRecord>, k: nat)
    requires FirstMetric <= k < Width
    ensures Total(front + [x] + back, k) == Total(front + back, k) + Total([x], k)
    ensures PositiveCount(front + [x] + back, k) == PositiveCount(front + back, k) + PositiveCount([x], k)
  {
    TotalAppend(front + [x], back, k);
    TotalAppend(front, [x], k);
    TotalAppend(front, back, k);
    PositiveCountAppend(front + [x], back, k);
    PositiveCountAppend(front, [x], k);
    PositiveCountAppend(front, back, k);
  }

  /** Reversing the days changes neither the totals nor the positive counts. */
  lemma {:induction false} TotalReverse(ds: seq<DailyRecord>, k: nat)
    requires FirstMetric <= k < Width
    ensures Total(Reverse(ds), k) == Total(ds, k)
    ensures PositiveCount(Reverse(ds), k) == PositiveCount(ds, k)
  {
    if ds != [] {
      var head := [ds[0]];
      TotalReverse(ds[1..], k);
      assert Reverse(ds) == Reverse(ds[1..]) + head;
      assert ds == head + ds[1..];
      ReverseStep(Reverse(ds[1..]), head, ds[1..], k);
    }
  }

  lemma ReverseStep(rest: seq<DailyRecord>, head: seq<DailyRecord>, tail: seq<DailyRecord>, k: nat)
    requires FirstMetric <= k < Width
    requires Total(rest, k) == Total(tail, k) && PositiveCount(rest, k) == PositiveCount(tail, k)
    ensures Total(rest + head, k) == Total(head + tail, k)
    ensures PositiveCount(rest + head, k) == PositiveCount(head + tail, k)
  {
    TotalAppend(rest, head, k);
    PositiveCountAppend(rest, head, k);
    TotalAppend(head, tail, k);
    PositiveCountAppend(head, tail, k);
  }

  /** Turning the series round before summing changes no headline figure. */
  lemma SummaryIgnoresOrientation(rs: seq<DailyRecord>)
    ensures CalculateSummary(Oriented(rs)) == CalculateSummary(rs)
  {
    if Oriented(rs) != rs {
      TotalReverse(rs, TotalSpend);
      TotalReverse(rs, TotalInstall);
      TotalReverse(rs, TotalReg);
      TotalReverse(rs, TotalRoi1);
    }
  }

  /** The sum over the days with a positive value only. */
  function PositiveTotal(ds: seq<DailyRecord>, k: nat): real
    requires FirstMetric <= k < Width
  {
    if ds == [] then 0.0
    else
      var v := ds[|ds| - 1].Column(k);
      PositiveTotal(ds[..|ds| - 1], k) + (if v > 0.0 then v else 0.0)
  }

  /** The days with a negative value drag the total below the total of the
      positive days; without them the two agree. */
  lemma {:induction false} TotalVersusPositive(ds: seq<DailyRecord>, k: nat)
    requires FirstMetric <= k < Width
    ensures Total(ds, k) <= PositiveTotal(ds, k)
    ensures (forall i | 0 <= i < |ds| :: ds[i].Column(k) >= 0.0) ==> Total(ds, k) == PositiveTotal(ds, k)
  {
    if ds != [] {
      var init := ds[..|ds| - 1];
      TotalVersusPositive(init, k);
      if forall i | 0 <= i < |ds| :: ds[i].Column(k) >= 0.0 {
        assert forall i | 0 <= i < |init| :: init[i].Column(k) >= 0.0 by {
          forall i | 0 <= i < |init| ensures init[i].Column(k) >= 0.0 {
            assert init[i] == ds[i];
          }
        }
      }
    }
  }

  /** Where no day has a negative day-one ROI, the summary's ROI is the mean
      over the days with a positive one. */
  lemma {:induction false} Roi1MeanOfPositiveDays(ds: seq<DailyRecord>)
    requires forall i | 0 <= i < |ds| :: ds[i].Column(TotalRoi1) >= 0.0
    requires PositiveCount(ds, TotalRoi1) > 0
    ensures CalculateSummary(ds).value.roi1 * (PositiveCount(ds, TotalRoi1) as real)
      == PositiveTotal(ds, TotalRoi1)
  {
    TotalVersusPositive(ds, TotalRoi1);
  }

  /** A negative day-one ROI is added to the sum though its day is not
      counted: one day at 0.5 and one at -0.5 give 0, not 0.5. */
  lemma NegativeRoi1Lowers(a: DailyRecord, b: DailyRecord)
    requires a.Column(TotalRoi1) == 0.5 && b.Column(TotalRoi1) == -0.5
    ensures CalculateSummary([a, b]).value.roi1 == 0.0
    ensures PositiveTotal([a, b], TotalRoi1) == 0.5
  {
    var ds := [a, b];
    assert ds[..|ds| - 1] == [a] && ds[|ds| - 1] == b;
    assert [a][..0] == [] && [a][0] == a;
    assert Total([a], TotalRoi1) == 0.5;
    assert PositiveTotal([a], TotalRoi1) == 0.5;
    assert Total(ds, TotalRoi1) == 0.0;
    assert PositiveCount(ds, TotalRoi1) == 1;
  }

  /** The dashboard's data and summary. */
  datatype Dashboard = Dashboard(data: seq<DailyRecord>, summary: Option<Summary>)

  /** The state after `parseCSV(text)`: `setData` always takes the new
      series; `setSummaryData` runs only when the series is not empty. */
  function AfterParse(s: Dashboard, text: string): (t: Dashboard)
    ensures t.data == Ingest(text)
    ensures t.data == [] ==> t.summary == s.summary
    ensures t.data != [] ==> t.summary.Some? && t.summary == CalculateSummary(Ingest(text))
  {
    var data := Ingest(text);
    match CalculateSummary(data)
    case None => Dashboard(data, s.summary)
    case Some(summary) => Dashboard(data, Some(summary))
  }

  /** Loading the same text twice is loading it once. */
  lemma AfterParseIdempotent(s: Dashboard, text: string)
    ensures AfterParse(AfterParse(s, text), text) == AfterParse(s, text)
  {
  }

  /** An upload that yields no record empties the charts but leaves the
      previous headline figures on display. */
  lemma EmptyUploadKeepsSummary(s: Dashboard, text: string)
    requires Ingest(text) == []
    ensures AfterParse(s, text) == Dashboard([], s.summary)
  {
  }

}
