/** The brief under each chart (`ChartSummary`, App.jsx): the average, the
    peak and the day it was reached, and a trend read from the first and the
    last value. The wording and the number formatting are not modelled; the
    brief keeps the figures and the trend the text is built from. */
module ChartBriefs {
  import opened Seqs
  import opened Optional
  import opened Text
  import opened DailyRecords

  /** One day of a chart: its date and the metric, `None` where the value is
      missing, `null` or `NaN`. */
  datatype Point = Point(date: string, value: Option<real>)

  /** The four trend sentences: one value only, rising, falling, stable. */
  datatype Trend = SingleValue | Rising | Falling | Stable

  /** The three outcomes: no data at all, no valid value, or a description. */
  datatype Brief =
    | NoData
    | NoValidData
    | Described(average: real, peakDate: string, peak: real, trend: Trend)

  /** The points of one metric column of a series. */
  function PointsOf(ds: seq<DailyRecord>, k: nat): (ps: seq<Point>)
    requires FirstMetric <= k < Width
    ensures |ps| == |ds|
    ensures forall i | 0 <= i < |ds| :: ps[i] == Point(ds[i].date, Some(ds[i].Column(k)))
  {
    seq(|ds|, i requires 0 <= i < |ds| => Point(ds[i].date, Some(ds[i].Column(k))))
  }

  /** `data.filter(d => !isNaN(d[key]) && d[key] !== null)`. */
  function ValidPoints(ps: seq<Point>): (vs: seq<Point>)
    ensures |vs| <= |ps|
    ensures forall i | 0 <= i < |vs| :: vs[i].value.Some? && vs[i] in ps
    ensures |ps| == 1 ==> vs == if ps[0].value.Some? then ps else []
  {
    if ps == [] then []
    else (if ps[0].value.Some? then [ps[0]] else []) + ValidPoints(ps[1..])
  }

  /** `validData.map(d => Number(d[key]))`. */
  function Values(vs: seq<Point>): (xs: seq<real>)
    requires forall i | 0 <= i < |vs| :: vs[i].value.Some?
    ensures |xs| == |vs|
    ensures forall i | 0 <= i < |vs| :: xs[i] == vs[i].value.value
  {
    seq(|vs|, i requires 0 <= i < |vs| => vs[i].value.value)
  }

  /** `Math.max(...values)`. */
  function Max(xs: seq<real>): (m: real)
    requires xs != []
    ensures m in xs
    ensures forall i | 0 <= i < |xs| :: xs[i] <= m
  {
    if |xs| == 1 then xs[0]
    else
      var rest := Max(xs[1..]);
      if xs[0] >= rest then xs[0] else rest
  }

  function Sum(xs: seq<real>): real {
    if xs == [] then 0.0 else xs[0] + Sum(xs[1..])
  }

  /** `values.reduce((a, b) => a + b, 0) / values.length`. */
  function Average(xs: seq<real>): (a: real)
    requires xs != []
    ensures a * (|xs| as real) == Sum(xs)
  {
    Sum(xs) / (|xs| as real)
  }

  /** The index `find` stops at: the first value equal to `m`. */
  function FirstIndexOf(xs: seq<real>, m: real): (i: nat)
    requires m in xs
    ensures i < |xs| && xs[i] == m
    ensures forall j | 0 <= j < i :: xs[j] != m
  {
    if xs[0] == m then 0 else 1 + FirstIndexOf(xs[1..], m)
  }

  /** The trend sentence: with one value the default; otherwise the last
      value against the first, more than 10% above, more than 10% below, or
      in between. */
  function TrendOf(xs: seq<real>): (t: Trend)
    requires xs != []
    ensures t == SingleValue <==> |xs| == 1
    ensures t == Rising ==> xs[|xs| - 1] > xs[0] * 1.1
    ensures t == Falling ==> xs[|xs| - 1] < xs[0] * 0.9 && xs[|xs| - 1] <= xs[0] * 1.1
    ensures t == Stable ==> xs[0] * 0.9 <= xs[|xs| - 1] <= xs[0] * 1.1
  {
    if |xs| > 1 then Movement(xs[0], xs[|xs| - 1]) else SingleValue
  }

  /** The last value against the first: more than 10% above, more than 10%
      below, or in between. */
  function Movement(first: real, last: real): (t: Trend)
    ensures t != SingleValue
    ensures t == Rising <==> last > first * 1.1
    ensures t == Falling <==> last <= first * 1.1 && last < first * 0.9
    ensures t == Stable <==> first * 0.9 <= last <= first * 1.1
  {
    if last > first * 1.1 then Rising
    else if last < first * 0.9 then Falling
    else Stable
  }

  predicate HasValue(ps: seq<Point>, m: real) {
    exists j | 0 <= j < |ps| :: ps[j].value == Some(m)
  }

  /** The first point whose value is `m`. */
  function FirstWithValue(ps: seq<Point>, m: real): (i: nat)
    requires HasValue(ps, m)
    ensures i < |ps| && ps[i].value == Some(m)
    ensures forall j | 0 <= j < i :: ps[j].value != Some(m)
  {
    if ps[0].value == Some(m) then 0
    else
      assert HasValue(ps[1..], m) by {
        var j :| 0 <= j < |ps| && ps[j].value == Some(m);
        assert ps[1..][j - 1] == ps[j];
      }
      1 + FirstWithValue(ps[1..], m)
  }

  /** Searching the values of the valid points finds the same point as
      searching the points themselves. */
  lemma {:induction false} FindAgrees(ps: seq<Point>, m: real)
    requires m in Values(ValidPoints(ps))
    ensures HasValue(ps, m)
    ensures ValidPoints(ps)[FirstIndexOf(Values(ValidPoints(ps)), m)] == ps[FirstWithValue(ps, m)]
  {
    ValueIsPoint(ps, m);
    if ps[0].value == Some(m) {
      FindAtHead(ps, m);
    } else if ps[0].value.Some? {
      FindPastValid(ps, m);
      FindAgrees(ps[1..], m);
      assert FirstWithValue(ps, m) == 1 + FirstWithValue(ps[1..], m);
    } else {
      assert ValidPoints(ps) == ValidPoints(ps[1..]);
      FindAgrees(ps[1..], m);
      assert FirstWithValue(ps, m) == 1 + FirstWithValue(ps[1..], m);
    }
  }

  /** A value of a valid point is the value of some point. */
  lemma ValueIsPoint(ps: seq<Point>, m: real)
    requires m in Values(ValidPoints(ps))
    ensures ps != [] && HasValue(ps, m)
  {
    var vs := ValidPoints(ps);
    var xs := Values(vs);
    var k :| 0 <= k < |xs| && xs[k] == m;
    assert vs[k].value == Some(m);
    var j :| 0 <= j < |ps| && ps[j] == vs[k];
    assert ps[j].value == Some(m);
  }

  lemma FindAtHead(ps: seq<Point>, m: real)
    requires ps != [] && ps[0].value == Some(m)
    requires m in Values(ValidPoints(ps))
    ensures HasValue(ps, m)
    ensures ValidPoints(ps)[FirstIndexOf(Values(ValidPoints(ps)), m)] == ps[FirstWithValue(ps, m)]
  {
    var vs := ValidPoints(ps);
    assert vs[0] == ps[0];
    assert Values(vs)[0] == m;
    assert HasValue(ps, m) by { assert ps[0].value == Some(m); }
  }

  /** Values of a valid head followed by more points. */
  lemma ValuesCons(p: Point, rest: seq<Point>)
    requires p.value.Some? && forall i | 0 <= i < |rest| :: rest[i].value.Some?
    ensures Values([p] + rest) == [p.value.value] + Values(rest)
  {
    var vs := [p] + rest;
    var xs := Values(vs);
    var ys := [p.value.value] + Values(rest);
    assert |xs| == |ys|;
    forall i | 0 <= i < |xs| ensures xs[i] == ys[i] {
      if i > 0 {
        assert vs[i] == rest[i - 1];
      }
    }
  }

  /** `find` passes over a head that differs from `m`. */
  lemma FirstIndexOfStep(x: real, ys: seq<real>, m: real)
    requires x != m && m in [x] + ys
    ensures m in ys && FirstIndexOf([x] + ys, m) == 1 + FirstIndexOf(ys, m)
  {
    assert ([x] + ys)[1..] == ys;
  }

  /** Past a valid head with another value, both searches move one step. */
  lemma FindPastValid(ps: seq<Point>, m: real)
    requires ps != [] && ps[0].value.Some? && ps[0].value != Some(m)
    requires m in Values(ValidPoints(ps))
    ensures m in Values(ValidPoints(ps[1..]))
    ensures ValidPoints(ps)[FirstIndexOf(Values(ValidPoints(ps)), m)]
      == ValidPoints(ps[1..])[FirstIndexOf(Values(ValidPoints(ps[1..])), m)]
  {
    assert ValidPoints(ps) == [ps[0]] + ValidPoints(ps[1..]);
    FindPastHead(ps[0], ValidPoints(ps[1..]), m);
  }

  lemma {:induction false} FindPastHead(p: Point, rest: seq<Point>, m: real)
    requires p.value.Some? && p.value != Some(m)
    requires forall i | 0 <= i < |rest| :: rest[i].value.Some?
    requires m in Values([p] + rest)
    ensures m in Values(rest)
    ensures ([p] + rest)[FirstIndexOf(Values([p] + rest), m)] == rest[FirstIndexOf(Values(rest), m)]
  {
    var xs := Values([p] + rest);
    var ys := Values(rest);
    assert xs == [p.value.value] + ys by {
      ValuesCons(p, rest);
    }
    FirstIndexOfStep(p.value.value, ys, m);
    var t := FirstIndexOf(ys, m);
    assert FirstIndexOf(xs, m) == 1 + t;
    assert ([p] + rest)[1 + t] == rest[t];
  }

  /** The brief of a chart: nothing to say for an empty chart or one
      without a valid value, and otherwise the figures of its valid points. */
  function Describe(ps: seq<Point>): (b: Brief)
    ensures b == NoData <==> ps == []
    ensures b == NoValidData <==> ps != [] && forall i | 0 <= i < |ps| :: ps[i].value.None?
    ensures b.Described? ==> HasValue(ps, b.peak) && b.peakDate == ps[FirstWithValue(ps, b.peak)].date
    ensures b.Described? ==> forall i | 0 <= i < |ps| :: ps[i].value.Some? ==> ps[i].value.value <= b.peak
    ensures b.Described? ==> b.average <= b.peak
    ensures b.Described? ==> ValidPoints(ps) != []
    ensures b.Described? ==> b.trend == TrendOf(Values(ValidPoints(ps)))
    ensures b.Described? ==> b.average == Average(Values(ValidPoints(ps)))
  {
    if ps == [] then NoData
    else if ValidPoints(ps) == [] then
      ValidPointsKeeps(ps);
      NoValidData
    else
      assert !forall i | 0 <= i < |ps| :: ps[i].value.None? by {
        var v := ValidPoints(ps)[0];
        assert v.value.Some? && v in ps;
      }
      Figures(ps)
  }

  /** The figures of a chart with at least one valid value: the average and
      the trend of the valid values, the largest of them and the date of the
      first point that reaches it. */
  function Figures(ps: seq<Point>): (b: Brief)
    requires ValidPoints(ps) != []
    ensures b.Described?
    ensures HasValue(ps, b.peak) && b.peakDate == ps[FirstWithValue(ps, b.peak)].date
    ensures forall i | 0 <= i < |ps| :: ps[i].value.Some? ==> ps[i].value.value <= b.peak
    ensures b.average <= b.peak
    ensures b.trend == TrendOf(Values(ValidPoints(ps)))
    ensures b.average == Average(Values(ValidPoints(ps)))
  {
    var vs := ValidPoints(ps);
    var xs := Values(vs);
    var peak := Max(xs);
    var at := FirstIndexOf(xs, peak);
    ValidPointsKeeps(ps);
    FindAgrees(ps, peak);
    AverageAtMostPeak(xs);
    Described(Average(xs), vs[at].date, peak, TrendOf(xs))
  }

  /** Every point with a value survives the filter. */
  lemma {:induction false} ValidPointsKeeps(ps: seq<Point>)
    ensures forall i | 0 <= i < |ps| :: ps[i].value.Some? ==> ps[i] in ValidPoints(ps)
  {
    if ps != [] {
      ValidPointsKeeps(ps[1..]);
      forall i | 0 <= i < |ps| && ps[i].value.Some? ensures ps[i] in ValidPoints(ps) {
        if i > 0 {
          assert ps[i] == ps[1..][i - 1];
        }
      }
    }
  }

  /** The filter reads the points one by one and keeps their order: the
      valid points of two charts laid end to end are those of the first
      followed by those of the second. */
  lemma {:induction false} ValidPointsConcat(a: seq<Point>, b: seq<Point>)
    ensures ValidPoints(a + b) == ValidPoints(a) + ValidPoints(b)
  {
    if a == [] {
      assert a + b == b;
    } else {
      var ab := a + b;
      var head := if a[0].value.Some? then [a[0]] else [];
      assert ab[0] == a[0];
      assert ab[1..] == a[1..] + b;
      assert ValidPoints(ab) == head + ValidPoints(a[1..] + b);
      assert ValidPoints(a) == head + ValidPoints(a[1..]);
      ValidPointsConcat(a[1..], b);
      AppendAssoc(head, ValidPoints(a[1..]), ValidPoints(b));
    }
  }

  lemma {:induction false} SumAtMost(xs: seq<real>, m: real)
    requires forall i | 0 <= i < |xs| :: xs[i] <= m
    ensures Sum(xs) <= (|xs| as real) * m
  {
    if xs != [] {
      SumAtMost(xs[1..], m);
    }
  }

  /** The average never exceeds the peak. */
  lemma AverageAtMostPeak(xs: seq<real>)
    requires xs != []
    ensures Average(xs) <= Max(xs)
  {
    SumAtMost(xs, Max(xs));
    QuotientBound(Sum(xs), |xs| as real, Max(xs));
  }

  lemma QuotientBound(s: real, n: real, m: real)
    requires n > 0.0 && s <= n * m
    ensures s / n <= m
  {
    var q := s / n;
    assert q * n == s;
    if q > m {
      assert q * n > m * n;
    }
  }

  function Scale(xs: seq<real>, c: real): (ys: seq<real>)
    ensures |ys| == |xs|
    ensures forall i | 0 <= i < |xs| :: ys[i] == c * xs[i]
  {
    seq(|xs|, i requires 0 <= i < |xs| => c * xs[i])
  }

  /** The trend does not depend on the unit: scaling every value by the same
      positive factor keeps it. */
  lemma TrendScaleFree(xs: seq<real>, c: real)
    requires xs != [] && c > 0.0
    ensures TrendOf(Scale(xs, c)) == TrendOf(xs)
  {
    var ys := Scale(xs, c);
    if |xs| > 1 {
      var f := xs[0];
      var l := xs[|xs| - 1];
      assert ys[0] == c * f && ys[|ys| - 1] == c * l;
      MovementScaleFree(c, f, l);
    }
  }

  lemma MovementScaleFree(c: real, f: real, l: real)
    requires c > 0.0
    ensures Movement(c * f, c * l) == Movement(f, l)
  {
    ScaleKeepsOrder(c, l, f * 1.1);
    ScaleKeepsOrder(c, l, f * 0.9);
    ScaledThreshold(c, f, 1.1);
    ScaledThreshold(c, f, 0.9);
  }

  lemma ScaledThreshold(c: real, f: real, k: real)
    ensures (c * f) * k == c * (f * k)
  {
  }

  /** Multiplying by a positive factor keeps the order of two values. */
  lemma ScaleKeepsOrder(c: real, x: real, y: real)
    requires c > 0.0
    ensures (c * x > c * y) == (x > y)
    ensures (c * x < c * y) == (x < y)
  {
    var d := x - y;
    assert c * x - c * y == c * d;
    if d > 0.0 {
      assert c * d > 0.0;
    } else if d < 0.0 {
      assert c * (-d) > 0.0;
    }
  }

  /** A flat series of negative values is reported as rising: the 10%
      margin is taken on the first value, and 110% of a negative value lies
      below it. */
  lemma FlatNegativeReadsRising(xs: seq<real>, v: real)
    requires |xs| > 1 && v < 0.0
    requires forall i | 0 <= i < |xs| :: xs[i] == v
    ensures TrendOf(xs) == Rising
  {
    assert xs[0] == v && xs[|xs| - 1] == v;
  }

  /** On a series of positive values a flat line is stable. */
  lemma FlatPositiveIsStable(xs: seq<real>, v: real)
    requires |xs| > 1 && v > 0.0
    requires forall i | 0 <= i < |xs| :: xs[i] == v
    ensures TrendOf(xs) == Stable
  {
    assert xs[0] == v && xs[|xs| - 1] == v;
  }

}
