/** One day of the uploaded report: the object `parseCSV` builds from a data
    line (App.jsx). Column 0 is the date, column 1 the weekday, and columns 2
    to 35 are the metrics of three blocks: the whole product (12 columns),
    Android (11) and iOS (11). The record keeps the metrics in column order.
    The line is cut at every comma: a quoted cell holding a comma, such as
    `"2,200.00"`, is two cells by the time it is decoded. */
module DailyRecords {
  import opened Optional
  import opened Text
  import opened JsNumber
  import opened Cells

  /** The number of columns a data line is read up to. */
  const Width: nat := 36

  /** The first metric column. */
  const FirstMetric: nat := 2

  /** The columns `calculateSummary` reads. */
  const TotalSpend: nat := 2
  const TotalInstall: nat := 3
  const TotalReg: nat := 4
  const TotalRoi1: nat := 11

  /** The registrations columns of the Android and iOS blocks. */
  const AndReg: nat := 16
  const IosReg: nat := 27

  /** One value per metric column, in column order. */
  type Metrics = m: seq<real> | |m| == Width - FirstMetric
    witness seq(Width - FirstMetric, _ => 0.0)

  datatype DailyRecord = DailyRecord(date: string, weekday: Option<string>, metrics: Metrics)
  {
    /** The value the record keeps from metric column `k`. */
    function Column(k: nat): real
      requires FirstMetric <= k < Width
    {
      metrics[k - FirstMetric]
    }
  }

  /** The comma fields of a line: `line.split(',')`. None holds a comma,
      there is one more than the line has commas, and joined back with
      commas they give the line. */
  function Row(line: string): (row: seq<string>)
    ensures |row| == Count(line, ',') + 1
    ensures forall i | 0 <= i < |row| :: ',' !in row[i]
    ensures Join(row, ',') == line
  {
    SplitLength(line, ',');
    JoinSplit(line, ',');
    Split(line, ',')
  }

  /** `row[k]`: `None` (JavaScript's `undefined`) past the end of the row. */
  function Cell(row: seq<string>, k: nat): (c: Option<string>)
    ensures c.Some? <==> k < |row|
    ensures c.Some? ==> c.value == row[k]
  {
    if k < |row| then Some(row[k]) else None
  }

  /** The registration-rate columns: in each of the three blocks, the
      column right after the registrations. */
  function IsRateColumn(k: nat): (b: bool)
    ensures b <==> k == TotalReg + 1 || k == AndReg + 1 || k == IosReg + 1
  {
    k == 5 || k == 17 || k == 28
  }

  /** How metric column `k` is decoded: `parseRate` for the three rate
      columns, `parseNum` for every other one. */
  function DecodeColumn(k: nat, cell: Option<string>): real {
    if IsRateColumn(k) then ParseRate(cell) else ParseNum(cell)
  }

  /** A missing or empty cell is 0 in every column; other columns read the
      cell as `parseNum` does; a rate column divides a percentage by 100,
      and a bare rate by 100 only when it is above 10. */
  lemma DecodeColumnCases(k: nat, cell: Option<string>)
    ensures cell == None || cell == Some([]) ==> DecodeColumn(k, cell) == 0.0
    ensures !IsRateColumn(k) ==> DecodeColumn(k, cell) == ParseNum(cell)
    ensures IsRateColumn(k) && cell.Some? && '%' in cell.value ==>
      DecodeColumn(k, cell) * 100.0 == ParseNum(cell)
    ensures IsRateColumn(k) && cell.Some? && '%' !in cell.value ==>
      DecodeColumn(k, cell) == if ParseNum(cell) > 10.0 then ParseNum(cell) / 100.0 else ParseNum(cell)
  {
  }

  /** The object pushed for a data line: the date and weekday cells verbatim,
      every metric column decoded by position; cells after column 35 are
      ignored. */
  function ParseRow(line: string): (r: DailyRecord)
    ensures r.date == Row(line)[0]
    ensures r.weekday == Cell(Row(line), 1)
    ensures forall i | 0 <= i < |r.metrics| ::
      r.metrics[i] == DecodeColumn(i + FirstMetric, Cell(Row(line), i + FirstMetric))
  {
    var row := Row(line);
    DailyRecord(row[0], Cell(row, 1), DecodeMetrics(row))
  }

  /** Every metric column of a row, decoded by position. */
  function DecodeMetrics(row: seq<string>): (m: Metrics)
    ensures forall i | 0 <= i < |m| ::
      m[i] == DecodeColumn(i + FirstMetric, Cell(row, i + FirstMetric))
  {
    seq(Width - FirstMetric, i requires 0 <= i => DecodeColumn(i + FirstMetric, Cell(row, i + FirstMetric)))
  }

  /** Column by column: metric column `k` of the record is cell `k` of the
      line, decoded the way that column is decoded. */
  lemma ParseRowColumn(line: string, k: nat)
    requires FirstMetric <= k < Width
    ensures ParseRow(line).Column(k) == DecodeColumn(k, Cell(Row(line), k))
    ensures IsRateColumn(k) ==> ParseRow(line).Column(k) == ParseRate(Cell(Row(line), k))
    ensures !IsRateColumn(k) ==> ParseRow(line).Column(k) == ParseNum(Cell(Row(line), k))
  {
    var r := ParseRow(line);
    assert r.Column(k) == r.metrics[k - FirstMetric];
  }

  /** A row cut short decodes every missing metric to 0, and a line without
      a comma has no weekday. */
  lemma ShortRowZero(line: string, k: nat)
    requires FirstMetric <= k < Width && |Row(line)| <= k
    ensures ParseRow(line).Column(k) == 0.0
    ensures |Row(line)| == 1 ==> ParseRow(line).weekday == None
  {
    ParseRowColumn(line, k);
    assert Cell(Row(line), k) == None;
  }

  /** Cells after the last mapped column do not change the record. */
  lemma ExtraColumnsIgnored(line: string, extra: string)
    requires |Row(line)| >= Width
    ensures ParseRow(line + [','] + extra) == ParseRow(line)
  {
    var row := Row(line);
    var longer := Row(line + [','] + extra);
    SplitConcat(line, extra, ',');
    assert longer == row + Row(extra);
    forall k: nat | k < Width ensures Cell(longer, k) == Cell(row, k) {
      assert longer[k] == row[k];
    }
    assert ParseRow(line + [','] + extra).metrics == ParseRow(line).metrics;
  }

  /** A line is cut at every comma, and fields holding no comma come back
      unchanged. */
  lemma RowOfFields(f0: string, f1: string, f2: string, f3: string, f4: string)
    requires ',' !in f0 && ',' !in f1 && ',' !in f2 && ',' !in f3 && ',' !in f4
    ensures Row(f0 + [','] + f1 + [','] + f2 + [','] + f3 + [','] + f4) == [f0, f1, f2, f3, f4]
  {
    SingleField(f0);
    SingleField(f1);
    SingleField(f2);
    SingleField(f3);
    SingleField(f4);
    SplitConcat(f0, f1, ',');
    SplitConcat(f0 + [','] + f1, f2, ',');
    SplitConcat(f0 + [','] + f1 + [','] + f2, f3, ',');
    SplitConcat(f0 + [','] + f1 + [','] + f2 + [','] + f3, f4, ',');
  }

  lemma SingleField(f: string)
    requires ',' !in f
    ensures Split(f, ',') == [f]
  {
    SplitJoin([f], ',');
  }

  /** The three leading metric columns of a five-field line are its last
      three fields, each read by `parseNum`. */
  lemma LeadingMetrics(f0: string, f1: string, f2: string, f3: string, f4: string)
    requires ',' !in f0 && ',' !in f1 && ',' !in f2 && ',' !in f3 && ',' !in f4
    ensures ParseRow(f0 + [','] + f1 + [','] + f2 + [','] + f3 + [','] + f4).Column(TotalSpend) == ParseNum(Some(f2))
    ensures ParseRow(f0 + [','] + f1 + [','] + f2 + [','] + f3 + [','] + f4).Column(TotalInstall) == ParseNum(Some(f3))
    ensures ParseRow(f0 + [','] + f1 + [','] + f2 + [','] + f3 + [','] + f4).Column(TotalReg) == ParseNum(Some(f4))
  {
    var line := f0 + [','] + f1 + [','] + f2 + [','] + f3 + [','] + f4;
    RowOfFields(f0, f1, f2, f3, f4);
    ParseRowColumn(line, TotalSpend);
    ParseRowColumn(line, TotalInstall);
    ParseRowColumn(line, TotalReg);
  }

  /** A thousands comma inside a quoted cell splits the cell: in the line
      `date,weekday,"2,200.00",180` the spend column reads `"2` and decodes
      to 2, and the rest of the amount, `200.00"`, lands in the installs
      column, which pushes the registrations value one column along. */
  lemma QuotedAmountSplits(date: string, weekday: string)
    requires ',' !in date && ',' !in weekday
    ensures ParseRow(date + "," + weekday + ",\"2,200.00\",180").Column(TotalSpend) == 2.0
    ensures ParseRow(date + "," + weekday + ",\"2,200.00\",180").Column(TotalInstall) == 200.0
    ensures ParseRow(date + "," + weekday + ",\"2,200.00\",180").Column(TotalReg) == 180.0
  {
    var spend, install, reg := "\"2", "200.00\"", "180";
    assert date + "," + weekday + ",\"2,200.00\",180"
      == date + [','] + weekday + [','] + spend + [','] + install + [','] + reg;
    LeadingMetrics(date, weekday, spend, install, reg);
    QuotedTwo();
    QuotedTwoHundred();
    PlainNumber();
  }

  lemma QuotedTwo()
    ensures ParseNum(Some("\"2")) == 2.0
  {
    assert NatText(2) == "2";
    assert "\"2" == [] + ['"'] + NatText(2);
    ParseNumIgnoresSeparator([], '"', NatText(2));
    assert [] + NatText(2) == NatText(2);
    ParseNumNatText(2);
  }

  lemma TwoHundredText()
    ensures NatText(200) == "200"
  {
    assert NatText(2) == "2";
    assert NatText(20) == NatText(2) + "0";
    assert NatText(200) == NatText(20) + "0";
  }

  lemma QuotedTwoHundred()
    ensures ParseNum(Some("200.00\"")) == 200.0
  {
    var d := NatText(200);
    var amount := d + ['.'] + "00";
    assert "200.00\"" == amount + ['"'] + [] by {
      TwoHundredText();
    }
    ParseNumIgnoresSeparator(amount, '"', []);
    assert amount + [] == amount;
    DecimalTwoHundred(d);
  }

  lemma DecimalTwoHundred(d: string)
    requires d == NatText(200)
    ensures ParseNum(Some(d + ['.'] + "00")) == 200.0
  {
    WholeNatText(200);
    FractionZeros();
    assert "00" == ['0', '0'];
    ParseNumDecimal(d, "00");
  }

  lemma PlainNumber()
    ensures ParseNum(Some("180")) == 180.0
  {
    OneEightyText();
    ParseNumNatText(180);
  }

  lemma OneEightyText()
    ensures NatText(180) == "180"
  {
    assert NatText(1) == "1";
    assert NatText(18) == NatText(1) + "8";
    assert NatText(180) == NatText(18) + "0";
  }

}
