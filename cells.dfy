/** The two cell decoders of the upload parser (`parseNum` and `parseRate`,
    App.jsx). A cell is `None` when the row has no such column (JavaScript
    reads `undefined` past the end of the split row). */
module Cells {
  import opened Optional
  import opened Text
  import opened JsNumber

  /** The characters `parseNum` strips everywhere: quotes and commas. */
  const Separators: set<char> := {'"', '\'', ','}

  /** The text `parseNum` hands to `parseFloat`: every separator removed,
      then the first percent sign. */
  function Clean(v: string): (r: string)
    ensures forall i | 0 <= i < |r| :: r[i] !in Separators && r[i] in v
    ensures |r| <= |v|
  {
    RemoveFirst(RemoveAll(v, Separators), '%')
  }

  /** `parseNum(cell)`: a missing or empty cell, and a cell whose cleaned text
      does not start with a number, decode to 0 (never NaN). */
  function ParseNum(cell: Option<string>): (r: real)
    ensures cell == None || cell == Some([]) ==> r == 0.0
    ensures cell.Some? && !StartsNumeral(Unsigned(TrimStart(Clean(cell.value)))) ==> r == 0.0
  {
    match cell
    case None => 0.0
    case Some(v) =>
      if v == [] then 0.0
      else match ParseFloat(Clean(v))
        case None => 0.0
        case Some(x) => x
  }

  /** `parseRate(cell)`, the registration-rate heuristic: a cell written with
      a percent sign is a percentage; a bare value above 10 is taken for one
      too; any other bare value is already a fraction. */
  function ParseRate(cell: Option<string>): (r: real)
    ensures cell == None || cell == Some([]) ==> r == 0.0
    ensures cell.Some? && '%' in cell.value ==> r * 100.0 == ParseNum(cell)
    ensures cell.Some? && '%' !in cell.value && ParseNum(cell) > 10.0 ==> r * 100.0 == ParseNum(cell)
    ensures cell.Some? && '%' !in cell.value && ParseNum(cell) <= 10.0 ==> r == ParseNum(cell)
  {
    match cell
    case None => 0.0
    case Some(v) =>
      if v == [] then 0.0
      else
        var num := ParseNum(cell);
        if '%' in v then num / 100.0
        else if num > 10.0 then num / 100.0
        else num
  }

  lemma DigitIsPlain(c: char)
    requires IsDigit(c)
    ensures c !in Separators && c != '%'
  {
  }

  lemma CleanDigits(d: string)
    requires AllDigits(d)
    ensures Clean(d) == d
  {
    forall i | 0 <= i < |d| ensures d[i] !in Separators && d[i] != '%' {
      DigitIsPlain(d[i]);
    }
    RemoveAllKeeps(d, Separators);
  }

  /** Two cells that clean to the same text decode to the same number. */
  lemma SameClean(u: string, v: string)
    requires Clean(u) == Clean(v)
    ensures ParseNum(Some(u)) == ParseNum(Some(v))
  {
    if u == [] || v == [] {
      assert Clean([]) == [];
      assert TrimStart([]) == [];
      assert !StartsNumeral(Unsigned(TrimStart([])));
    }
  }

  /** A cell holding the decimal digits of `n` decodes to `n`. */
  lemma ParseNumNatText(n: nat)
    ensures ParseNum(Some(NatText(n))) == n as real
  {
    var d := NatText(n);
    assert ParseFloat(Clean(d)) == Some(n as real) by {
      CleanDigits(d);
      ParseFloatNatText(n, []);
      assert d + [] == d;
    }
  }

  lemma CleanIgnoresSeparator(a: string, c: char, b: string)
    requires c in Separators
    ensures Clean(a + [c] + b) == Clean(a + b)
  {
    RemoveAllConcat(a + [c], b, Separators);
    RemoveAllConcat(a, [c], Separators);
    assert RemoveAll([c], Separators) == [];
    assert RemoveAll(a + [c], Separators) == RemoveAll(a, Separators);
    RemoveAllConcat(a, b, Separators);
  }

  /** A quote or a thousands-separator comma anywhere in a cell handed to
      `parseNum` does not change its value: `2,200` reads as `2200`. */
  lemma ParseNumIgnoresSeparator(a: string, c: char, b: string)
    requires c in Separators
    ensures ParseNum(Some(a + [c] + b)) == ParseNum(Some(a + b))
  {
    CleanIgnoresSeparator(a, c, b);
    SameClean(a + [c] + b, a + b);
  }

  lemma CleanIgnoresPercent(a: string, b: string)
    requires '%' !in a && '%' !in b
    ensures Clean(a + ['%'] + b) == Clean(a + b)
  {
    var ra := RemoveAll(a, Separators);
    var rb := RemoveAll(b, Separators);
    RemoveAllConcat(a + ['%'], b, Separators);
    RemoveAllConcat(a, ['%'], Separators);
    assert RemoveAll(['%'], Separators) == ['%'];
    assert RemoveAll(a + ['%'] + b, Separators) == ra + ['%'] + rb;
    RemoveFirstAt(ra, rb, '%');
    RemoveAllConcat(a, b, Separators);
    assert '%' !in ra + rb;
  }

  /** One percent sign anywhere in a cell does not change its value. */
  lemma ParseNumIgnoresPercent(a: string, b: string)
    requires '%' !in a && '%' !in b
    ensures ParseNum(Some(a + ['%'] + b)) == ParseNum(Some(a + b))
  {
    CleanIgnoresPercent(a, b);
    SameClean(a + ['%'] + b, a + b);
  }

  /** A cell written as `d.f` decodes to the whole part plus the fraction. */
  lemma ParseNumDecimal(d: string, f: string)
    requires d != [] && AllDigits(d) && AllDigits(f)
    ensures ParseNum(Some(d + ['.'] + f)) == Whole(d) as real + Fraction(f)
  {
    var s := d + ['.'] + f;
    forall i | 0 <= i < |s| ensures s[i] !in Separators && s[i] != '%' {
      if i < |d| { DigitIsPlain(d[i]); }
      else if i > |d| { DigitIsPlain(f[i - |d| - 1]); }
    }
    RemoveAllKeeps(s, Separators);
    assert Clean(s) == s;
    ParseFloatDecimal(d, f);
  }

  lemma AllDigitsConcat(a: string, b: string)
    requires AllDigits(a) && AllDigits(b)
    ensures AllDigits(a + b)
  {
    forall i | 0 <= i < |a + b| ensures IsDigit((a + b)[i]) {
      if i < |a| { assert (a + b)[i] == a[i]; } else { assert (a + b)[i] == b[i - |a|]; }
    }
  }

  lemma RegroupAmount(a: string, b: string, f: string)
    ensures a + [','] + b + ['.'] + f == a + [','] + (b + ['.'] + f)
    ensures a + (b + ['.'] + f) == (a + b) + ['.'] + f
  {
  }

  /** A decimal amount with a thousands comma reads as the number without it. */
  lemma GroupedDecimal(a: string, b: string, f: string)
    requires a != [] && AllDigits(a) && AllDigits(b) && AllDigits(f)
    ensures ParseNum(Some(a + [','] + b + ['.'] + f)) == Whole(a + b) as real + Fraction(f)
  {
    RegroupAmount(a, b, f);
    ParseNumIgnoresSeparator(a, ',', b + ['.'] + f);
    AllDigitsConcat(a, b);
    ParseNumDecimal(a + b, f);
  }

  lemma FractionZeros()
    ensures Fraction(['0', '0']) == 0.0
  {
    assert ['0', '0'][1..] == ['0'] && ['0'][1..] == [];
  }

  /** `parseNum` handed the whole cell `2,200.00` reads 2200. In an uploaded
      line the cell never arrives whole: the line is cut at that comma first
      (`DailyRecords.QuotedAmountSplits`). */
  lemma GroupedAmount()
    ensures ParseNum(Some("2,200.00")) == 2200.0
  {
    var a, b, f := NatText(2), NatText(200), NatText(0) + NatText(0);
    assert "2,200.00" == a + [','] + b + ['.'] + f;
    assert a + b == NatText(2200);
    WholeNatText(2200);
    assert f == ['0', '0'];
    FractionZeros();
    GroupedDecimal(a, b, f);
  }

  /** A bare value no larger than 1000 always decodes to a rate of at most
      10 (1000%): the heuristic keeps rates in a plausible range. */
  lemma BareRateBounded(v: string)
    requires v != [] && '%' !in v
    requires 0.0 <= ParseNum(Some(v)) <= 1000.0
    ensures 0.0 <= ParseRate(Some(v)) <= 10.0
  {
  }

  lemma DigitsNoPercent(d: string)
    requires AllDigits(d)
    ensures '%' !in d && '%' in d + ['%']
  {
    forall i | 0 <= i < |d| ensures d[i] != '%' {
      DigitIsPlain(d[i]);
    }
    assert (d + ['%'])[|d|] == '%';
  }

  /** Above the threshold, a bare number and the same number written with a
      percent sign decode to the same rate: `50` and `50%` both mean 0.5. */
  lemma BareMatchesPercent(n: nat)
    requires n > 10
    ensures ParseRate(Some(NatText(n))) == ParseRate(Some(NatText(n) + ['%']))
  {
    var d := NatText(n);
    ParseNumNatText(n);
    DigitsNoPercent(d);
    ParseNumIgnoresPercent(d, []);
    assert d + ['%'] + [] == d + ['%'] && d + [] == d;
  }

  /** At or below the threshold the two spellings differ: `5` stays 5 (a
      fraction meaning 500%) while `5%` is 0.05. */
  lemma SmallBareIsFraction(n: nat)
    requires n <= 10
    ensures ParseRate(Some(NatText(n))) == n as real
    ensures ParseRate(Some(NatText(n) + ['%'])) == n as real / 100.0
  {
    var d := NatText(n);
    ParseNumNatText(n);
    DigitsNoPercent(d);
    ParseNumIgnoresPercent(d, []);
    assert d + ['%'] + [] == d + ['%'] && d + [] == d;
  }

  /** A bare `50` is read as 50%, like `50%` itself. */
  lemma FiftyIsPercent()
    ensures ParseRate(Some("50")) == 0.5
    ensures ParseRate(Some("50%")) == 0.5
  {
    var bare := "50";
    assert NatText(50) == bare;
    assert "50%" == bare + ['%'];
    BareMatchesPercent(50);
    ParseNumNatText(50);
    DigitsNoPercent(bare);
  }

  /** A bare `5` and a bare `10` are taken as fractions already. */
  lemma SmallRatesKept()
    ensures ParseRate(Some("5")) == 5.0
    ensures ParseRate(Some("10")) == 10.0
  {
    assert NatText(5) == "5";
    assert NatText(10) == "10";
    SmallBareIsFraction(5);
    SmallBareIsFraction(10);
  }

  lemma OnePointElevenParts()
    ensures AllDigits(['1']) && AllDigits(['1', '1'])
    ensures Whole(['1']) == 1 && Fraction(['1', '1']) == 0.11
  {
    assert ['1'][..0] == [];
    assert ['1', '1'][1..] == ['1'] && ['1'][1..] == [];
  }

  lemma DecimalNoPercent(d: string, f: string)
    requires AllDigits(d) && AllDigits(f)
    ensures '%' !in d + ['.'] + f
  {
    var s := d + ['.'] + f;
    forall i | 0 <= i < |s| ensures s[i] != '%' {
      if i < |d| { DigitIsPlain(d[i]); }
      else if i > |d| { DigitIsPlain(f[i - |d| - 1]); }
    }
  }

  /** A bare decimal below the threshold, `1.11`, is kept. */
  lemma DecimalRateKept()
    ensures ParseRate(Some("1.11")) == 1.11
  {
    var d, f := "1", "11";
    assert "1.11" == d + ['.'] + f;
    OnePointElevenParts();
    ParseNumDecimal(d, f);
    DecimalNoPercent(d, f);
  }

}
