/** How the insight panel (`AIInsightPanel`, App.jsx) lays out the analysis
    text it receives: one block per line, sorted into a heading, a list
    item, a line break or a paragraph. */
module Insights {
  import opened Text

  datatype Block = Heading(text: string) | Item(text: string) | Break | Paragraph(text: string)

  /** The characters a heading loses: `replace(/[#*]/g, '')`. */
  const HeadingMarks: set<char> := {'#', '*'}

  /** The characters of a list marker, `[-*1.]`. */
  predicate IsMarkerChar(c: char) {
    c == '-' || c == '*' || c == '1' || c == '.'
  }

  function MarkerRun(s: string): (n: nat)
    ensures n <= |s|
    ensures forall i | 0 <= i < n :: IsMarkerChar(s[i])
    ensures n == |s| || !IsMarkerChar(s[n])
  {
    if s != [] && IsMarkerChar(s[0]) then 1 + MarkerRun(s[1..]) else 0
  }

  /** `line.replace` with the pattern `^[-*1.]+\s*` and an empty
      replacement: a run of marker characters at the
      very start of the line, and the white space after it, are dropped; a
      line that does not start with a marker character is unchanged. */
  function StripMarker(line: string): (r: string)
    ensures MarkerRun(line) == 0 ==> r == line
    ensures MarkerRun(line) > 0 ==> r == line[MarkerRun(line) + SpaceRun(line[MarkerRun(line)..])..]
    ensures r == [] || !IsSpace(r[0]) || MarkerRun(line) == 0
  {
    var n := MarkerRun(line);
    if n == 0 then line
    else
      var rest := line[n..];
      rest[SpaceRun(rest)..]
  }

  /** `line.startsWith('###') || line.startsWith('**')`. */
  predicate IsHeadingLine(line: string) {
    StartsWith(line, "###") || StartsWith(line, "**")
  }

  /** `line.trim().startsWith('-') || line.trim().startsWith('1.')`. */
  predicate IsItemLine(line: string) {
    StartsWith(Trim(line), "-") || StartsWith(Trim(line), "1.")
  }

  /** The block one line of the analysis becomes: the tests are tried in
      order, heading first, then item, then break. */
  function Classify(line: string): (b: Block)
    ensures b.Heading? <==> IsHeadingLine(line)
    ensures b.Heading? ==> b.text == RemoveAll(line, HeadingMarks)
    ensures b.Heading? ==> forall i | 0 <= i < |b.text| :: b.text[i] !in HeadingMarks
    ensures b.Item? <==> !IsHeadingLine(line) && IsItemLine(line)
    ensures b.Item? ==> b.text == StripMarker(line)
    ensures b.Break? <==> !IsHeadingLine(line) && !IsItemLine(line) && AllSpace(line)
    ensures b.Paragraph? <==> !IsHeadingLine(line) && !IsItemLine(line) && !AllSpace(line)
    ensures b.Paragraph? ==> b.text == line
  {
    if IsHeadingLine(line) then
      Heading(RemoveAll(line, HeadingMarks))
    else if IsItemLine(line) then
      Item(StripMarker(line))
    else if Trim(line) == [] then
      Break
    else
      Paragraph(line)
  }

  /** `analysis.split('\n').map(...)`: one block per line. */
  function Blocks(analysis: string): (bs: seq<Block>)
    ensures |bs| == |Split(analysis, '\n')|
    ensures forall i | 0 <= i < |bs| :: bs[i] == Classify(Split(analysis, '\n')[i])
  {
    var lines := Split(analysis, '\n');
    seq(|lines|, i requires 0 <= i < |lines| => Classify(lines[i]))
  }

  /** There is one block more than there are line feeds. */
  lemma BlockCount(analysis: string)
    ensures |Blocks(analysis)| == Count(analysis, '\n') + 1
  {
    SplitLength(analysis, '\n');
  }

  /** A line is a break exactly when it is blank. */
  lemma BreakIffBlank(line: string)
    ensures Classify(line) == Break <==> AllSpace(line)
  {
    if AllSpace(line) {
      BlankIsBreak(line);
    }
  }

  lemma BlankIsBreak(line: string)
    requires AllSpace(line)
    ensures Classify(line) == Break
  {
    assert Trim(line) == [];
    BlankNoHeading(line);
    NoHeadingEmptyTrimIsBreak(line);
  }

  /** A blank line starts with neither heading mark. */
  lemma BlankNoHeading(line: string)
    requires AllSpace(line)
    ensures !StartsWith(line, "###") && !StartsWith(line, "**")
  {
    if line != [] {
      SpaceIsNoMark(line[0]);
      NoHeadingMark(line);
    } else {
      assert |"###"| == 3 && |"**"| == 2;
    }
  }

  /** A line that is no heading and trims to nothing is a break. */
  lemma NoHeadingEmptyTrimIsBreak(line: string)
    requires Trim(line) == []
    requires !StartsWith(line, "###") && !StartsWith(line, "**")
    ensures Classify(line) == Break
  {
    assert |"-"| == 1 && |"1."| == 2;
  }

  lemma SpaceIsNoMark(c: char)
    requires IsSpace(c)
    ensures c != '#' && c != '*' && !IsMarkerChar(c)
  {
  }

  /** A run of one marker character and one space at the start. */
  lemma StripOneDash(text: string)
    requires text == [] || (!IsSpace(text[0]) && !IsMarkerChar(text[0]))
    ensures StripMarker(['-', ' '] + text) == text
  {
    var line := ['-', ' '] + text;
    var rest := [' '] + text;
    assert line[1..] == rest;
    assert !IsMarkerChar(' ') && IsSpace(' ') && IsMarkerChar('-');
    assert rest[1..] == text;
    assert MarkerRun(rest) == 0;
    assert MarkerRun(line) == 1;
    assert SpaceRun(text) == 0;
    assert SpaceRun(rest) == 1;
    assert rest[1..] == text;
  }

  /** A line whose first character is neither `#` nor `*` is no heading. */
  lemma NoHeadingMark(line: string)
    requires line != [] && line[0] != '#' && line[0] != '*'
    ensures !StartsWith(line, "###") && !StartsWith(line, "**")
  {
    assert "###"[0] == '#' && "**"[0] == '*';
  }

  lemma TrimKeepsFirst(s: string)
    requires s != [] && !IsSpace(s[0])
    ensures Trim(s) != [] && Trim(s)[0] == s[0]
  {
    assert TrimStart(s) == s;
    assert TrimEnd(s)[0] == s[0] by {
      assert !AllSpace(s);
    }
  }

  /** A line that is no heading and whose trimmed text starts with a dash
      is an item. */
  lemma DashLineIsItem(line: string, t: string)
    requires line != [] && line[0] != '#' && line[0] != '*'
    requires t != [] && t[0] == '-' && Trim(line) == t
    ensures Classify(line) == Item(StripMarker(line))
  {
    NoHeadingMark(line);
    assert StartsWith(t, "-");
  }

  /** A dash item: the marker and the space after it are dropped. */
  lemma DashItem(text: string)
    requires text == [] || (!IsSpace(text[0]) && !IsMarkerChar(text[0]))
    ensures Classify(['-', ' '] + text) == Item(text)
  {
    var line := ['-', ' '] + text;
    assert !IsSpace('-');
    TrimKeepsFirst(line);
    DashLineIsItem(line, Trim(line));
    StripOneDash(text);
  }

  /** An indented item keeps its marker: the item is recognised on the
      trimmed line but the marker is only stripped at the very start. */
  lemma IndentedItemKeepsMarker(text: string)
    ensures Classify([' ', '-', ' '] + text) == Item([' ', '-', ' '] + text)
  {
    var line := [' ', '-', ' '] + text;
    IndentedDash(line);
  }

  /** A line of one space and then a dash is an item left as it is. */
  lemma IndentedDash(line: string)
    requires |line| >= 2 && line[0] == ' ' && line[1] == '-'
    ensures Classify(line) == Item(line)
  {
    IndentedTrim(line);
    DashLineIsItem(line, Trim(line));
    assert !IsMarkerChar(line[0]);
  }

  lemma IndentedTrim(line: string)
    requires |line| >= 2 && line[0] == ' ' && line[1] == '-'
    ensures Trim(line) != [] && Trim(line)[0] == '-'
  {
    var t := line[1..];
    assert line == [' '] + t;
    assert !IsSpace('-') && IsSpace(' ');
    LeadingSpaceTrim(' ', t);
    TrimKeepsFirst(t);
  }

  /** One leading space before a non-blank start is trimmed away. */
  lemma LeadingSpaceTrim(c: char, t: string)
    requires IsSpace(c) && t != [] && !IsSpace(t[0])
    ensures Trim([c] + t) == Trim(t)
  {
    var line := [c] + t;
    assert line[0] == c && line[1..] == t;
    assert TrimStart(line) == TrimStart(t);
    assert TrimStart(t) == t;
  }

  /** Only `1.` opens a numbered item: a line starting `2.` is a paragraph. */
  lemma SecondNumberIsParagraph(text: string)
    ensures Classify(['2', '.', ' '] + text) == Paragraph(['2', '.', ' '] + text)
  {
    var line := ['2', '.', ' '] + text;
    NoHeadingMark(line);
    TrimKeepsFirst(line);
    var t := Trim(line);
    assert !StartsWith(t, "-") && !StartsWith(t, "1.") by {
      assert t[0] == '2' && "-"[0] == '-' && "1."[0] == '1';
    }
  }

}
