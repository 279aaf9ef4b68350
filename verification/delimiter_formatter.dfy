/**
  The delimited-text formatter (src/lib/output/delimiter.rs): a header line, one line
  per record and a footer, cells joined by a delimiter string. There is no graph
  column, no colour and no quoting of cells.
 */
module DelimiterFormatters {
  import opened Strings
  import opened Languages
  import opened Files
  import opened Accumulators
  import opened Results
  import opened Outputs

  /** The column flags, in column order: language, files, lines, words, chars, bytes. */
  function Flags(c: Config): seq<bool> {
    [c.language, c.path, c.lines, c.words, c.chars, c.bytes]
  }

  /** The titles of the selected columns. */
  function HeaderCells(c: Config): (h: seq<string>)
    ensures |h| == CountTrue(Flags(c), 6)
  {
    Select(["Language", FilesTitle(c), "Lines", "Words", "Chars", "Bytes"], Flags(c))
  }

  /** `build_header`: the titles joined by the delimiter, then a line break. With a
      one-character delimiter no title contains, the line splits back into the titles. */
  function Header(c: Config, delimiter: string): (line: string)
    ensures line != [] && line[|line| - 1] == '\n'
    ensures var h := HeaderCells(c);
      |h| >= 1 && |delimiter| == 1 && (forall i | 0 <= i < |h| :: delimiter[0] !in h[i])
      ==> SplitOn(line[..|line| - 1], delimiter[0]) == h
  {
    var h := HeaderCells(c);
    var line := Join(h, delimiter) + "\n";
    assert line[..|line| - 1] == Join(h, delimiter);
    if |h| >= 1 && |delimiter| == 1 && (forall i | 0 <= i < |h| :: delimiter[0] !in h[i]) then
      assert delimiter == [delimiter[0]];
      SplitOnJoin(h, delimiter[0]);
      line
    else line
  }

  /** Every column's value for a record, selected or not; the language is not coloured. */
  function RowValues(f: File, c: Config): seq<string> {
    [Name(f.language), FilesCell(f, c), NatToString(f.lines), NatToString(f.words),
     NatToString(f.chars), NatToString(f.bytes)]
  }

  /** The cells `build_row` pushes, one `if` per column: the selected values, in order,
      as many as the header has. */
  function RowCells(f: File, c: Config): (cells: seq<string>)
    ensures cells == Select(RowValues(f, c), Flags(c))
    ensures |cells| == |HeaderCells(c)|
  {
    var v := RowValues(f, c);
    var fl := Flags(c);
    var cells :=
      PushIf(PushIf(PushIf(PushIf(PushIf(PushIf([],
        c.language, v[0]), c.path, v[1]), c.lines, v[2]), c.words, v[3]),
        c.chars, v[4]), c.bytes, v[5]);
    SelectIsPushes(v, fl, 6);
    assert v[..6] == v;
    assert cells == Pushes(v, fl, 6) by {
      assert Pushes(v, fl, 1) == PushIf(Pushes(v, fl, 0), fl[0], v[0]);
      assert Pushes(v, fl, 2) == PushIf(Pushes(v, fl, 1), fl[1], v[1]);
      assert Pushes(v, fl, 3) == PushIf(Pushes(v, fl, 2), fl[2], v[2]);
      assert Pushes(v, fl, 4) == PushIf(Pushes(v, fl, 3), fl[3], v[3]);
      assert Pushes(v, fl, 5) == PushIf(Pushes(v, fl, 4), fl[4], v[4]);
      assert Pushes(v, fl, 6) == PushIf(Pushes(v, fl, 5), fl[5], v[5]);
    }
    cells
  }

  /** `build_row`: the cells joined by the delimiter, then a line break, which is the
      only one when neither the cells nor the delimiter hold one. */
  function Row(f: File, c: Config, delimiter: string): (line: string)
    ensures line != [] && line[|line| - 1] == '\n'
    ensures var cells := RowCells(f, c);
      '\n' !in delimiter && (forall i | 0 <= i < |cells| :: '\n' !in cells[i])
      ==> '\n' !in line[..|line| - 1]
  {
    var cells := RowCells(f, c);
    var line := Join(cells, delimiter) + "\n";
    assert line[..|line| - 1] == Join(cells, delimiter);
    if '\n' !in delimiter && (forall i | 0 <= i < |cells| :: '\n' !in cells[i]) then
      JoinLacks(cells, delimiter);
      line
    else line
  }

  /** "Total" and the totals, selected by the same flags: as many cells as the header. */
  function FooterCells(r: ScanResults, c: Config): (ft: seq<string>)
    ensures |ft| == |HeaderCells(c)|
  {
    Select(["Total", NatToString(r.total.files), NatToString(r.total.lines), NatToString(r.total.words),
            NatToString(r.total.chars), NatToString(r.total.bytes)], Flags(c))
  }

  /** `build_footer`: the footer cells joined by the delimiter. Unlike the header and
      the rows it adds no line break: it holds none when neither the cells nor the
      delimiter do. */
  function Footer(r: ScanResults, c: Config, delimiter: string): (line: string)
    ensures var ft := FooterCells(r, c);
      '\n' !in delimiter && (forall i | 0 <= i < |ft| :: '\n' !in ft[i]) ==> '\n' !in line
  {
    var ft := FooterCells(r, c);
    if '\n' !in delimiter && (forall i | 0 <= i < |ft| :: '\n' !in ft[i]) then
      JoinLacks(ft, delimiter);
      Join(ft, delimiter)
    else Join(ft, delimiter)
  }

  /** The rows pushed one after another. */
  function RowsText(files: seq<File>, c: Config, delimiter: string): string {
    if files == [] then [] else Row(files[0], c, delimiter) + RowsText(files[1..], c, delimiter)
  }

  /** `format`: the header if asked for, every record in order, the footer if asked for. */
  function Format(r: ScanResults, c: Config, delimiter: string): (s: string)
    ensures c.header ==> StartsWith(s, Header(c, delimiter))
    ensures c.footer ==> |Footer(r, c, delimiter)| <= |s| && s[|s| - |Footer(r, c, delimiter)|..] == Footer(r, c, delimiter)
  {
    (if c.header then Header(c, delimiter) else [])
    + RowsText(r.files, c, delimiter)
    + (if c.footer then Footer(r, c, delimiter) else [])
  }

  /** With a one-character delimiter that no cell contains, splitting a row's line on
      the delimiter gives its cells back. */
  lemma RowSplitsBack(f: File, c: Config, d: char)
    requires |HeaderCells(c)| >= 1
    requires forall i | 0 <= i < |RowCells(f, c)| :: d !in RowCells(f, c)[i]
    ensures var line := Row(f, c, [d]); SplitOn(line[..|line| - 1], d) == RowCells(f, c)
  {
    var line := Row(f, c, [d]);
    assert line[..|line| - 1] == Join(RowCells(f, c), [d]);
    SplitOnJoin(RowCells(f, c), d);
  }

  /** No cell holds a line break. */
  predicate SingleLine(r: ScanResults, c: Config, delimiter: string) {
    && '\n' !in delimiter
    && (forall k, i | 0 <= k < |r.files| && 0 <= i < |RowCells(r.files[k], c)| :: '\n' !in RowCells(r.files[k], c)[i])
    && (forall i | 0 <= i < |HeaderCells(c)| :: '\n' !in HeaderCells(c)[i])
    && (forall i | 0 <= i < |FooterCells(r, c)| :: '\n' !in FooterCells(r, c)[i])
  }

  lemma {:induction false} RowsTextLines(files: seq<File>, c: Config, delimiter: string)
    requires '\n' !in delimiter
    requires forall k, i | 0 <= k < |files| && 0 <= i < |RowCells(files[k], c)| :: '\n' !in RowCells(files[k], c)[i]
    ensures Count(RowsText(files, c, delimiter), '\n') == |files|
  {
    if files != [] {
      var cells := RowCells(files[0], c);
      JoinLacks(cells, delimiter);
      NoOccurrence(Join(cells, delimiter), '\n');
      CountConcat(Join(cells, delimiter), "\n", '\n');
      RowsTextLines(files[1..], c, delimiter);
      CountConcat(Row(files[0], c, delimiter), RowsText(files[1..], c, delimiter), '\n');
    }
  }

  lemma {:induction false} JoinLacks(parts: seq<string>, sep: string)
    requires '\n' !in sep
    requires forall k | 0 <= k < |parts| :: '\n' !in parts[k]
    ensures '\n' !in Join(parts, sep)
  {
    if |parts| > 1 {
      JoinLacks(parts[1..], sep);
    }
  }

  /** The output has one line break per record plus one for the header; the footer
      adds none. */
  lemma FormatLineCount(r: ScanResults, c: Config, delimiter: string)
    requires SingleLine(r, c, delimiter)
    ensures Count(Format(r, c, delimiter), '\n') == (if c.header then 1 else 0) + |r.files|
  {
    var head := if c.header then Header(c, delimiter) else [];
    var foot := if c.footer then Footer(r, c, delimiter) else [];
    JoinLacks(HeaderCells(c), delimiter);
    NoOccurrence(Join(HeaderCells(c), delimiter), '\n');
    CountConcat(Join(HeaderCells(c), delimiter), "\n", '\n');
    JoinLacks(FooterCells(r, c), delimiter);
    NoOccurrence(Join(FooterCells(r, c), delimiter), '\n');
    RowsTextLines(r.files, c, delimiter);
    CountConcat(head, RowsText(r.files, c, delimiter), '\n');
    CountConcat(head + RowsText(r.files, c, delimiter), foot, '\n');
  }
}
