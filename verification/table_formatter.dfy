/**
  The table formatter (src/lib/output/table.rs): one tab-separated line per record,
  laid out by the table engine with an optional header, footer and column
  alignments; the language cell and the proportional bar may be coloured.
 */
module TableFormatters {
  import opened Wrappers
  import opened Strings
  import opened Ansi
  import opened Languages
  import opened Files
  import opened Accumulators
  import opened Results
  import opened Outputs
  import TableColumns
  import Tables

  /** The column flags, in column order: language, files, lines, words, chars, bytes, graph. */
  function Flags(c: Config): seq<bool> {
    [c.language, c.path, c.lines, c.words, c.chars, c.bytes, c.visualization]
  }

  /** `build_header`: the titles of the selected columns. */
  function Header(c: Config): (h: seq<string>)
    ensures |h| == CountTrue(Flags(c), 7)
  {
    Select(["Language", FilesTitle(c), "Lines", "Words", "Chars", "Bytes", "Graph"], Flags(c))
  }

  /** The files column is titled "Files" when grouping by language and "Path" otherwise. */
  lemma HeaderFilesTitle(c: Config)
    requires c.path
    ensures CountTrue(Flags(c), 1) < |Header(c)|
    ensures Header(c)[CountTrue(Flags(c), 1)] == (if c.groupByLanguage then "Files" else "Path")
  {
    SelectPositions(["Language", FilesTitle(c), "Lines", "Words", "Chars", "Bytes", "Graph"], Flags(c));
  }

  // ---------------------------------------------------------------------------
  // colour
  // ---------------------------------------------------------------------------

  /** The parameters of a 24-bit foreground colour: "38;2;r;g;b". */
  function RgbParams(rgb: Rgb): string {
    "38;2;" + NatToString(rgb.r as nat) + ";" + NatToString(rgb.g as nat) + ";" + NatToString(rgb.b as nat)
  }

  /** `color`: the text in the language's colour, ESC "[38;2;r;g;bm" before and the
      reset ESC "[0m" after. Colouring settled text keeps its visible width and leaves
      it settled. */
  function Colorize(l: Language, text: string): (r: string)
    ensures Settled(text) ==> VisibleWidth(r) == VisibleWidth(text) && Settled(r)
  {
    var r := ControlSequence(RgbParams(Color(l)), 'm') + text + ControlSequence("0", 'm');
    if Settled(text) then
      RgbParamsAreParameters(Color(l));
      assert NoFinalByte("0");
      ColourWrapKeepsWidth(RgbParams(Color(l)), text, 'm', "0", 'm');
      r
    else r
  }

  lemma {:induction false} DigitsAreParameters(s: string)
    requires forall i | 0 <= i < |s| :: IsDigit(s[i])
    ensures NoFinalByte(s)
  {
  }

  lemma RgbParamsAreParameters(rgb: Rgb)
    ensures NoFinalByte(RgbParams(rgb))
  {
    var r, g, b := NatToString(rgb.r as nat), NatToString(rgb.g as nat), NatToString(rgb.b as nat);
    DigitsAreParameters(r);
    DigitsAreParameters(g);
    DigitsAreParameters(b);
    assert NoFinalByte("38;2;");
    assert NoFinalByte(";");
    var p := RgbParams(rgb);
    assert p == "38;2;" + r + ";" + g + ";" + b;
    forall i | 0 <= i < |p|
      ensures !IsFinalByte(p[i])
    {
      if i < 5 {
        assert p[i] == "38;2;"[i];
      } else if i < 5 + |r| {
        assert p[i] == r[i - 5];
      } else if i < 6 + |r| {
        assert p[i] == ';';
      } else if i < 6 + |r| + |g| {
        assert p[i] == g[i - 6 - |r|];
      } else if i < 7 + |r| + |g| {
        assert p[i] == ';';
      } else {
        assert p[i] == b[i - 7 - |r| - |g|];
      }
    }
  }

  // ---------------------------------------------------------------------------
  // the bar
  // ---------------------------------------------------------------------------

  /** The bar length: `metric / max * size` rounded half away from zero, computed
      exactly; 0 when `max` is 0 (the NaN of 0/0 casts to 0). */
  function BarLength(metric: nat, max: nat, size: nat): nat {
    if max == 0 then 0 else (2 * metric * size + max) / (2 * max)
  }

  /** When the bar can be drawn: `size - length` does not underflow. A non-zero metric
      over a zero maximum is infinite, which casts to `usize::MAX` and underflows, unless
      the size is 0: then infinity times 0 is NaN, which casts to 0 and draws "". */
  predicate BarFits(metric: nat, max: nat, size: nat) {
    (max == 0 && metric > 0 ==> size == 0) && BarLength(metric, max, size) <= size
  }

  /** The length is the nearest whole number to `metric * size / max`, halves rounded up. */
  lemma BarLengthRounds(metric: nat, max: nat, size: nat)
    requires max > 0
    ensures var l := BarLength(metric, max, size);
      2 * max * l <= 2 * metric * size + max < 2 * max * l + 2 * max
  {
  }

  /** A metric no larger than the maximum gives a bar that fits; no metric gives an
      empty bar and the maximum itself a full one. */
  lemma BarLengthBounds(metric: nat, max: nat, size: nat)
    requires metric <= max
    ensures BarFits(metric, max, size)
    ensures metric == 0 ==> BarLength(metric, max, size) == 0
    ensures metric == max > 0 ==> BarLength(metric, max, size) == size
  {
    if max > 0 {
      var n := 2 * metric * size + max;
      var d := 2 * max;
      Scale(metric, max, size);
      DivBelow(n, d, size + 1);
      if metric == max {
        DivAtLeast(n, d, size);
      }
      if metric == 0 {
        DivBelow(n, d, 1);
      }
    }
  }

  lemma Scale(metric: nat, max: nat, size: nat)
    requires metric <= max && max > 0
    ensures 2 * metric * size + max < 2 * max * (size + 1)
    ensures metric == max ==> 2 * max * size <= 2 * metric * size + max
  {
    assert metric * size <= max * size by {
      MulMonotone(metric, max, size);
    }
  }

  lemma DivBelow(n: nat, d: nat, q: nat)
    requires d > 0 && n < d * q
    ensures n / d < q
  {
  }

  lemma DivAtLeast(n: nat, d: nat, q: nat)
    requires d > 0 && d * q <= n
    ensures q <= n / d
  {
    var k := n / d;
    assert n == d * k + n % d;
    if k < q {
      MulMonotone(k + 1, q, d);
    }
  }

  lemma MulMonotone(a: nat, b: nat, k: nat)
    requires a <= b
    ensures a * k <= b * k
  {
  }

  /** The bar text: `fill` repeated for the length, `blank` for the rest of `size`. */
  function BarText(fill: string, blank: string, length: nat, size: nat): string
    requires length <= size
  {
    Repeat(fill, length) + Repeat(blank, size - length)
  }

  /** With one-character fill and blank the bar is always `size` characters, of which
      the first `length` are the fill. */
  lemma BarTextShape(f: char, b: char, length: nat, size: nat)
    requires length <= size
    ensures |BarText([f], [b], length, size)| == size
    ensures forall i | 0 <= i < size :: BarText([f], [b], length, size)[i] == (if i < length then f else b)
  {
    RepeatLength([f], length);
    RepeatLength([b], size - length);
    RepeatChar(f, length);
    RepeatChar(b, size - length);
  }

  lemma {:induction false} RepeatChar(c: char, n: nat)
    ensures |Repeat([c], n)| == n
    ensures forall i | 0 <= i < n :: Repeat([c], n)[i] == c
  {
    if n > 0 {
      RepeatChar(c, n - 1);
    }
  }

  /** A non-zero metric over a zero maximum with a zero graph size draws the empty bar:
      the NaN length casts to 0 and both repeats are empty. */
  lemma NanBarIsEmpty(fill: string, blank: string, metric: nat)
    requires metric > 0
    ensures BarFits(metric, 0, 0)
    ensures BarText(fill, blank, BarLength(metric, 0, 0), 0) == []
  {
    RepeatLength(fill, 0);
    RepeatLength(blank, 0);
  }

  /** Whether the record's bar can be drawn, if the graph is shown. */
  predicate Drawable(f: File, r: ScanResults, c: Config) {
    c.visualization ==> BarFits(Measure(f, c.graphBy), MaxMeasure(r.max, c.graphBy), c.graphSize)
  }

  /** `build_visualization`, coloured when colours are on. With a one-character fill
      and blank, coloured or not, the bar takes exactly `graph_size` cells. */
  function Bar(f: File, r: ScanResults, c: Config): (bar: string)
    requires BarFits(Measure(f, c.graphBy), MaxMeasure(r.max, c.graphBy), c.graphSize)
    ensures |c.graphFill| == 1 && |c.graphBlank| == 1 && c.graphFill[0] != ESC && c.graphBlank[0] != ESC
            ==> VisibleWidth(bar) == c.graphSize
  {
    var length := BarLength(Measure(f, c.graphBy), MaxMeasure(r.max, c.graphBy), c.graphSize);
    var text := BarText(c.graphFill, c.graphBlank, length, c.graphSize);
    var bar := if c.useColors then Colorize(f.language, text) else text;
    if |c.graphFill| == 1 && |c.graphBlank| == 1 && c.graphFill[0] != ESC && c.graphBlank[0] != ESC then
      assert c.graphFill == [c.graphFill[0]] && c.graphBlank == [c.graphBlank[0]];
      BarTextPlain(c.graphFill[0], c.graphBlank[0], length, c.graphSize);
      bar
    else bar
  }

  /** A bar of one-character fill and blank, neither an ESC, is `size` plain cells. */
  lemma BarTextPlain(f: char, b: char, length: nat, size: nat)
    requires length <= size && f != ESC && b != ESC
    ensures VisibleWidth(BarText([f], [b], length, size)) == size
    ensures Settled(BarText([f], [b], length, size))
  {
    var text := BarText([f], [b], length, size);
    BarTextShape(f, b, length, size);
    assert ESC !in text by {
      forall i | 0 <= i < |text|
        ensures text[i] != ESC
      {
      }
    }
    PlainWidth(text);
  }

  /** In consistent results the maximum bounds every record, so every bar fits. */
  lemma ConsistentDrawable(r: ScanResults, c: Config)
    requires Consistent(r)
    ensures forall k | 0 <= k < |r.files| :: Drawable(r.files[k], r, c)
  {
    TrackAllIsLargest(r.files);
    LargestIsMax(r.files, c.graphBy);
    assert MaxMeasure(r.max, c.graphBy) == Largest(r.files, c.graphBy);
    forall k | 0 <= k < |r.files|
      ensures Drawable(r.files[k], r, c)
    {
      BarLengthBounds(Measure(r.files[k], c.graphBy), MaxMeasure(r.max, c.graphBy), c.graphSize);
    }
  }

  // ---------------------------------------------------------------------------
  // rows, footer, alignments
  // ---------------------------------------------------------------------------

  /** The language cell: the display name, coloured when colours are on. */
  function LanguageCell(f: File, c: Config): string {
    if c.useColors then Colorize(f.language, Name(f.language)) else Name(f.language)
  }

  /** Every column's value for a record, selected or not. */
  function RowValues(f: File, r: ScanResults, c: Config): seq<string>
    requires Drawable(f, r, c)
  {
    [LanguageCell(f, c), FilesCell(f, c), NatToString(f.lines), NatToString(f.words),
     NatToString(f.chars), NatToString(f.bytes), if c.visualization then Bar(f, r, c) else []]
  }

  /** The cells `build_row` pushes, one `if` per column: the selected values, in order. */
  function RowCells(f: File, r: ScanResults, c: Config): (cells: seq<string>)
    requires Drawable(f, r, c)
    ensures cells == Select(RowValues(f, r, c), Flags(c))
  {
    var v := RowValues(f, r, c);
    var fl := Flags(c);
    var cells :=
      PushIf(PushIf(PushIf(PushIf(PushIf(PushIf(PushIf([],
        c.language, v[0]), c.path, v[1]), c.lines, v[2]), c.words, v[3]),
        c.chars, v[4]), c.bytes, v[5]), c.visualization, v[6]);
    SelectIsPushes(v, fl, 7);
    assert v[..7] == v;
    assert cells == Pushes(v, fl, 7) by {
      assert Pushes(v, fl, 1) == PushIf(Pushes(v, fl, 0), fl[0], v[0]);
      assert Pushes(v, fl, 2) == PushIf(Pushes(v, fl, 1), fl[1], v[1]);
      assert Pushes(v, fl, 3) == PushIf(Pushes(v, fl, 2), fl[2], v[2]);
      assert Pushes(v, fl, 4) == PushIf(Pushes(v, fl, 3), fl[3], v[3]);
      assert Pushes(v, fl, 5) == PushIf(Pushes(v, fl, 4), fl[4], v[4]);
      assert Pushes(v, fl, 6) == PushIf(Pushes(v, fl, 5), fl[5], v[5]);
      assert Pushes(v, fl, 7) == PushIf(Pushes(v, fl, 6), fl[6], v[6]);
    }
    cells
  }

  /** `build_row`: the cells joined by tabs, ended by a line break. */
  function Row(f: File, r: ScanResults, c: Config): (line: string)
    requires Drawable(f, r, c)
    ensures line != [] && line[|line| - 1] == '\n'
    ensures var cells := RowCells(f, r, c);
      |cells| >= 1 && (forall i | 0 <= i < |cells| :: '\t' !in cells[i])
      ==> SplitOn(line[..|line| - 1], '\t') == cells
  {
    var cells := RowCells(f, r, c);
    var line := Join(cells, "\t") + "\n";
    assert line[..|line| - 1] == Join(cells, ['\t']);
    if |cells| >= 1 && (forall i | 0 <= i < |cells| :: '\t' !in cells[i]) then
      SplitOnJoin(cells, '\t');
      line
    else line
  }

  /** `build_footer`: "Total" and the totals, selected by the first six flags only: no
      graph cell. */
  function Footer(r: ScanResults, c: Config): (ft: seq<string>)
    ensures |ft| == CountTrue(Flags(c), 6)
  {
    Select(["Total", NatToString(r.total.files), NatToString(r.total.lines), NatToString(r.total.words),
            NatToString(r.total.chars), NatToString(r.total.bytes)], Flags(c))
  }

  /** The footer has as many cells as the header, one fewer when the graph is shown. */
  lemma FooterShorterByGraph(r: ScanResults, c: Config)
    ensures |Footer(r, c)| + (if c.visualization then 1 else 0) == |Header(c)|
  {
  }

  function FilesAlignment(c: Config): Tables.Alignment {
    if c.groupByLanguage then Tables.Right else Tables.Left
  }

  /** `build_alignments`: numbers right-aligned, the files column right-aligned when it
      holds counts and left-aligned when it holds paths, the graph left-aligned. */
  function Alignments(c: Config): (a: seq<Tables.Alignment>)
    ensures |a| == |Header(c)|
  {
    Select([Tables.Right, FilesAlignment(c), Tables.Right, Tables.Right, Tables.Right, Tables.Right, Tables.Left], Flags(c))
  }

  // ---------------------------------------------------------------------------
  // format
  // ---------------------------------------------------------------------------

  predicate AllDrawable(files: seq<File>, r: ScanResults, c: Config) {
    forall k | 0 <= k < |files| :: Drawable(files[k], r, c)
  }

  /** The rows pushed one after another. */
  function RowsText(files: seq<File>, r: ScanResults, c: Config): string
    requires AllDrawable(files, r, c)
  {
    if files == [] then [] else Row(files[0], r, c) + RowsText(files[1..], r, c)
  }

  /** The table `format` builds and displays, or None where the Rust code panics: a
      header or footer longer than the parsed column count (`col_widths[i]` out of
      bounds), as with a header over no records at all. */
  function Layout(r: ScanResults, c: Config): (o: Option<Tables.Table>)
    requires AllDrawable(r.files, r, c)
    ensures o.Some? ==> Tables.Fits(o.value)
    ensures o.Some? ==> o.value.rows == Tables.Parse(RowsText(r.files, r, c), '\t')
    ensures o.Some? ==> o.value.header == (if c.header then Header(c) else [])
    ensures o.Some? ==> o.value.footer == (if c.footer then Footer(r, c) else [])
    ensures o.Some? && c.alignment ==> o.value.alignments == Alignments(c)
    ensures o.Some? && !c.alignment ==> forall i | 0 <= i < |o.value.alignments| :: o.value.alignments[i] == Tables.Left
  {
    var t0 := Tables.From(RowsText(r.files, r, c), '\t');
    var h := Header(c);
    if c.header && |h| > |t0.colWidths| then None
    else
      var t1 := if c.header then Tables.WithHeader(t0, h) else t0;
      var ft := Footer(r, c);
      if c.footer && |ft| > |t1.colWidths| then None
      else
        var t2 := if c.footer then Tables.WithFooter(t1, ft) else t1;
        Some(if c.alignment then Tables.WithAlignments(t2, Alignments(c)) else t2)
  }

  lemma FitsFormattable(t: Tables.Table)
    requires Tables.Fits(t)
    ensures Tables.Formattable(t)
  {
  }

  /** `format`: the laid-out table displayed, None where the Rust code panics. */
  function Format(r: ScanResults, c: Config): (o: Option<string>)
    requires AllDrawable(r.files, r, c)
    ensures o.Some? <==> Layout(r, c).Some?
  {
    match Layout(r, c)
    case None => None
    case Some(t) =>
      FitsFormattable(t);
      Some(Tables.Display(t))
  }

  /** The cell grid of the records. */
  function Grid(files: seq<File>, r: ScanResults, c: Config): (g: seq<seq<string>>)
    requires AllDrawable(files, r, c)
    ensures |g| == |files|
    ensures forall k | 0 <= k < |g| :: g[k] == RowCells(files[k], r, c)
  {
    seq(|files|, k requires 0 <= k < |files| => RowCells(files[k], r, c))
  }

  /** The text the rows build is the tab-delimited rendering of the cell grid. */
  lemma {:induction false} RowsTextRenders(files: seq<File>, r: ScanResults, c: Config)
    requires AllDrawable(files, r, c)
    ensures RowsText(files, r, c) == Tables.Render(Grid(files, r, c), '\t')
  {
    if files != [] {
      RowsTextRenders(files[1..], r, c);
      var lines := seq(|files|, k requires 0 <= k < |files| => Join(Grid(files, r, c)[k], ['\t']));
      var rest := seq(|files| - 1, k requires 0 <= k < |files| - 1 => Join(Grid(files[1..], r, c)[k], ['\t']));
      assert lines[1..] == rest;
      assert Tables.Render(Grid(files, r, c), '\t') == Terminated(lines);
      assert Tables.Render(Grid(files[1..], r, c), '\t') == Terminated(rest);
    }
  }

  /** Cells the table parser reads back unchanged. */
  predicate CleanCells(files: seq<File>, r: ScanResults, c: Config)
    requires AllDrawable(files, r, c)
  {
    forall k, i | 0 <= k < |files| && 0 <= i < |RowCells(files[k], r, c)| ::
      Tables.Clean(RowCells(files[k], r, c)[i], '\t')
  }

  /** With at least one column selected and cells free of tabs, line breaks and
      surrounding White_Space, the table's rows are exactly the records' cells. */
  lemma LayoutRows(r: ScanResults, c: Config)
    requires AllDrawable(r.files, r, c) && CleanCells(r.files, r, c)
    requires |Header(c)| >= 1
    ensures Tables.From(RowsText(r.files, r, c), '\t').rows == Grid(r.files, r, c)
  {
    RowsTextRenders(r.files, r, c);
    Tables.ParseRender(Grid(r.files, r, c), '\t');
  }

  /** Under the same conditions and with at least one record, `format` does not panic:
      every row has as many cells as the header, and the footer is no longer. */
  lemma FormatDefined(r: ScanResults, c: Config)
    requires AllDrawable(r.files, r, c) && CleanCells(r.files, r, c)
    requires |Header(c)| >= 1 && r.files != []
    ensures Layout(r, c).Some?
  {
    LayoutRows(r, c);
    var g := Grid(r.files, r, c);
    TableColumns.MaxLenIsMax(g);
    FooterShorterByGraph(r, c);
  }

  /** With no records and a non-empty header the Rust code indexes past the (empty)
      column widths: `format` panics. */
  lemma EmptyResultsPanic(r: ScanResults, c: Config)
    requires r.files == [] && c.header && Header(c) != []
    ensures Layout(r, c) == None
  {
    assert RowsText(r.files, r, c) == [];
    assert Tables.Parse([], '\t') == [];
  }
}
