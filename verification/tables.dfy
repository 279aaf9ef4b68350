/**
  The text-table layout engine (src/lib/helpers/table/mod.rs): parsing delimited text
  into a grid, grow-only column widths measured in visible cells, cell padding per
  alignment, the separator rule and the rendered table.

  The `Table` record also carries the `Columns` width cache of
  src/lib/helpers/table/columns.rs, the field the builder marks for recalculation.
 */
module Tables {
  import opened Wrappers
  import opened Strings
  import opened Ansi
  import opened TableColumns

  datatype Alignment = Left | Center | Right

  datatype Separator = Separator(horizontal: string, vertical: string)

  /** `Separator::default()`: four spaces between cells, '-' for rules. */
  const DefaultSeparator := Separator("    ", "-")

  datatype Table = Table(
    header: seq<string>,
    rows: seq<seq<string>>,
    footer: seq<string>,
    separator: Separator,
    colWidths: seq<nat>,
    alignments: seq<Alignment>,
    columns: Columns)

  /** `Table::default()` */
  const EmptyTable := Table([], [], [], DefaultSeparator, [], [], TableColumns.Default)

  /** Header, rows and footer in display order, an empty header or footer left out. */
  function Sections(t: Table): (s: seq<seq<string>>)
    ensures |s| == (if t.header != [] then 1 else 0) + |t.rows| + (if t.footer != [] then 1 else 0)
  {
    (if t.header != [] then [t.header] else []) + t.rows + (if t.footer != [] then [t.footer] else [])
  }

  // ---------------------------------------------------------------------------
  // separators
  // ---------------------------------------------------------------------------

  /** `with_horizontal_separator`: replaces the text between cells and nothing else. */
  function WithHorizontalSeparator(t: Table, s: string): (r: Table)
    ensures r.separator.horizontal == s && r.separator.vertical == t.separator.vertical
    ensures r.(separator := t.separator) == t
  {
    t.(separator := t.separator.(horizontal := s))
  }

  /** `with_vertical_separator`: replaces the rule text and nothing else. */
  function WithVerticalSeparator(t: Table, s: string): (r: Table)
    ensures r.separator.vertical == s && r.separator.horizontal == t.separator.horizontal
    ensures r.(separator := t.separator) == t
  {
    t.(separator := t.separator.(vertical := s))
  }

  // ---------------------------------------------------------------------------
  // parsing
  // ---------------------------------------------------------------------------

  /** Every cell trimmed. */
  function TrimAll(cells: seq<string>): (r: seq<string>)
    ensures |r| == |cells|
    ensures forall i | 0 <= i < |r| :: r[i] == Trim(cells[i])
  {
    if cells == [] then [] else [Trim(cells[0])] + TrimAll(cells[1..])
  }

  /** One line split on the delimiter, each piece trimmed. */
  function ParseRow(line: string, delimiter: char): seq<string> {
    TrimAll(SplitOn(line, delimiter))
  }

  /** The grid of `input`: one row per line `lines()` yields. */
  function Parse(input: string, delimiter: char): (rows: seq<seq<string>>)
    ensures |rows| == |SplitLines(input)|
    ensures forall k | 0 <= k < |rows| :: rows[k] == ParseRow(SplitLines(input)[k], delimiter)
    ensures forall k | 0 <= k < |rows| :: |rows[k]| >= 1
  {
    var lines := SplitLines(input);
    seq(|lines|, k requires 0 <= k < |lines| => ParseRow(lines[k], delimiter))
  }

  /** A cell the parser can give back unchanged: no delimiter, no line break, and no
      White_Space at either end. */
  predicate Clean(cell: string, delimiter: char) {
    && delimiter !in cell
    && '\n' !in cell
    && (cell != [] ==> !IsWhitespace(cell[0]) && !IsWhitespace(cell[|cell| - 1]))
  }

  /** Delimited text: each row joined by the delimiter, each line ended by '\n'. */
  function Render(rows: seq<seq<string>>, delimiter: char): string {
    Terminated(seq(|rows|, k requires 0 <= k < |rows| => Join(rows[k], [delimiter])))
  }

  lemma {:induction false} JoinSnoc(parts: seq<string>, sep: string)
    requires |parts| >= 2
    ensures Join(parts, sep) == Join(parts[..|parts| - 1], sep) + sep + parts[|parts| - 1]
  {
    if |parts| > 2 {
      JoinSnoc(parts[1..], sep);
      assert parts[1..][..|parts| - 2] == parts[..|parts| - 1][1..];
    }
  }

  /** Every character of a join comes from a part or from the separator. */
  lemma {:induction false} JoinChars(parts: seq<string>, sep: string, c: char)
    requires c !in sep
    requires forall k | 0 <= k < |parts| :: c !in parts[k]
    ensures c !in Join(parts, sep)
  {
    if |parts| > 1 {
      JoinChars(parts[1..], sep, c);
    }
  }

  /** A joined row whose cells are clean does not end in '\r'. */
  lemma {:induction false} JoinEnd(parts: seq<string>, d: char)
    requires |parts| >= 1 && d != '\r'
    requires forall k | 0 <= k < |parts| :: Clean(parts[k], d)
    ensures var s := Join(parts, [d]); s == [] || s[|s| - 1] != '\r'
  {
    var last := parts[|parts| - 1];
    if |parts| >= 2 {
      JoinSnoc(parts, [d]);
    }
    assert IsWhitespace('\r');
  }

  /** A clean row joined by the delimiter is one valid line: no '\n', no trailing '\r'. */
  lemma JoinedRowIsLine(row: seq<string>, delimiter: char)
    requires delimiter != '\n' && delimiter != '\r'
    requires |row| >= 1
    requires forall i | 0 <= i < |row| :: Clean(row[i], delimiter)
    ensures '\n' !in Join(row, [delimiter])
    ensures var s := Join(row, [delimiter]); s == [] || s[|s| - 1] != '\r'
  {
    JoinChars(row, [delimiter], '\n');
    JoinEnd(row, delimiter);
  }

  /** Parsing a clean row's joined line gives the row. */
  lemma {:induction false} ParseJoinedRow(row: seq<string>, delimiter: char)
    requires |row| >= 1
    requires forall i | 0 <= i < |row| :: Clean(row[i], delimiter)
    ensures ParseRow(Join(row, [delimiter]), delimiter) == row
  {
    forall i | 0 <= i < |row|
      ensures delimiter !in row[i]
    {
      assert Clean(row[i], delimiter);
    }
    SplitOnJoin(row, delimiter);
    TrimAllUnchanged(row, delimiter);
  }

  lemma {:induction false} TrimAllUnchanged(cells: seq<string>, delimiter: char)
    requires forall i | 0 <= i < |cells| :: Clean(cells[i], delimiter)
    ensures TrimAll(cells) == cells
  {
    if cells != [] {
      assert Clean(cells[0], delimiter);
      TrimUnchanged(cells[0]);
      TrimAllUnchanged(cells[1..], delimiter);
    }
  }

  /** Rendering clean rows and parsing the text back gives the rows. */
  lemma ParseRender(rows: seq<seq<string>>, delimiter: char)
    requires delimiter != '\n' && delimiter != '\r'
    requires forall k | 0 <= k < |rows| :: |rows[k]| >= 1
    requires forall k, i | 0 <= k < |rows| && 0 <= i < |rows[k]| :: Clean(rows[k][i], delimiter)
    ensures Parse(Render(rows, delimiter), delimiter) == rows
  {
    var lines := seq(|rows|, k requires 0 <= k < |rows| => Join(rows[k], [delimiter]));
    forall k | 0 <= k < |lines|
      ensures '\n' !in lines[k]
      ensures lines[k] == [] || lines[k][|lines[k]| - 1] != '\r'
    {
      JoinedRowIsLine(rows[k], delimiter);
    }
    SplitLinesTerminated(lines);
    assert SplitLines(Render(rows, delimiter)) == lines;
    forall k | 0 <= k < |rows|
      ensures ParseRow(lines[k], delimiter) == rows[k]
    {
      ParseJoinedRow(rows[k], delimiter);
    }
  }

  // ---------------------------------------------------------------------------
  // column widths
  // ---------------------------------------------------------------------------

  /** `update_col_widths`: each column the row reaches grows to its cell's visible
      width when that is larger. The row must not be longer than the widths
      (`col_widths[i]` panics otherwise). */
  function UpdateColWidths(widths: seq<nat>, row: seq<string>): (r: seq<nat>)
    requires |row| <= |widths|
    ensures |r| == |widths|
    ensures forall i | 0 <= i < |r| :: r[i] >= widths[i] && r[i] >= CellLen(row, i, VisibleWidth)
    ensures forall i | 0 <= i < |r| :: r[i] == widths[i] || r[i] == CellLen(row, i, VisibleWidth)
  {
    seq(|widths|, i requires 0 <= i < |widths| => Larger(widths[i], CellLen(row, i, VisibleWidth)))
  }

  /** The `for row in &rows` loop of `Table::from`: every row in turn updates the widths. */
  function Widen(widths: seq<nat>, rows: seq<seq<string>>): (r: seq<nat>)
    requires forall k | 0 <= k < |rows| :: |rows[k]| <= |widths|
    ensures |r| == |widths|
  {
    if rows == [] then widths
    else UpdateColWidths(Widen(widths, rows[..|rows| - 1]), rows[|rows| - 1])
  }

  lemma {:induction false} WidenIsColumnMax(widths: seq<nat>, rows: seq<seq<string>>)
    requires forall k | 0 <= k < |rows| :: |rows[k]| <= |widths|
    ensures forall i | 0 <= i < |widths| ::
      Widen(widths, rows)[i] == Larger(widths[i], ColumnMax(rows, i, VisibleWidth))
  {
    if rows != [] {
      WidenIsColumnMax(widths, rows[..|rows| - 1]);
    }
  }

  /** A row that fits the widths: no longer than they are, and no cell wider than its column. */
  predicate RowFits(widths: seq<nat>, row: seq<string>) {
    |row| <= |widths| && forall i | 0 <= i < |row| :: VisibleWidth(row[i]) <= widths[i]
  }

  /** The layout invariant: header, every row and footer fit the column widths. */
  predicate Fits(t: Table) {
    && RowFits(t.colWidths, t.header)
    && RowFits(t.colWidths, t.footer)
    && forall k | 0 <= k < |t.rows| :: RowFits(t.colWidths, t.rows[k])
  }

  /** `Table::from`: the parsed grid as rows, no header or footer, one Left alignment
      and one width per column of the longest row, each width the largest visible width
      in its column, default separators. */
  function From(input: string, delimiter: char): (r: Table)
    ensures r.rows == Parse(input, delimiter)
    ensures r.header == [] && r.footer == []
    ensures r.separator == DefaultSeparator
    ensures |r.colWidths| == |r.alignments| == MaxLen(r.rows)
    ensures forall i | 0 <= i < |r.alignments| :: r.alignments[i] == Left
    ensures forall i | 0 <= i < |r.colWidths| :: r.colWidths[i] == ColumnMax(r.rows, i, VisibleWidth)
    ensures Fits(r)
  {
    var rows := Parse(input, delimiter);
    var n := MaxLen(rows);
    MaxLenIsMax(rows);
    var widths := Widen(seq(n, _ => 0), rows);
    WidenIsColumnMax(seq(n, _ => 0), rows);
    FromFits(rows, widths);
    Table([], rows, [], DefaultSeparator, widths, seq(n, _ => Left), TableColumns.Default)
  }

  lemma FromFits(rows: seq<seq<string>>, widths: seq<nat>)
    requires forall k | 0 <= k < |rows| :: |rows[k]| <= |widths|
    requires forall i | 0 <= i < |widths| :: widths[i] == ColumnMax(rows, i, VisibleWidth)
    ensures forall k | 0 <= k < |rows| :: RowFits(widths, rows[k])
  {
    forall k, i | 0 <= k < |rows| && 0 <= i < |rows[k]|
      ensures VisibleWidth(rows[k][i]) <= widths[i]
    {
      ColumnMaxIsMax(rows, i, VisibleWidth);
      assert CellLen(rows[k], i, VisibleWidth) <= widths[i];
    }
  }

  /** A row that already fits leaves the widths as they are. */
  lemma UpdateFitting(widths: seq<nat>, row: seq<string>)
    requires RowFits(widths, row)
    ensures UpdateColWidths(widths, row) == widths
  {
  }

  /** After the update, the row fits and so does everything that fitted before. */
  lemma UpdateKeepsFit(widths: seq<nat>, row: seq<string>, other: seq<string>)
    requires |row| <= |widths|
    ensures RowFits(UpdateColWidths(widths, row), row)
    ensures RowFits(widths, other) ==> RowFits(UpdateColWidths(widths, row), other)
  {
  }

  /** `with_header`: sets the header and grows the widths to fit it; the layout
      invariant is kept and a header that already fits changes no width. */
  function WithHeader(t: Table, header: seq<string>): (r: Table)
    requires |header| <= |t.colWidths|
    ensures r.header == header
    ensures r.(header := t.header, colWidths := t.colWidths) == t
    ensures |r.colWidths| == |t.colWidths|
    ensures forall i | 0 <= i < |r.colWidths| ::
      r.colWidths[i] == Larger(t.colWidths[i], CellLen(header, i, VisibleWidth))
    ensures RowFits(r.colWidths, header)
    ensures Fits(t) ==> Fits(r)
    ensures RowFits(t.colWidths, header) ==> r.colWidths == t.colWidths
  {
    var ws := UpdateColWidths(t.colWidths, header);
    UpdateKeepsFit(t.colWidths, header, t.footer);
    t.(header := header, colWidths := ws)
  }

  /** `with_footer`: as `with_header`, for the footer. */
  function WithFooter(t: Table, footer: seq<string>): (r: Table)
    requires |footer| <= |t.colWidths|
    ensures r.footer == footer
    ensures r.(footer := t.footer, colWidths := t.colWidths) == t
    ensures |r.colWidths| == |t.colWidths|
    ensures forall i | 0 <= i < |r.colWidths| ::
      r.colWidths[i] == Larger(t.colWidths[i], CellLen(footer, i, VisibleWidth))
    ensures RowFits(r.colWidths, footer)
    ensures Fits(t) ==> Fits(r)
    ensures RowFits(t.colWidths, footer) ==> r.colWidths == t.colWidths
  {
    var ws := UpdateColWidths(t.colWidths, footer);
    UpdateKeepsFit(t.colWidths, footer, t.header);
    t.(footer := footer, colWidths := ws)
  }

  /** `add_row`: appends the row and grows the widths to fit it. */
  function AddRow(t: Table, row: seq<string>): (r: Table)
    requires |row| <= |t.colWidths|
    ensures r.rows == t.rows + [row]
    ensures r.(rows := t.rows, colWidths := t.colWidths) == t
    ensures |r.colWidths| == |t.colWidths|
    ensures forall i | 0 <= i < |r.colWidths| ::
      r.colWidths[i] == Larger(t.colWidths[i], CellLen(row, i, VisibleWidth))
    ensures RowFits(r.colWidths, row)
    ensures Fits(t) ==> Fits(r)
    ensures RowFits(t.colWidths, row) ==> r.colWidths == t.colWidths
  {
    var ws := UpdateColWidths(t.colWidths, row);
    UpdateKeepsFit(t.colWidths, row, t.header);
    UpdateKeepsFit(t.colWidths, row, t.footer);
    t.(rows := t.rows + [row], colWidths := ws)
  }

  /** `with_alignments`: replaces the alignments and nothing else. */
  function WithAlignments(t: Table, alignments: seq<Alignment>): (r: Table)
    ensures r.alignments == alignments
    ensures r.(alignments := t.alignments) == t
  {
    t.(alignments := alignments)
  }

  // ---------------------------------------------------------------------------
  // cells
  // ---------------------------------------------------------------------------

  /** Spaces before the text for a padding of `pad`: Rust's `<` puts none, `^` half
      (rounded down), `>` all of it. */
  function Lead(pad: nat, alignment: Option<Alignment>): (l: nat)
    ensures l <= pad
  {
    match alignment
    case Some(Center) => pad / 2
    case Some(Right) => pad
    case _ => 0
  }

  /** Rust's `format!("{:<w$}")`, `{:^w$}` and `{:>w$}` with `None` as `<`: the text
      padded with spaces up to `w` characters, never cut. */
  function Pad(text: string, w: nat, alignment: Option<Alignment>): (r: string)
    ensures |r| == Larger(|text|, w)
    ensures var l := Lead(|r| - |text|, alignment);
      && r[l..l + |text|] == text
      && (forall i | 0 <= i < l :: r[i] == ' ')
      && (forall i | l + |text| <= i < |r| :: r[i] == ' ')
  {
    var pad := if |text| < w then w - |text| else 0;
    var l := Lead(pad, alignment);
    var r := Spaces(l) + text + Spaces(pad - l);
    assert r[l..l + |text|] == text;
    r
  }

  /** `format_cell`'s target: when the text is narrower than the column, its byte
      length plus the missing cells (so that escape bytes are not counted as padding);
      otherwise the column width. */
  function Target(text: string, width: nat): nat {
    var vw := VisibleWidth(text);
    if vw < width then ByteLen(text) + (width - vw) else width
  }

  /** `format_cell`: the text is never cut, and sits unchanged at the offset its
      alignment gives it. */
  function FormatCell(text: string, width: nat, alignment: Option<Alignment>): (r: string)
    ensures |r| == Larger(|text|, Target(text, width))
    ensures var l := Lead(|r| - |text|, alignment); r[l..l + |text|] == text
  {
    Pad(text, Target(text, width), alignment)
  }

  lemma {:induction false} SpacesArePlain(n: nat)
    ensures ESC !in Spaces(n) && '\n' !in Spaces(n)
    ensures VisibleWidth(Spaces(n)) == n && Settled(Spaces(n))
    ensures Visible(Spaces(n)) == []
  {
    PlainWidth(Spaces(n));
    if n > 0 {
      SpacesArePlain(n - 1);
      assert Spaces(n) == [' '] + Spaces(n - 1);
      assert IsWhitespace(' ');
    }
  }

  /** The padded text is the text with `left` spaces before it and `right` after it. */
  lemma PadShape(text: string, w: nat, alignment: Option<Alignment>) returns (left: nat, right: nat)
    ensures Pad(text, w, alignment) == Spaces(left) + text + Spaces(right)
  {
    var r := Pad(text, w, alignment);
    left := Lead(|r| - |text|, alignment);
    right := |r| - |text| - left;
    assert r == r[..left] + r[left..left + |text|] + r[left + |text|..];
    assert r[..left] == Spaces(left);
    assert r[left + |text|..] == Spaces(right);
  }

  /** On ASCII text with no open escape sequence, a formatted cell is exactly as wide as
      the column, or as the text when the text is wider; it stays settled. */
  lemma FormatCellWidth(text: string, width: nat, alignment: Option<Alignment>)
    requires IsAscii(text) && Settled(text)
    ensures VisibleWidth(FormatCell(text, width, alignment)) == Larger(width, VisibleWidth(text))
    ensures Settled(FormatCell(text, width, alignment))
  {
    var r := FormatCell(text, width, alignment);
    var left, right := PadShape(text, Target(text, width), alignment);
    ByteLenBounds(text);
    WidthAtMostLength(Normal, text);
    SpacesArePlain(left);
    SpacesArePlain(right);
    SettledConcat(Spaces(left), text);
    SettledConcat(Spaces(left) + text, Spaces(right));
  }

  /** Padding adds nothing but spaces: the non-White_Space text of a cell is unchanged. */
  lemma FormatCellKeepsText(text: string, width: nat, alignment: Option<Alignment>)
    ensures Visible(FormatCell(text, width, alignment)) == Visible(text)
  {
    var left, right := PadShape(text, Target(text, width), alignment);
    SpacesArePlain(left);
    SpacesArePlain(right);
    VisibleConcat(Spaces(left), text);
    VisibleConcat(Spaces(left) + text, Spaces(right));
  }

  /** Mixing byte length with character padding over-pads non-ASCII text: one
      two-byte character in a three-cell column comes out four cells wide. */
  lemma FormatCellMultibyte(c: char)
    requires Utf8Width(c) == 2 && c != ESC
    ensures VisibleWidth(FormatCell([c], 3, None)) == 4
  {
    PlainWidth([c]);
    assert ByteLen([c]) == 2;
    var r := FormatCell([c], 3, None);
    assert r == [c] + Spaces(3);
    assert ESC !in r;
    PlainWidth(r);
  }

  // ---------------------------------------------------------------------------
  // rows and rules
  // ---------------------------------------------------------------------------

  /** `alignments.get(i)` */
  function AlignmentAt(alignments: seq<Alignment>, i: nat): Option<Alignment> {
    if i < |alignments| then Some(alignments[i]) else None
  }

  /** Cell `i` of a row as `format_row` pushes it: padded to its column, then the
      horizontal separator. */
  function Cell(t: Table, row: seq<string>, i: nat): string
    requires i < |row| <= |t.colWidths|
  {
    FormatCell(row[i], t.colWidths[i], AlignmentAt(t.alignments, i)) + t.separator.horizontal
  }

  /** The cells from `i` on. */
  function CellsFrom(t: Table, row: seq<string>, i: nat): string
    requires i <= |row| <= |t.colWidths|
    decreases |row| - i
  {
    if i == |row| then [] else Cell(t, row, i) + CellsFrom(t, row, i + 1)
  }

  /** `format_row`: every cell with its separator, then a line break. */
  function FormatRow(t: Table, row: seq<string>): (r: string)
    requires |row| <= |t.colWidths|
    ensures r != [] && r[|r| - 1] == '\n'
    ensures row == [] ==> r == "\n"
  {
    CellsFrom(t, row, 0) + "\n"
  }

  /** Sum of `ws[i..j]`. */
  function SumRange(ws: seq<nat>, i: nat, j: nat): nat
    requires i <= j <= |ws|
    decreases j - i
  {
    if i == j then 0 else ws[i] + SumRange(ws, i + 1, j)
  }

  /** Cells whose text is plain ASCII and fits their column. */
  predicate PlainRow(t: Table, row: seq<string>) {
    && RowFits(t.colWidths, row)
    && forall i | 0 <= i < |row| :: IsAscii(row[i]) && Settled(row[i])
  }

  lemma CellWidth(t: Table, row: seq<string>, i: nat)
    requires i < |row| && PlainRow(t, row) && ESC !in t.separator.horizontal
    ensures VisibleWidth(Cell(t, row, i)) == t.colWidths[i] + |t.separator.horizontal|
    ensures Settled(Cell(t, row, i))
  {
    var f := FormatCell(row[i], t.colWidths[i], AlignmentAt(t.alignments, i));
    FormatCellWidth(row[i], t.colWidths[i], AlignmentAt(t.alignments, i));
    PlainWidth(t.separator.horizontal);
    SettledConcat(f, t.separator.horizontal);
  }

  lemma {:induction false} CellsFromWidth(t: Table, row: seq<string>, i: nat)
    requires i <= |row| && PlainRow(t, row) && ESC !in t.separator.horizontal
    ensures VisibleWidth(CellsFrom(t, row, i))
         == SumRange(t.colWidths, i, |row|) + (|row| - i) * |t.separator.horizontal|
    ensures Settled(CellsFrom(t, row, i))
    decreases |row| - i
  {
    if i < |row| {
      var cell, rest := Cell(t, row, i), CellsFrom(t, row, i + 1);
      assert CellsFrom(t, row, i) == cell + rest;
      CellWidth(t, row, i);
      CellsFromWidth(t, row, i + 1);
      SettledConcat(cell, rest);
      MulStep(|row| - (i + 1), |t.separator.horizontal|);
    }
  }

  lemma MulStep(a: nat, h: nat)
    ensures (a + 1) * h == h + a * h
  {
  }

  /** A row of plain cells that fit is as wide as its columns plus one separator per
      cell: rows with as many cells as there are columns all line up. */
  lemma FormatRowWidth(t: Table, row: seq<string>)
    requires PlainRow(t, row) && ESC !in t.separator.horizontal
    ensures VisibleWidth(FormatRow(t, row))
         == SumRange(t.colWidths, 0, |row|) + |row| * |t.separator.horizontal| + 1
  {
    CellsFromWidth(t, row, 0);
    SettledConcat(CellsFrom(t, row, 0), "\n");
    PlainWidth("\n");
  }

  lemma {:induction false} CellsFromLines(t: Table, row: seq<string>, i: nat)
    requires i <= |row| <= |t.colWidths|
    requires forall j | 0 <= j < |row| :: '\n' !in row[j]
    requires '\n' !in t.separator.horizontal
    ensures '\n' !in CellsFrom(t, row, i)
    decreases |row| - i
  {
    if i < |row| {
      var left, right := PadShape(row[i], Target(row[i], t.colWidths[i]), AlignmentAt(t.alignments, i));
      SpacesArePlain(left);
      SpacesArePlain(right);
      CellsFromLines(t, row, i + 1);
    }
  }

  /** A formatted row is one line: a single '\n', at the end. */
  lemma FormatRowIsOneLine(t: Table, row: seq<string>)
    requires |row| <= |t.colWidths|
    requires forall j | 0 <= j < |row| :: '\n' !in row[j]
    requires '\n' !in t.separator.horizontal
    ensures Count(FormatRow(t, row), '\n') == 1
    ensures FormatRow(t, row)[|FormatRow(t, row)| - 1] == '\n'
  {
    CellsFromLines(t, row, 0);
    NoOccurrence(CellsFrom(t, row, 0), '\n');
    CountConcat(CellsFrom(t, row, 0), "\n", '\n');
  }

  /** The rule segments: the vertical text repeated once per cell of each column. */
  function Segments(v: string, ws: seq<nat>): (r: seq<string>)
    ensures |r| == |ws|
  {
    if ws == [] then [] else [Repeat(v, ws[0])] + Segments(v, ws[1..])
  }

  /** `format_vertical_separator`: the segments joined by the vertical text repeated as
      many times as the horizontal separator has bytes, then one more vertical and a
      line break. */
  function Rule(t: Table): (r: string)
    ensures r != [] && r[|r| - 1] == '\n'
    ensures t.colWidths == [] ==> r == t.separator.vertical + "\n"
  {
    var v := t.separator.vertical;
    Join(Segments(v, t.colWidths), Repeat(v, ByteLen(t.separator.horizontal))) + v + "\n"
  }

  lemma {:induction false} RepeatLacks(s: string, n: nat, c: char)
    requires c !in s
    ensures c !in Repeat(s, n)
  {
    if n > 0 {
      RepeatLacks(s, n - 1, c);
    }
  }

  lemma {:induction false} SegmentsLength(v: string, ws: seq<nat>, sep: string)
    requires ws != []
    ensures |Join(Segments(v, ws), sep)| == |v| * SumRange(ws, 0, |ws|) + (|ws| - 1) * |sep|
  {
    RepeatLength(v, ws[0]);
    SumRangeTail(ws);
    if |ws| > 1 {
      var tail := ws[1..];
      SegmentsLength(v, tail, sep);
      var rest := Join(Segments(v, tail), sep);
      assert Segments(v, ws)[1..] == Segments(v, tail);
      assert Join(Segments(v, ws), sep) == Repeat(v, ws[0]) + sep + rest;
      MulStep(|tail| - 1, |sep|);
      Distribute(|v|, ws[0], SumRange(tail, 0, |tail|));
    }
  }

  lemma Distribute(a: nat, x: nat, y: nat)
    ensures a * (x + y) == a * x + a * y
  {
  }

  lemma {:induction false} SumRangeShift(ws: seq<nat>, i: nat)
    requires 1 <= i <= |ws|
    ensures SumRange(ws, i, |ws|) == SumRange(ws[1..], i - 1, |ws| - 1)
    decreases |ws| - i
  {
    if i < |ws| {
      SumRangeShift(ws, i + 1);
    }
  }

  lemma SumRangeTail(ws: seq<nat>)
    requires ws != []
    ensures SumRange(ws, 0, |ws|) == ws[0] + SumRange(ws[1..], 0, |ws| - 1)
  {
    SumRangeShift(ws, 1);
  }

  /** With a single non-escape character as the vertical separator, the rule is a plain
      line: as wide as the columns, plus that character repeated once per byte of the
      horizontal separator between columns, plus the trailing character. */
  lemma RuleWidth(t: Table, c: char)
    requires t.separator.vertical == [c] && c != ESC && c != '\n'
    requires t.colWidths != []
    ensures '\n' !in Rule(t)[..|Rule(t)| - 1] && Rule(t)[|Rule(t)| - 1] == '\n'
    ensures VisibleWidth(Rule(t))
         == SumRange(t.colWidths, 0, |t.colWidths|) + (|t.colWidths| - 1) * ByteLen(t.separator.horizontal) + 2
  {
    var v := [c];
    var sep := Repeat(v, ByteLen(t.separator.horizontal));
    var body := Join(Segments(v, t.colWidths), sep);
    RepeatLength(v, ByteLen(t.separator.horizontal));
    SegmentsLength(v, t.colWidths, sep);
    forall x | x == ESC || x == '\n'
      ensures x !in body
    {
      RepeatLacks(v, ByteLen(t.separator.horizontal), x);
      forall k | 0 <= k < |t.colWidths|
        ensures x !in Segments(v, t.colWidths)[k]
      {
        SegmentRepeats(v, t.colWidths, k);
        RepeatLacks(v, t.colWidths[k], x);
      }
      JoinChars(Segments(v, t.colWidths), sep, x);
    }
    assert Rule(t) == body + v + "\n";
    assert Rule(t)[..|Rule(t)| - 1] == body + v;
    PlainWidth(body + v);
    SettledConcat(body + v, "\n");
    PlainWidth("\n");
  }

  lemma {:induction false} SegmentRepeats(v: string, ws: seq<nat>, k: nat)
    requires k < |ws|
    ensures Segments(v, ws)[k] == Repeat(v, ws[k])
  {
    if k > 0 {
      SegmentRepeats(v, ws[1..], k - 1);
    }
  }

  /** Without columns the rule is the vertical text and a line break. */
  lemma RuleWithoutColumns(t: Table)
    requires t.colWidths == []
    ensures Rule(t) == t.separator.vertical + "\n"
  {
  }

  // ---------------------------------------------------------------------------
  // display
  // ---------------------------------------------------------------------------

  /** Every row of the table is no longer than the widths, so it can be formatted. */
  predicate Formattable(t: Table) {
    && |t.header| <= |t.colWidths|
    && |t.footer| <= |t.colWidths|
    && forall k | 0 <= k < |t.rows| :: |t.rows[k]| <= |t.colWidths|
  }

  /** The body rows, formatted one after another. */
  function RowsText(t: Table, rows: seq<seq<string>>): string
    requires forall k | 0 <= k < |rows| :: |rows[k]| <= |t.colWidths|
  {
    if rows == [] then [] else RowsText(t, rows[..|rows| - 1]) + FormatRow(t, rows[|rows| - 1])
  }

  /** `display`: the header and a rule when there is a header, the rows in order, and a
      rule and the footer when there is a footer. */
  function Display(t: Table): (r: string)
    requires Formattable(t)
    ensures r == [] <==> t.header == [] && t.rows == [] && t.footer == []
  {
    HeadText(t) + RowsText(t, t.rows) + FootText(t)
  }

  /** The header's line and a rule, or nothing without a header. */
  function HeadText(t: Table): string
    requires |t.header| <= |t.colWidths|
  {
    if t.header != [] then FormatRow(t, t.header) + Rule(t) else []
  }

  /** A rule and the footer's line, or nothing without a footer. */
  function FootText(t: Table): string
    requires |t.footer| <= |t.colWidths|
  {
    if t.footer != [] then Rule(t) + FormatRow(t, t.footer) else []
  }

  /** No cell and no separator holds a line break. */
  predicate SingleLineCells(t: Table) {
    && '\n' !in t.separator.horizontal
    && '\n' !in t.separator.vertical
    && (forall j | 0 <= j < |t.header| :: '\n' !in t.header[j])
    && (forall j | 0 <= j < |t.footer| :: '\n' !in t.footer[j])
    && (forall k, j | 0 <= k < |t.rows| && 0 <= j < |t.rows[k]| :: '\n' !in t.rows[k][j])
  }

  lemma RuleIsOneLine(t: Table)
    requires '\n' !in t.separator.vertical
    ensures Count(Rule(t), '\n') == 1
  {
    var v := t.separator.vertical;
    var sep := Repeat(v, ByteLen(t.separator.horizontal));
    var body := Join(Segments(v, t.colWidths), sep);
    RepeatLacks(v, ByteLen(t.separator.horizontal), '\n');
    forall k | 0 <= k < |t.colWidths|
      ensures '\n' !in Segments(v, t.colWidths)[k]
    {
      SegmentRepeats(v, t.colWidths, k);
      RepeatLacks(v, t.colWidths[k], '\n');
    }
    JoinChars(Segments(v, t.colWidths), sep, '\n');
    NoOccurrence(body, '\n');
    NoOccurrence(v, '\n');
    CountConcat(body, v, '\n');
    CountConcat(body + v, "\n", '\n');
  }

  lemma {:induction false} RowsTextLines(t: Table, rows: seq<seq<string>>)
    requires forall k | 0 <= k < |rows| :: |rows[k]| <= |t.colWidths|
    requires '\n' !in t.separator.horizontal
    requires forall k, j | 0 <= k < |rows| && 0 <= j < |rows[k]| :: '\n' !in rows[k][j]
    ensures Count(RowsText(t, rows), '\n') == |rows|
  {
    if rows != [] {
      RowsTextLines(t, rows[..|rows| - 1]);
      FormatRowIsOneLine(t, rows[|rows| - 1]);
      CountConcat(RowsText(t, rows[..|rows| - 1]), FormatRow(t, rows[|rows| - 1]), '\n');
    }
  }

  /** The rendered table has one line per row, two more (row and rule) for a header and
      two more for a footer. */
  lemma DisplayLineCount(t: Table)
    requires Formattable(t) && SingleLineCells(t)
    ensures Count(Display(t), '\n')
         == (if t.header != [] then 2 else 0) + |t.rows| + (if t.footer != [] then 2 else 0)
  {
    var head, foot := HeadText(t), FootText(t);
    RuleIsOneLine(t);
    if t.header != [] {
      FormatRowIsOneLine(t, t.header);
      CountConcat(FormatRow(t, t.header), Rule(t), '\n');
    }
    if t.footer != [] {
      FormatRowIsOneLine(t, t.footer);
      CountConcat(Rule(t), FormatRow(t, t.footer), '\n');
    }
    RowsTextLines(t, t.rows);
    CountConcat(head, RowsText(t, t.rows), '\n');
    CountConcat(head + RowsText(t, t.rows), foot, '\n');
  }

  /** The rendered table starts with the header's line when there is a header. */
  lemma DisplayStartsWithHeader(t: Table)
    requires Formattable(t) && t.header != []
    ensures StartsWith(Display(t), FormatRow(t, t.header))
  {
    var h := FormatRow(t, t.header);
    var tail := Rule(t) + RowsText(t, t.rows) + FootText(t);
    assert Display(t) == h + tail;
    PrefixOfConcat(h, tail, h);
  }

  /** Without a header it starts with the first row's line. */
  lemma DisplayStartsWithFirstRow(t: Table)
    requires Formattable(t) && t.header == [] && t.rows != []
    ensures StartsWith(Display(t), FormatRow(t, t.rows[0]))
  {
    var rows := RowsText(t, t.rows);
    assert Display(t) == rows + FootText(t);
    RowsTextStart(t, t.rows);
    PrefixOfConcat(rows, FootText(t), FormatRow(t, t.rows[0]));
  }

  lemma PrefixOfConcat(a: string, b: string, p: string)
    requires StartsWith(a, p)
    ensures StartsWith(a + b, p)
  {
    assert (a + b)[..|p|] == a[..|p|];
  }

  lemma {:induction false} RowsTextStart(t: Table, rows: seq<seq<string>>)
    requires rows != []
    requires forall k | 0 <= k < |rows| :: |rows[k]| <= |t.colWidths|
    ensures StartsWith(RowsText(t, rows), FormatRow(t, rows[0]))
  {
    if |rows| > 1 {
      var init := rows[..|rows| - 1];
      RowsTextStart(t, init);
      assert init[0] == rows[0];
      PrefixOfConcat(RowsText(t, init), FormatRow(t, rows[|rows| - 1]), FormatRow(t, rows[0]));
    } else {
      assert rows[..0] == [];
      assert RowsText(t, rows) == [] + FormatRow(t, rows[0]);
    }
  }
}
