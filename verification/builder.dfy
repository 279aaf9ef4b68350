/**
  `TableBuilder` (src/lib/helpers/table/builder.rs): delimited text plus two flags that
  say whether its first line is a header and its last line a footer.
 */
module Builders {
  import opened Strings
  import opened TableColumns
  import opened Tables

  datatype TableBuilder = TableBuilder(contents: string, hasHeader: bool, hasFooter: bool, delimiter: char)

  /** `TableBuilder::default()`: no text, tab-delimited, no header, no footer. */
  const DefaultBuilder := TableBuilder([], false, false, '\t')

  /** `TableBuilder::new`: the text and delimiter given, no header, no footer. */
  function New(input: string, delimiter: char): (b: TableBuilder)
    ensures b.contents == input && b.delimiter == delimiter
    ensures !b.hasHeader && !b.hasFooter
  {
    DefaultBuilder.(contents := input, delimiter := delimiter)
  }

  /** `from`: replaces the text, keeps the rest. */
  function From(b: TableBuilder, contents: string): (r: TableBuilder)
    ensures r.contents == contents && r.(contents := b.contents) == b
  {
    b.(contents := contents)
  }

  /** `with_delimiter` */
  function WithDelimiter(b: TableBuilder, delimiter: char): (r: TableBuilder)
    ensures r.delimiter == delimiter && r.(delimiter := b.delimiter) == b
  {
    b.(delimiter := delimiter)
  }

  /** `with_header` */
  function WithHeader(b: TableBuilder, yes: bool): (r: TableBuilder)
    ensures r.hasHeader == yes && r.(hasHeader := b.hasHeader) == b
  {
    b.(hasHeader := yes)
  }

  /** `with_footer` */
  function WithFooter(b: TableBuilder, yes: bool): (r: TableBuilder)
    ensures r.hasFooter == yes && r.(hasFooter := b.hasFooter) == b
  {
    b.(hasFooter := yes)
  }

  /** `from_csv`: comma-delimited. */
  function FromCsv(input: string): (b: TableBuilder)
    ensures b.contents == input && b.delimiter == ','
    ensures !b.hasHeader && !b.hasFooter
  {
    New(input, ',')
  }

  /** `from_tsv`: tab-delimited. */
  function FromTsv(input: string): (b: TableBuilder)
    ensures b.contents == input && b.delimiter == '\t'
    ensures !b.hasHeader && !b.hasFooter
  {
    New(input, '\t')
  }

  /** The header, body and footer `build` cuts from the parsed lines: the first line is
      the header when the flag says so and there is one, then the last remaining line is
      the footer (empty when none remains). Parsed lines are never empty, so nothing is
      lost: the sections put back together are the lines. */
  function Arrange(parsed: seq<seq<string>>, hasHeader: bool, hasFooter: bool): (t: Table)
    requires forall k | 0 <= k < |parsed| :: parsed[k] != []
    ensures Sections(t) == parsed
    ensures t.header == (if hasHeader && parsed != [] then parsed[0] else [])
    ensures !hasFooter ==> t.footer == []
    ensures hasFooter && |parsed| > (if hasHeader then 1 else 0) ==> t.footer == parsed[|parsed| - 1]
    ensures hasFooter && |parsed| <= (if hasHeader then 1 else 0) ==> t.footer == []
    ensures t.separator == DefaultSeparator && t.colWidths == [] && t.alignments == []
    ensures t.columns.needsRecalculation
  {
    var header := if hasHeader && parsed != [] then parsed[0] else [];
    var rest := if hasHeader && parsed != [] then parsed[1..] else parsed;
    var footer := if hasFooter && rest != [] then rest[|rest| - 1] else [];
    var rows := if hasFooter && rest != [] then rest[..|rest| - 1] else rest;
    assert parsed == (if header != [] then [header] else []) + rest;
    assert rest == rows + (if footer != [] then [footer] else []);
    Table(header, rows, footer, DefaultSeparator, [], [], MarkForRecalc(TableColumns.Default))
  }

  /** `build` */
  function Build(b: TableBuilder): (t: Table)
    ensures Sections(t) == Parse(b.contents, b.delimiter)
    ensures t.columns.needsRecalculation
  {
    Arrange(Parse(b.contents, b.delimiter), b.hasHeader, b.hasFooter)
  }

  /** Without the flags every parsed line is a body row. */
  lemma BuildPlain(b: TableBuilder)
    requires !b.hasHeader && !b.hasFooter
    ensures Build(b).rows == Parse(b.contents, b.delimiter)
    ensures Build(b).header == [] && Build(b).footer == []
  {
    var t := Build(b);
    assert Sections(t) == t.rows;
  }
}
