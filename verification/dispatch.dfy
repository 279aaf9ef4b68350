/**
  `display` (src/lib/output/mod.rs): the configured format picks the formatter. The
  JSON formatter is a thin layer over a serialisation library and is not part of this
  model; it is passed in as a function.
 */
module Dispatch {
  import opened Wrappers
  import opened Results
  import opened Outputs
  import TableFormatters

  /** `display`: the table formatter for `Table`, the given JSON formatter for `JSON`;
      None where the table formatter panics. */
  function Display(r: ScanResults, c: Config, json: (ScanResults, Config) -> string): (o: Option<string>)
    requires c.format == TableFormat ==> TableFormatters.AllDrawable(r.files, r, c)
    ensures c.format == JsonFormat ==> o == Some(json(r, c))
    ensures c.format == TableFormat ==> o == TableFormatters.Format(r, c)
  {
    match c.format
    case TableFormat => TableFormatters.Format(r, c)
    case JsonFormat => Some(json(r, c))
  }

  /** Results built by the scanner (totals and maxima kept in step with the records)
      always satisfy the table formatter's bar requirement; with at least one record,
      one column and cells the table parser reads back unchanged, table output is
      produced. */
  lemma DisplayTable(r: ScanResults, c: Config, json: (ScanResults, Config) -> string)
    requires Consistent(r) && c.format == TableFormat
    requires r.files != [] && |TableFormatters.Header(c)| >= 1
    ensures TableFormatters.AllDrawable(r.files, r, c)
    ensures TableFormatters.CleanCells(r.files, r, c) ==> Display(r, c, json).Some?
  {
    TableFormatters.ConsistentDrawable(r, c);
    if TableFormatters.CleanCells(r.files, r, c) {
      TableFormatters.FormatDefined(r, c);
    }
  }
}
