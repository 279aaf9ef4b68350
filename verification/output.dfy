/**
  Output settings (src/lib/output/mod.rs): the `Format` choice and its parser, and the
  formatter configuration with its defaults and setters.

  The configuration here carries every field the two formatters read. Besides the
  fields declared in src/lib/output/mod.rs it has `header`, `footer`, `alignment` and
  the four graph settings; the formatters' `files` flag is the `path` flag ("show the
  file path" column) and their `graph` flag is the `visualization` flag.
 */
module Outputs {
  import opened Wrappers
  import opened Strings
  import opened Files
  import Paths

  datatype Format = TableFormat | JsonFormat

  /** `Format::from_str`: exactly "table" and "json", case-sensitive; anything else is
      rejected with a message naming it. */
  function ParseFormat(s: string): (r: Result<Format, string>)
    ensures r.Ok? <==> s == "table" || s == "json"
    ensures r == Ok(TableFormat) <==> s == "table"
    ensures r == Ok(JsonFormat) <==> s == "json"
    ensures r.Err? ==> r.error == "Unsupported Format: " + s
  {
    if s == "table" then Ok(TableFormat)
    else if s == "json" then Ok(JsonFormat)
    else Err("Unsupported Format: " + s)
  }

  /** The parser does not fold case. */
  lemma ParseFormatCaseSensitive()
    ensures ParseFormat("Table") == Err("Unsupported Format: " + "Table")
    ensures ParseFormat("JSON") == Err("Unsupported Format: " + "JSON")
  {
    assert "Table"[0] != "table"[0] && |"Table"| != |"json"|;
    assert "JSON"[0] != "json"[0] && |"JSON"| != |"table"|;
  }

  datatype Config = Config(
    groupByLanguage: bool,
    path: bool,
    lines: bool,
    words: bool,
    chars: bool,
    bytes: bool,
    language: bool,
    visualization: bool,
    useColors: bool,
    format: Format,
    header: bool,
    footer: bool,
    alignment: bool,
    graphBy: Metric,
    graphSize: nat,
    graphFill: string,
    graphBlank: string)

  /** `Config::default()`: no grouping, every column, colours and the graph on, table
      output. The header, footer and alignment flags and the graph settings are fields
      the formatters read but `Config` does not declare, so no default exists for them
      and they are parameters. */
  function DefaultConfig(header: bool, footer: bool, alignment: bool, graphBy: Metric,
                         graphSize: nat, graphFill: string, graphBlank: string): (c: Config)
    ensures !c.groupByLanguage
    ensures c.path && c.lines && c.words && c.chars && c.bytes && c.language
    ensures c.visualization && c.useColors
    ensures c.format == TableFormat
    ensures c.header == header && c.footer == footer && c.alignment == alignment
    ensures c.graphBy == graphBy && c.graphSize == graphSize
    ensures c.graphFill == graphFill && c.graphBlank == graphBlank
  {
    Config(false, true, true, true, true, true, true, true, true, TableFormat,
      header, footer, alignment, graphBy, graphSize, graphFill, graphBlank)
  }

  /** `group_by_language` */
  function GroupByLanguage(c: Config, yes: bool): (r: Config)
    ensures r.groupByLanguage == yes && r.(groupByLanguage := c.groupByLanguage) == c
  {
    c.(groupByLanguage := yes)
  }

  /** `path` */
  function ShowPath(c: Config, yes: bool): (r: Config)
    ensures r.path == yes && r.(path := c.path) == c
  {
    c.(path := yes)
  }

  /** `lines` */
  function ShowLines(c: Config, yes: bool): (r: Config)
    ensures r.lines == yes && r.(lines := c.lines) == c
  {
    c.(lines := yes)
  }

  /** `words` */
  function ShowWords(c: Config, yes: bool): (r: Config)
    ensures r.words == yes && r.(words := c.words) == c
  {
    c.(words := yes)
  }

  /** `chars` */
  function ShowChars(c: Config, yes: bool): (r: Config)
    ensures r.chars == yes && r.(chars := c.chars) == c
  {
    c.(chars := yes)
  }

  /** `bytes` */
  function ShowBytes(c: Config, yes: bool): (r: Config)
    ensures r.bytes == yes && r.(bytes := c.bytes) == c
  {
    c.(bytes := yes)
  }

  /** `color`: sets `use_colors`. */
  function WithColor(c: Config, yes: bool): (r: Config)
    ensures r.useColors == yes && r.(useColors := c.useColors) == c
  {
    c.(useColors := yes)
  }

  /** `visualization` */
  function WithVisualization(c: Config, yes: bool): (r: Config)
    ensures r.visualization == yes && r.(visualization := c.visualization) == c
  {
    c.(visualization := yes)
  }

  /** The title of the files column: "Files" when grouping by language, else "Path". */
  function FilesTitle(c: Config): string {
    if c.groupByLanguage then "Files" else "Path"
  }

  /** The files cell: the record count when grouping, else the trimmed path. */
  function FilesCell(f: File, c: Config): string {
    if c.groupByLanguage then NatToString(f.count) else Paths.Display(f.path)
  }

  // ---------------------------------------------------------------------------
  // column selection, shared by the table and the delimited formatter
  // ---------------------------------------------------------------------------

  /** Number of set flags among the first `n`. */
  function CountTrue(flags: seq<bool>, n: nat): nat
    requires n <= |flags|
  {
    if n == 0 then 0 else CountTrue(flags, n - 1) + (if flags[n - 1] then 1 else 0)
  }

  /** `selected_columns`: the values whose flag is set, in order. The flags are indexed
      by position, so there must be at least as many flags as values. */
  function Select<T>(values: seq<T>, flags: seq<bool>): (r: seq<T>)
    requires |values| <= |flags|
    ensures |r| == CountTrue(flags, |values|)
  {
    if values == [] then []
    else Select(values[..|values| - 1], flags) + (if flags[|values| - 1] then [values[|values| - 1]] else [])
  }

  /** Selecting one value more adds it exactly when its flag is set. */
  lemma SelectPrefix<T>(values: seq<T>, flags: seq<bool>, k: nat)
    requires k < |values| <= |flags|
    ensures Select(values[..k + 1], flags) == Select(values[..k], flags) + (if flags[k] then [values[k]] else [])
  {
    assert values[..k + 1][..k] == values[..k];
  }

  /** `if flag { row.push(x) }` */
  function PushIf<T>(row: seq<T>, flag: bool, x: T): seq<T> {
    if flag then row + [x] else row
  }

  /** The pushes of the first `k` values, each guarded by its flag: the shape of the
      source's chain of `if flag { push }` statements. */
  function Pushes<T>(v: seq<T>, flags: seq<bool>, k: nat): seq<T>
    requires k <= |v| && k <= |flags|
  {
    if k == 0 then [] else PushIf(Pushes(v, flags, k - 1), flags[k - 1], v[k - 1])
  }

  /** Selecting from the first `k` values is pushing each of them under its flag. */
  lemma {:induction false} SelectIsPushes<T>(v: seq<T>, flags: seq<bool>, k: nat)
    requires k <= |v| <= |flags|
    ensures Select(v[..k], flags) == Pushes(v, flags, k)
  {
    if k > 0 {
      SelectIsPushes(v, flags, k - 1);
      SelectPrefix(v, flags, k - 1);
      assert Select(v[..k - 1], flags) + [] == Select(v[..k - 1], flags);
    }
  }

  lemma {:induction false} CountTrueGrows(flags: seq<bool>, i: nat, n: nat)
    requires i < n <= |flags| && flags[i]
    ensures CountTrue(flags, i) < CountTrue(flags, n)
  {
    if n > i + 1 {
      CountTrueGrows(flags, i, n - 1);
    }
  }

  /** Value `i` is kept exactly when its flag is set, at the position counting the set
      flags before it. */
  lemma {:induction false} SelectPositions<T>(values: seq<T>, flags: seq<bool>)
    requires |values| <= |flags|
    ensures forall i | 0 <= i < |values| && flags[i] ::
      CountTrue(flags, i) < |Select(values, flags)| && Select(values, flags)[CountTrue(flags, i)] == values[i]
  {
    if values != [] {
      var n := |values|;
      var init := values[..n - 1];
      SelectPositions(init, flags);
      var r := Select(values, flags);
      assert r[..|Select(init, flags)|] == Select(init, flags);
      forall i | 0 <= i < n && flags[i]
        ensures CountTrue(flags, i) < |r| && r[CountTrue(flags, i)] == values[i]
      {
        if i < n - 1 {
          CountTrueGrows(flags, i, n - 1);
          assert init[i] == values[i];
        }
      }
    }
  }

  /** Every kept value is a value whose flag is set: nothing else is kept. */
  lemma {:induction false} SelectSource<T>(values: seq<T>, flags: seq<bool>, j: nat) returns (i: nat)
    requires |values| <= |flags|
    requires j < |Select(values, flags)|
    ensures i < |values| && flags[i] && CountTrue(flags, i) == j
    ensures Select(values, flags)[j] == values[i]
  {
    var n := |values|;
    var init := values[..n - 1];
    var r := Select(values, flags);
    assert r[..|Select(init, flags)|] == Select(init, flags);
    if j < |Select(init, flags)| {
      i := SelectSource(init, flags, j);
      assert init[i] == values[i];
    } else {
      i := n - 1;
    }
  }
}
