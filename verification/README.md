# tali, modelled in Dafny

tali is a command-line tool. It scans files and counts their lines, words,
characters and bytes. It classifies each file by extension into a language, and it
accumulates totals and maxima. It can group the records by language and sort them by
a metric. It then renders the results as a padded text table (with an optional
coloured bar), as delimited text, or as JSON.

This project models the pure core of that pipeline.

- **Visible width** (`Ansi`): the character-level state machine that counts terminal
  cells and skips ANSI control sequences.
- **Metric extraction** (`Files`): `scan` and `scan_reader` over in-memory content,
  split the way `BufRead::lines` splits it, and the `Add` merge of two records.
- **Accumulation** (`Accumulators`): `Totals::add`, `Max::track`, and their folds.
- **Results** (`Results`): recording scanned files, `group_by_language`, the stable
  `sort_by`, and `SortOrder` parsing.
- **Classification** (`Languages`): the extension table, `from_extension`,
  `from_path`, the colours and the display names.
- **Path trimming** (`Paths`): `path::display`.
- **Table layout engine**:
  - `Tables`: parsing, width bookkeeping, cell padding, rows, separator rules, `display`.
  - `TableColumns`: the dirty-flag width cache.
  - `Builders`: `TableBuilder`.
  - `TableIterators`: the header/rows/footer iterator.
- **Formatters**:
  - `Outputs`: `Format` parsing, the configuration and column selection.
  - `TableFormatters`: the table formatter, with its proportional bar and colouring.
  - `DelimiterFormatters`: the delimited-text formatter.
  - `Dispatch`: the dispatch on the output format.

The Rust standard-library behaviour the code depends on is written out in `Strings`.
This covers:
- `str::lines` and `BufRead::lines`: split on '\n' and drop one '\r' before it;
- `split(char)`, `trim` (Unicode White_Space), `split_whitespace`;
- UTF-8 byte length;
- `to_lowercase`, restricted to ASCII letters: other characters are left as they are;
- decimal `to_string`.

Strings are `seq<char>`, one element per Unicode scalar value. Counts are unbounded
naturals.

Where the code and its documentation disagree, the model follows the code.
- `Add for File` sets `chars` to the left `chars` plus the right **words**. It is
  modelled as written: `Files.AddVersusFieldSum` states exactly when it differs from
  a field-wise sum. Grouped records inherit this (`Results.ReduceIs`).
- `visible_width` counts an ESC that is read while an escape sequence is already open
  (the `_ => width += 1` arm). So only the ESC that opens a sequence is free
  (`Ansi.EscapeTakesNoCell`).
- The table code mixes iterations of the `Table` type.
  - `output/table.rs` calls `Table::from_tsv`. It is modelled as `Table::from` with a
    tab.
  - `builder.rs` writes a `columns` field. The shared `Table` record therefore carries
    one.
  - The formatters read configuration fields that `output/mod.rs` does not declare.
    `Outputs.Config` carries all of them: the formatters' `files` flag is `path` and
    their `graph` flag is `visualization`.

## Model

| member | source | states |
|---|---|---|
| Ansi.VisibleWidth | src/lib/helpers/ansi.rs:5-34 | `visible_width` is the width the Normal/Escape/CSI state machine assigns, and never more than the number of characters |
| Ansi.CountVisible | src/lib/helpers/ansi.rs:5-34 | the nested loops of `visible_width` compute the width that the Normal/Escape/CSI state machine assigns to the string |
| Ansi.WidthConcat | src/lib/helpers/ansi.rs:5-34 | width and scanner state compose over concatenation: the second part is measured from the state the first part leaves |
| Ansi.SettledConcat | src/lib/helpers/ansi.rs:5-34 | after a string that leaves no sequence open, widths add up, and the joined string is settled exactly when the second part is |
| Ansi.WidthAtMostLength | src/lib/helpers/ansi.rs:5-34 | the width never exceeds the number of characters |
| Ansi.PlainWidth | src/lib/helpers/ansi.rs:9-12 | with no ESC in the string, the width is its character count and no sequence is left open |
| Ansi.HelloWorldWidth | src/lib/helpers/ansi.rs:40-44 | "Hello World!" has width 12 |
| Ansi.EmptyWidth | src/lib/helpers/ansi.rs:46-49 | the empty string has width 0 |
| Ansi.CsiSwallows | src/lib/helpers/ansi.rs:20-25 | inside a CSI, characters that are not final bytes add nothing and keep the CSI open |
| Ansi.CompleteCsiIsInvisible | src/lib/helpers/ansi.rs:19-26 | ESC '[' with parameters and a final byte in 0x40-0x7E has width 0 and closes itself |
| Ansi.EscapeTakesNoCell | src/lib/helpers/ansi.rs:11-15 | the ESC that opens a sequence adds no cell; the rest is measured in the escape state |
| Ansi.UnterminatedCsiSwallowsRest | src/lib/helpers/ansi.rs:20-24 | a CSI with no final byte hides everything after it |
| Ansi.CsiBetween | src/lib/helpers/ansi.rs:15-26 | a complete CSI between two strings adds nothing to their widths |
| Ansi.ColourWrapKeepsWidth | src/lib/helpers/ansi.rs:52-63 | wrapping text in an opening and a closing control sequence leaves its width unchanged |
| Ansi.ColouredPlainText | src/lib/helpers/ansi.rs:51-56 | ESC"[31m" + text + ESC"[0m" has the width of the plain text |
| Ansi.NestedColourPlainText | src/lib/helpers/ansi.rs:58-63 | with nested colour codes, the width is the sum of the two plain parts |
| Strings.LineCount | src/lib/scanner/file.rs:63-65 | the number of lines `lines()` yields: one per '\n', plus one for unterminated trailing text; empty content has none |
| Files.CountLines | src/lib/scanner/file.rs:58-68 | the counting loop gives the number of lines and the per-line sums of words, characters and bytes |
| Files.WordsOfLines | src/lib/scanner/file.rs:66 | summing the words of every line counts the whitespace-separated words of the whole content |
| Files.CharsOfLines | src/lib/scanner/file.rs:67 | summing the characters of every line counts all characters except '\n' and the '\r' of each "\r\n" |
| Files.BytesOfLines | src/lib/scanner/file.rs:110 | summing the byte lengths of every line gives the content's bytes minus its line terminators |
| Files.Scan | src/lib/scanner/file.rs:47-83 | `scan` keeps the path, classifies it by extension, counts 1 file, takes the byte size of the content, and counts lines, words and characters over the whole content |
| Files.ScanReader | src/lib/scanner/file.rs:97-126 | `scan_reader` yields path "STDIN", language Text and count 1, the same line, word and character counts, and bytes rebuilt as the line bytes plus lines - 1; for content with no '\r' and no trailing '\n' that is exactly the content's byte length |
| Files.TwoLineSample | src/lib/scanner/file.rs:166-190 | a two-line sample of five words without a trailing newline has 2 lines, 5 words, and every character except the '\n' |
| Files.Add | src/lib/scanner/file.rs:129-141 | `Add` agrees with the field-wise sum on every field but chars, takes the right operand's path and language, and sets chars to the left chars plus the right words |
| Files.AddVersusFieldSum | src/lib/scanner/file.rs:129-141 | `Add` sums lines, words, bytes and count and takes path and language from the right, but chars is left chars + right words; it equals the field-wise sum exactly when the right record's chars equal its words |
| Files.AddAssociative | src/lib/scanner/file.rs:129-141 | `Add` is associative |
| Files.AddNotCommutative | src/lib/scanner/file.rs:136 | two records whose `Add` in the two orders gives different chars |
| Accumulators.Add | src/lib/scanner/accumulators.rs:21-27 | `add` raises the file count by one and every metric by the record's value |
| Accumulators.Track | src/lib/scanner/accumulators.rs:41-46 | `track` makes every field at least the old value and at least the record's value, and equal to one of the two |
| Accumulators.AddAllIsSum | src/lib/scanner/accumulators.rs:10-27 | folding `add` from the default gives files = the number of records and each metric = the sum of that metric |
| Accumulators.AddAllPermutation | src/lib/scanner/accumulators.rs:21-27 | the totals do not depend on the order of the records |
| Accumulators.LargestIsMax | src/lib/scanner/accumulators.rs:41-46 | the fold of maxima bounds every record, is attained by one of them, and is 0 with no records |
| Accumulators.TrackAllIsLargest | src/lib/scanner/accumulators.rs:31-46 | folding `track` from the default gives the per-metric maximum |
| Accumulators.TrackAllPermutation | src/lib/scanner/accumulators.rs:41-46 | the maxima do not depend on the order of the records |
| Accumulators.TrackIdempotent | src/lib/scanner/accumulators.rs:42-45 | tracking the same record twice changes nothing more |
| Accumulators.TrackCommutes | src/lib/scanner/accumulators.rs:42-45 | tracking two records in either order gives the same maxima |
| Accumulators.Defaults | src/lib/scanner/accumulators.rs:10-37 | the default totals and maxima are all zero |
| Results.Record | src/lib/scanner/mod.rs:61-67 | recording a scanned file appends it and keeps totals and maxima consistent with the files held |
| Results.RecordAll | src/lib/scanner/mod.rs:41-97 | recording files from empty results gives those files, their sums as totals and their maxima as maxima |
| Results.Reduce | src/lib/scanner/results.rs:42 | `reduce` gives None exactly for no members, and otherwise a record with the last member's path and language |
| Results.ReduceIs | src/lib/scanner/results.rs:42 | reducing a language's members with `Add` sums lines, words, bytes and counts, gives chars = first member's chars + the later members' words, and takes path and language from the last member |
| Results.GroupByLanguage | src/lib/scanner/results.rs:26-50 | grouping yields one record per distinct language, each carrying its language, with totals and maxima consistent over the grouped records only, so the file total is the number of languages |
| Results.GroupedRecord | src/lib/scanner/results.rs:28-46 | each grouped record's lines, words, bytes and count are the sums over the files of its language |
| Results.GroupOrderIrrelevant | src/lib/scanner/results.rs:40 | any enumeration order of the languages gives the same records up to permutation, and the same totals and maxima |
| Results.Sort | src/lib/scanner/results.rs:53-72 | the sort is a permutation of the files |
| Results.SortSorted | src/lib/scanner/results.rs:53-72 | the sorted files are ordered by the metric in the chosen direction |
| Results.SortStable | src/lib/scanner/results.rs:55-71 | records with equal keys keep their relative order |
| Results.StableSortUnique | src/lib/scanner/results.rs:55-71 | two sorted orders that keep every key's records in the same order are equal, so any stable sort gives this result |
| Results.SortBy | src/lib/scanner/results.rs:53-72 | `sort_by` permutes the files into sorted, stable order and leaves totals and maxima untouched |
| Results.SortedMeans | src/lib/scanner/results.rs:55-70 | in sorted files an earlier record's metric is at most (ascending) or at least (descending) a later one's |
| Results.ParseSortOrder | src/lib/scanner/results.rs:81-89 | after lowercasing, "a", "asc" and "ascending" give Ascending, "d", "desc" and "descending" give Descending, and anything else is an error naming the input |
| Results.ParseSortOrderCaseInsensitive | src/lib/scanner/results.rs:84 | parsing ignores letter case |
| Languages.FromExtension | src/lib/helpers/language.rs:19-25 | an extension that is not listed gives `Unknown` carrying the lowercased extension |
| Languages.Color | src/lib/helpers/language.rs:37-42 | the grey (127, 127, 127) is given exactly to `Unknown` |
| Languages.Name | src/lib/helpers/language.rs:45-52 | a display name starts with '.' exactly for `Unknown`, so no listed language prints like an unknown extension |
| Languages.ExtensionsClassify | src/lib/helpers/language.rs:19-25 | every extension listed for a language classifies as that language |
| Languages.ClassifyIsListed | src/lib/helpers/language.rs:19-25 | a known classification comes only from one of that language's listed extensions |
| Languages.UnknownIffUnlisted | src/lib/helpers/language.rs:20-23 | the result is `Unknown` exactly when the lowercased extension is listed nowhere, and then it carries the lowercased extension |
| Languages.CaseInsensitive | src/lib/helpers/language.rs:20 | an extension classifies like its lowercase form |
| Languages.FromExtensionExamples | src/lib/helpers/language.rs:102-111 | rs, cpp, py, html, htm, js, mjs, cjs, RS and Html give their languages |
| Languages.UnknownExtensionExample | src/lib/helpers/language.rs:107-110 | "unknown_ext" gives `Unknown("unknown_ext")` |
| Languages.Extension | src/lib/helpers/language.rs:29 | an extension found holds neither '/' nor '.' |
| Languages.FileName | src/lib/helpers/language.rs:29 | the file name holds no '/' |
| Languages.FromPath | src/lib/helpers/language.rs:28-34 | a path without an extension is Text; otherwise it is classified by its extension |
| Languages.FileNameAfterDir | src/lib/helpers/language.rs:29 | a name without '/' (other than ".") is the file name of itself and of any path that ends with it after a separator |
| Languages.ExtensionOfFileName | src/lib/helpers/language.rs:29 | the extension of stem.ext is ext, bare or after a directory prefix |
| Languages.NoDotNoExtension | src/lib/helpers/language.rs:29-31 | a file name without a '.' has no extension, bare or after a directory prefix |
| Languages.TrailingComponentsIgnored | src/lib/helpers/language.rs:29 | a trailing '/' or "/." does not change the extension, so "x.rs/" and "x.rs/." are classified like "x.rs" |
| Languages.FromPathOfFileName | src/lib/helpers/language.rs:113-117 | stem.ext, bare as in "main.rs", "script.py" and "index.html" or after a directory prefix, is classified by ext |
| Languages.NoExtensionIsText | src/lib/helpers/language.rs:118 | a path whose file name has no '.' is Text, as "/no_extension" |
| Languages.ColorExamples | src/lib/helpers/language.rs:37-42 | `Unknown` is grey (127,127,127), Rust is (255,165,0), Text is white, and no known language is grey |
| Languages.NameExamples | src/lib/helpers/language.rs:45-59 | CPP displays as "C++", CSharp as "C#", others by identifier, and `Unknown(x)` as "." + x |
| Paths.TrimStartMatches | src/lib/helpers/path.rs:4 | `trim_start_matches` removes a whole number of leading copies of the prefix and leaves a string that does not start with it |
| Paths.TrimStartMatchesUnique | src/lib/helpers/path.rs:4 | that remainder is determined: any decomposition into copies plus a remainder that does not start with the prefix gives it |
| Paths.Display | src/lib/helpers/path.rs:2-6 | the displayed path never starts with "./" |
| Paths.DisplayDecomposes | src/lib/helpers/path.rs:4 | the input is some copies of ".\" then some copies of "./" then the displayed path, which is therefore a suffix of the input |
| Paths.DisplayUnchanged | src/lib/helpers/path.rs:4 | a path starting with neither prefix is shown unchanged |
| Paths.DisplayStrips | src/lib/helpers/path.rs:4 | all leading ".\" copies and then all leading "./" copies are removed |
| Paths.DisplayNotIdempotent | src/lib/helpers/path.rs:4 | "./.\x" displays as ".\x", which displays as "x": trimming once is not a fixed point |
| TableColumns.MarkForRecalc | src/lib/helpers/table/columns.rs:12-14 | marking sets the dirty flag and keeps the widths |
| TableColumns.Get | src/lib/helpers/table/columns.rs:17-19 | `get` is Some exactly for an index below the number of widths, and then gives that width |
| TableColumns.GetOr | src/lib/helpers/table/columns.rs:22-24 | `get_or` gives the width in range and the fallback exactly out of range |
| TableColumns.Iterate | src/lib/helpers/table/columns.rs:61-67 | iteration yields every width, in index order |
| TableColumns.Resize | src/lib/helpers/table/columns.rs:47 | resizing keeps the old widths in range and fills new columns with 0 |
| TableColumns.Calculate | src/lib/helpers/table/columns.rs:30-57 | with the flag clear nothing changes; otherwise the flag is cleared, there is one width per column of the longest row, and each width is the larger of the old width (or 0) and the column's longest byte length |
| TableColumns.MaxLenIsMax | src/lib/helpers/table/columns.rs:39-43 | the column count bounds every row's length and is attained by some row |
| TableColumns.ColumnMaxIsMax | src/lib/helpers/table/columns.rs:50-52 | a column's width bounds every cell of it and is attained by one when positive |
| TableColumns.NoCellsBeyond | src/lib/helpers/table/columns.rs:55 | a column past the longest row has width 0 |
| Tables.WithHorizontalSeparator | src/lib/helpers/table/mod.rs:38-41 | sets the horizontal separator and changes nothing else |
| Tables.WithVerticalSeparator | src/lib/helpers/table/mod.rs:43-46 | sets the vertical separator and changes nothing else |
| Tables.Parse | src/lib/helpers/table/mod.rs:50-58 | one row per line, each the line split on the delimiter with every cell trimmed, and never empty |
| Tables.ParseRender | src/lib/helpers/table/mod.rs:50-58 | parsing the newline-terminated, delimiter-joined text of trimmed, delimiter-free cells gives those rows back |
| Tables.From | src/lib/helpers/table/mod.rs:50-78 | `Table::from` has the parsed rows, no header or footer, default separators, one Left alignment and one width per column of the longest row, each width the widest visible cell of its column, so every row fits |
| Tables.WidenIsColumnMax | src/lib/helpers/table/mod.rs:64-68 | widening zero widths by every row gives each column's widest visible cell |
| Tables.UpdateColWidths | src/lib/helpers/table/mod.rs:97-102 | each width becomes the larger of the old width and the cell's visible width; the number of widths is kept |
| Tables.FromFits | src/lib/helpers/table/mod.rs:60-68 | widths that are the column maxima fit every row |
| Tables.UpdateFitting | src/lib/helpers/table/mod.rs:97-102 | a row that already fits leaves the widths unchanged |
| Tables.UpdateKeepsFit | src/lib/helpers/table/mod.rs:97-102 | after the update the row fits, and so does every row that fitted before |
| Tables.WithHeader | src/lib/helpers/table/mod.rs:80-84 | sets the header and sets each width to the larger of the old width and the header cell's visible width, so the header fits; everything else is kept and rows that fitted still fit |
| Tables.WithFooter | src/lib/helpers/table/mod.rs:86-90 | sets the footer and sets each width to the larger of the old width and the footer cell's visible width, so the footer fits; everything else is kept and rows that fitted still fit |
| Tables.AddRow | src/lib/helpers/table/mod.rs:104-108 | appends the row and sets each width to the larger of the old width and the row cell's visible width, so the new row fits; everything else is kept and rows that fitted still fit |
| Tables.WithAlignments | src/lib/helpers/table/mod.rs:92-95 | sets the alignments and changes nothing else |
| Tables.Pad | src/lib/helpers/table/mod.rs:129-133 | `format!` padding: the text at a Left, Center (half, rounded down) or Right offset among spaces, to the larger of its length and the width |
| Tables.FormatCell | src/lib/helpers/table/mod.rs:122-135 | the text is never cut: the cell is as long as the larger of the text and the target, and the text sits unchanged at the offset its alignment gives |
| Tables.FormatCellWidth | src/lib/helpers/table/mod.rs:122-135 | an ASCII cell with no escape sequence left open is padded to visible width max(width, its own visible width) and leaves no sequence open |
| Tables.FormatCellKeepsText | src/lib/helpers/table/mod.rs:122-135 | padding adds only whitespace: the non-whitespace text is unchanged |
| Tables.FormatCellMultibyte | src/lib/helpers/table/mod.rs:123-128 | a two-byte character in a width-3 cell comes out 4 cells wide, because the target adds byte length to a character-count pad |
| Tables.CellWidth | src/lib/helpers/table/mod.rs:139-142 | a fitted ASCII cell and its separator take the column width plus the separator's length |
| Tables.FormatRow | src/lib/helpers/table/mod.rs:137-145 | a formatted row ends in a line break, and a row with no cells is only that line break |
| Tables.FormatRowWidth | src/lib/helpers/table/mod.rs:137-145 | a fitted ASCII row is as wide as the sum of its column widths plus one separator per cell plus the newline |
| Tables.FormatRowIsOneLine | src/lib/helpers/table/mod.rs:137-145 | a row of single-line cells is exactly one line ending in "\n" |
| Tables.SegmentRepeats | src/lib/helpers/table/mod.rs:113-115 | the rule's k-th segment is the vertical separator repeated the k-th width times |
| Tables.SegmentsLength | src/lib/helpers/table/mod.rs:113-117 | the joined segments have length vertical length times the width sum plus one joiner between each pair |
| Tables.Rule | src/lib/helpers/table/mod.rs:110-120 | a rule ends in a line break, and with no columns it is the vertical separator and the line break |
| Tables.RuleWidth | src/lib/helpers/table/mod.rs:110-120 | with a one-character vertical separator the rule is one line, as wide as the width sum plus (columns - 1) times the horizontal separator's byte length plus 2 |
| Tables.RuleWithoutColumns | src/lib/helpers/table/mod.rs:110-120 | with no columns the rule is the vertical separator and "\n" |
| Tables.RuleIsOneLine | src/lib/helpers/table/mod.rs:110-120 | the rule has exactly one newline |
| Tables.Display | src/lib/helpers/table/mod.rs:147-168 | the rendering is empty exactly when the table has no header, no rows and no footer |
| Tables.DisplayLineCount | src/lib/helpers/table/mod.rs:147-168 | the rendered table has two lines for a non-empty header, one per row, and two for a non-empty footer |
| Tables.DisplayStartsWithHeader | src/lib/helpers/table/mod.rs:150-154 | with a header, the output starts with the header's line |
| Tables.DisplayStartsWithFirstRow | src/lib/helpers/table/mod.rs:156-159 | without a header, the output starts with the first row's line |
| Builders.New | src/lib/helpers/table/builder.rs:9-27 | a new builder holds the input and delimiter, without header or footer |
| Builders.From | src/lib/helpers/table/builder.rs:29-32 | sets the contents and nothing else |
| Builders.WithDelimiter | src/lib/helpers/table/builder.rs:34-37 | sets the delimiter and nothing else |
| Builders.WithHeader | src/lib/helpers/table/builder.rs:39-42 | sets the header flag and nothing else |
| Builders.WithFooter | src/lib/helpers/table/builder.rs:44-47 | sets the footer flag and nothing else |
| Builders.FromCsv | src/lib/helpers/table/builder.rs:49-51 | a comma-delimited builder without header or footer |
| Builders.FromTsv | src/lib/helpers/table/builder.rs:53-55 | a tab-delimited builder without header or footer |
| Builders.Arrange | src/lib/helpers/table/builder.rs:68-87 | the first parsed line becomes the header when asked and present; the last remaining line becomes the footer when asked, or none; header, rows and footer together are the parsed lines; the columns are marked dirty |
| Builders.Build | src/lib/helpers/table/builder.rs:57-88 | header, rows and footer of the built table are the parsed contents in order, and the columns are marked for recalculation |
| Builders.BuildPlain | src/lib/helpers/table/builder.rs:57-84 | without the flags every parsed line is a row and header and footer are empty |
| TableIterators.Present | src/lib/helpers/table/iterator.rs:52-54 | a header or footer is present exactly when it is non-empty |
| TableIterators.IntoIter | src/lib/helpers/table/iterator.rs:38-57 | the iterator starts in the first non-empty section and has header, rows and footer still to yield |
| TableIterators.Next | src/lib/helpers/table/iterator.rs:17-35 | `next` never returns to the header state, every call before `Done` uses up part of the iterator, and `Done` yields nothing and stays |
| TableIterators.NextYieldsFirst | src/lib/helpers/table/iterator.rs:17-35 | `next` yields the first remaining item, or nothing exactly when none remain and then it is Done; each step makes progress |
| TableIterators.DoneIsFinal | src/lib/helpers/table/iterator.rs:33 | once Done, `next` yields nothing and changes nothing |
| TableIterators.Collect | src/lib/helpers/table/iterator.rs:17-35 | draining the iterator yields exactly the remaining items |
| TableIterators.IterateTable | src/lib/helpers/table/iterator.rs:60-128 | iterating a table yields the non-empty header, the rows in order, then the non-empty footer, one item per row plus one per non-empty header or footer |
| Outputs.ParseFormat | src/lib/output/mod.rs:18-26 | exactly "table" and "json" are accepted; anything else is the error "Unsupported Format: " + input |
| Outputs.ParseFormatCaseSensitive | src/lib/output/mod.rs:21-24 | "Table" and "JSON" are rejected |
| Outputs.DefaultConfig | src/lib/output/mod.rs:43-58 | by default there is no grouping; every column, colours and the graph are on; the output is a table; the header, footer, alignment and graph settings, which have no declared default, are the given ones |
| Outputs.GroupByLanguage | src/lib/output/mod.rs:62-65 | sets grouping and nothing else |
| Outputs.ShowPath | src/lib/output/mod.rs:68-71 | sets the path column flag and nothing else |
| Outputs.ShowLines | src/lib/output/mod.rs:74-77 | sets the lines column flag and nothing else |
| Outputs.ShowWords | src/lib/output/mod.rs:80-83 | sets the words column flag and nothing else |
| Outputs.ShowChars | src/lib/output/mod.rs:86-89 | sets the chars column flag and nothing else |
| Outputs.ShowBytes | src/lib/output/mod.rs:92-95 | sets the bytes column flag and nothing else |
| Outputs.WithColor | src/lib/output/mod.rs:97-100 | sets colouring and nothing else |
| Outputs.WithVisualization | src/lib/output/mod.rs:102-105 | sets the graph flag and nothing else |
| Outputs.Select | src/lib/output/table.rs:46-66 | `selected_columns` keeps one value per set flag |
| Outputs.SelectPositions | src/lib/output/table.rs:61-65 | value i is kept exactly when flag i is set, after the kept values before it, so order is preserved |
| Outputs.SelectSource | src/lib/output/table.rs:61-65 | every kept value is a value whose flag is set, at the position of its flag among the set ones |
| Outputs.SelectIsPushes | src/lib/output/table.rs:52-65 | selecting from the first k values is the same as pushing each of them, in order, exactly when its flag is set |
| TableFormatters.Header | src/lib/output/table.rs:68-81 | the header has one title per selected column |
| TableFormatters.HeaderFilesTitle | src/lib/output/table.rs:69-73 | the files column's title is "Files" when grouping and "Path" otherwise |
| TableFormatters.RgbParamsAreParameters | src/lib/output/table.rs:196 | the "38;2;r;g;b" parameters contain no final byte |
| TableFormatters.Colorize | src/lib/output/table.rs:194-197 | colouring settled text with the language's RGB sequence and the reset keeps its visible width and leaves it settled |
| TableFormatters.BarLengthRounds | src/lib/output/table.rs:133-146 | the bar length is the nearest whole number to metric * size / max, halves rounded up |
| TableFormatters.BarLengthBounds | src/lib/output/table.rs:133-148 | when the metric is at most the maximum the bar fits in [0, size], is empty for 0 and full for the maximum |
| TableFormatters.BarTextShape | src/lib/output/table.rs:148 | the bar is `fill` for the first length cells and `blank` for the rest, size cells in all |
| TableFormatters.Bar | src/lib/output/table.rs:128-148 | with a one-character fill and blank, coloured or not, the bar takes exactly the graph size in cells |
| TableFormatters.NanBarIsEmpty | src/lib/output/table.rs:133-148 | a non-zero metric over a zero maximum with graph size 0 is drawable and gives the empty bar, as the NaN length casts to 0 |
| TableFormatters.ConsistentDrawable | src/lib/output/table.rs:128-148 | in results whose maxima are the fold of the files, every file's bar can be drawn |
| TableFormatters.RowCells | src/lib/output/table.rs:83-126 | a row's cells are the selected ones of language (coloured when colours are on), count or path, lines, words, chars, bytes and bar, in that order |
| TableFormatters.Row | src/lib/output/table.rs:83-126 | a row is one line ending in a line break, and without tabs in its cells it splits back on the tab into its cells |
| TableFormatters.Footer | src/lib/output/table.rs:158-170 | the footer has one cell per selected column among the first six |
| TableFormatters.FooterShorterByGraph | src/lib/output/table.rs:158-170 | the footer is one cell shorter than the header exactly when the graph is on |
| TableFormatters.Alignments | src/lib/output/table.rs:172-190 | one alignment per header column |
| TableFormatters.Grid | src/lib/output/table.rs:19-21 | one row of cells per file, in order |
| TableFormatters.RowsTextRenders | src/lib/output/table.rs:19-21 | the tab-joined lines built for the files are the rendering of that grid |
| TableFormatters.LayoutRows | src/lib/output/table.rs:19-23 | parsing the built lines back gives the grid of row cells when no cell holds a tab, newline or edge whitespace |
| TableFormatters.Layout | src/lib/output/table.rs:16-38 | when it does not panic, the table holds the parsed rows, fits every section, and has the header, footer and alignments exactly when their flags are set |
| TableFormatters.Format | src/lib/output/table.rs:16-41 | a rendering exists exactly when the layout does |
| TableFormatters.FormatDefined | src/lib/output/table.rs:16-41 | with at least one file and one column, and clean cells, formatting does not panic |
| TableFormatters.EmptyResultsPanic | src/lib/output/table.rs:23-28 | with no files the parsed table has no columns, so adding a non-empty header panics |
| DelimiterFormatters.HeaderCells | src/lib/output/delimiter.rs:62-71 | the header has one title per selected column among six |
| DelimiterFormatters.Header | src/lib/output/delimiter.rs:62-71 | the header ends in a line break, and with a one-character delimiter no title holds it splits back into the titles |
| DelimiterFormatters.RowCells | src/lib/output/delimiter.rs:76-109 | a row's cells are the selected ones of the uncoloured language, count or path, lines, words, chars and bytes, as many as the header |
| DelimiterFormatters.Row | src/lib/output/delimiter.rs:76-109 | a row ends in a line break, which is its only one when neither its cells nor the delimiter hold one |
| DelimiterFormatters.FooterCells | src/lib/output/delimiter.rs:111-124 | the footer has as many cells as the header |
| DelimiterFormatters.Footer | src/lib/output/delimiter.rs:111-124 | the footer adds no line break, so it holds none when neither its cells nor the delimiter do |
| DelimiterFormatters.RowSplitsBack | src/lib/output/delimiter.rs:76-109 | a row without the delimiter in its cells splits back into its cells; no quoting is applied |
| DelimiterFormatters.Format | src/lib/output/delimiter.rs:20-36 | the output starts with the header when it is on and ends with the footer when it is on |
| DelimiterFormatters.FormatLineCount | src/lib/output/delimiter.rs:20-36 | the output has one newline per file plus one for the header; the footer adds none |
| Dispatch.Display | src/lib/output/mod.rs:108-113 | table format goes to the table formatter and JSON format to the JSON formatter |
| Dispatch.DisplayTable | src/lib/output/mod.rs:108-113 | for consistent, non-empty results with at least one column, every bar can be drawn and the table output exists when cells are clean |

## Left out

- File-system access, the directory walker, `.gitignore` handling, the CLI and the
  scanner's concurrency: only the in-memory core is modelled. `Files.Scan` takes the
  content as a parameter, and its byte count is the content's length.
- JSON output: serde serialisation is not part of this model. `Dispatch.Display`
  receives it as a function parameter.
- Other iterations of the code in the repository (`src/lib/table.rs`,
  `src/lib/display*`, `src/lib/language.rs`, `src/lib/file.rs`): these are not part
  of this model.
- The `Metric` type is not part of this model. It is taken to have the variants
  Lines, Words, Chars and Bytes.
- Outputs.DefaultConfig: the header, footer and alignment flags and the graph
  settings have no default in the source, because `Config` does not declare them.
  `Outputs.DefaultConfig` takes them as parameters.
- Fixed-width integers: the model uses unbounded naturals. Overflow of `usize` and
  `u64` is not modelled.
- Invalid UTF-8 is not modelled. A read error of `lines()` is not modelled either.
  Strings are sequences of Unicode scalar values.
- Languages.CaseInsensitive: `to_lowercase` is modelled for ASCII letters only;
  non-ASCII case mapping is not modelled. The KELVIN SIGN in "\u{212A}t" lowercases
  to 'k' in Rust, so Rust gives Kotlin where the model gives Unknown.
- Results.ParseSortOrder: the same ASCII-only lowercasing is used. Which inputs are
  accepted does not change: the KELVIN SIGN lowercases to 'k', which no spelling
  contains, and 'İ' lowercases to 'i' plus a combining dot. For non-ASCII upper-case
  input, however, the error text differs: for "É" Rust names "é" and the model names "É".
- Languages.FromPath: `Path::extension` is modelled on '/'-separated strings. It
  covers the file name after trailing separators and "." components are dropped, dot
  files and "..", but not platform-specific prefixes or non-UTF-8 extensions.
- Files.ScanReader: requires non-empty content. With no lines, `(lines as u64) - 1`
  underflows.
- TableFormatters.BarLengthRounds: the length is computed exactly in rational
  arithmetic, so `f64` rounding is not modelled. At a quotient that is exactly half-way
  the source can round down: for metric 7, maximum 10 and size 45, `7.0 / 10.0 * 45.0`
  is 31.499999999999996 in `f64` and rounds to 31, where the model gives 32.
- TableFormatters.Bar: requires that the bar fits. Where `size - length` would
  underflow, or a non-zero metric meets a zero maximum with a non-zero graph size, the
  source panics. With a zero graph size that case draws the empty bar, and the model
  admits it (`TableFormatters.NanBarIsEmpty`).
  `TableFormatters.ConsistentDrawable` shows this never happens for consistent
  results.
- TableFormatters.Layout: a header or footer longer than the parsed column count makes
  the source panic on an index out of bounds. The model returns None instead.
- Tables.FormatCellWidth: stated for ASCII text with no escape sequence left open
  only. For multi-byte text the source overshoots the width, as
  `Tables.FormatCellMultibyte` shows. For text that leaves a sequence open (ESC "[1")
  the padding spaces are swallowed by that sequence, so the visible width stays below
  the column width.
- Builders.Build: leaves the table's `col_widths` and alignments empty and only marks
  the `columns` cache dirty. This is what the code does: its `Table` type comes from a
  different iteration than `Table::from`.
- RFC 4180 quoting of delimited cells: the source applies none, so none is modelled.
- The source's literal test cases are restated as lemmas over arbitrary inputs of the
  same shape. For example, `Files.TwoLineSample` takes any five words, not the two
  fixed sentences.
