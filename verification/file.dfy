/**
  Metric extraction for one input (src/lib/scanner/file.rs). The content is the text
  the reader yields, already decoded; the counts are the folds the scan loops make
  over the pieces `BufRead::lines` returns.
 */
module Files {
  import opened Strings
  import opened Languages

  /** One scanned file, or a sum of several (`count` > 1). The source's `usize`/`u64`
      counters are unbounded here. */
  datatype File = File(
    path: string,
    lines: nat,
    words: nat,
    chars: nat,
    bytes: nat,
    language: Language,
    count: nat
  )

  /** The metric a column, a sort or a bar is chosen by. Only the four named
      variants the match arms list are modelled; `Bytes` is also the catch-all arm. */
  datatype Metric = Lines | Words | Chars | Bytes

  /** The value of `metric` in a record. */
  function Measure(f: File, metric: Metric): nat {
    match metric
    case Lines => f.lines
    case Words => f.words
    case Chars => f.chars
    case Bytes => f.bytes
  }

  // ---------------------------------------------------------------------------
  // per-line measures and their folds
  // ---------------------------------------------------------------------------

  function WordCount(line: string): nat {
    |SplitWhitespace(line)|
  }

  function CharCount(line: string): nat {
    |line|
  }

  /** Sum of `measure` over the lines. */
  function Total(lines: seq<string>, measure: string -> nat): nat {
    if lines == [] then 0 else measure(lines[0]) + Total(lines[1..], measure)
  }

  lemma {:induction false} TotalAppend(lines: seq<string>, line: string, measure: string -> nat)
    ensures Total(lines + [line], measure) == Total(lines, measure) + measure(line)
  {
    if lines != [] {
      assert (lines + [line])[1..] == lines[1..] + [line];
      TotalAppend(lines[1..], line, measure);
    }
  }

  /** Number of "\r\n" pairs: the carriage returns `lines()` drops. */
  function CrLfCount(s: string): nat {
    if |s| < 2 then 0 else (if s[0] == '\r' && s[1] == '\n' then 1 else 0) + CrLfCount(s[1..])
  }

  function EndsInCr(s: string): nat {
    if s != [] && s[|s| - 1] == '\r' then 1 else 0
  }

  lemma {:induction false} CrLfSplit(p: string, rest: string)
    requires '\n' !in p
    ensures CrLfCount(p + ['\n'] + rest) == EndsInCr(p) + CrLfCount(rest)
  {
    var s := p + ['\n'] + rest;
    if p == [] {
      assert s == ['\n'] + rest;
      if rest != [] {
        assert s[1..] == rest;
      }
    } else {
      assert s[0] == p[0] && s[1..] == p[1..] + ['\n'] + rest;
      assert '\n' !in p[1..] by {
        assert forall x | x in p[1..] :: x in p;
      }
      CrLfSplit(p[1..], rest);
      if |p| == 1 {
        assert s[1] == '\n';
        assert p[1..] == [];
      } else {
        assert s[1] == p[1] && p[1] != '\n';
        assert p[1..][|p[1..]| - 1] == p[|p| - 1];
      }
    }
  }

  lemma {:induction false} NoCrLf(s: string)
    requires '\n' !in s
    ensures CrLfCount(s) == 0
  {
    if |s| >= 2 {
      assert s[1] in s;
      assert '\n' !in s[1..] by {
        assert forall x | x in s[1..] :: x in s;
      }
      NoCrLf(s[1..]);
    }
  }

  lemma StripCrLength(p: string)
    ensures |StripCr(p)| + EndsInCr(p) == |p|
    ensures ByteLen(StripCr(p)) + EndsInCr(p) == ByteLen(p)
  {
    if EndsInCr(p) == 1 {
      var q := p[..|p| - 1];
      assert p == q + ['\r'];
      ByteLenConcat(q, ['\r']);
    }
  }

  /** Splitting `s` at its first '\n'. */
  lemma FirstLine(s: string) returns (head: string, rest: string)
    requires '\n' in s
    ensures '\n' !in head && s == head + ['\n'] + rest
    ensures SplitLines(s) == [StripCr(head)] + SplitLines(rest)
  {
    var i := IndexOf(s, '\n');
    head, rest := s[..i], s[i + 1..];
    assert s == head + ['\n'] + rest;
  }

  /** The words over all lines are the words of the whole content: '\n' and '\r'
      are White_Space, so cutting at them splits no word. */
  lemma {:induction false} WordsOfLines(s: string)
    ensures Total(SplitLines(s), WordCount) == |SplitWhitespace(s)|
    decreases |s|
  {
    if s != [] {
      if '\n' in s {
        var head, rest := FirstLine(s);
        WordsOfLines(rest);
        WordsOfFirstLine(head, rest);
        assert ([StripCr(head)] + SplitLines(rest))[1..] == SplitLines(rest);
      } else {
        assert IndexOf(s, '\n') == |s|;
      }
    }
  }

  /** The words of a text are those of its first line, CR dropped, and those after it. */
  lemma WordsOfFirstLine(head: string, rest: string)
    ensures |SplitWhitespace(head + ['\n'] + rest)| == WordCount(StripCr(head)) + |SplitWhitespace(rest)|
  {
    SplitWhitespaceConcat(head + ['\n'], rest);
    SplitWhitespaceTrailing(head, '\n');
    if EndsInCr(head) == 1 {
      var q := head[..|head| - 1];
      assert head == q + ['\r'];
      SplitWhitespaceTrailing(q, '\r');
    }
  }

  /** The characters over all lines are the content's characters except each '\n'
      and each '\r' right before one. */
  lemma {:induction false} CharsOfLines(s: string)
    ensures Total(SplitLines(s), CharCount) + Count(s, '\n') + CrLfCount(s) == |s|
    decreases |s|
  {
    if s != [] {
      if '\n' in s {
        var head, rest := FirstLine(s);
        CharsOfLines(rest);
        CrLfSplit(head, rest);
        CountConcat(head + ['\n'], rest, '\n');
        CountConcat(head, ['\n'], '\n');
        NoOccurrence(head, '\n');
        StripCrLength(head);
      } else {
        assert IndexOf(s, '\n') == |s|;
        NoOccurrence(s, '\n');
        NoCrLf(s);
      }
    }
  }

  /** Same, counted in UTF-8 bytes: '\n' and '\r' take one byte each. */
  lemma {:induction false} BytesOfLines(s: string)
    ensures Total(SplitLines(s), ByteLen) + Count(s, '\n') + CrLfCount(s) == ByteLen(s)
    decreases |s|
  {
    if s != [] {
      if '\n' in s {
        var head, rest := FirstLine(s);
        BytesOfLines(rest);
        CrLfSplit(head, rest);
        CountConcat(head + ['\n'], rest, '\n');
        CountConcat(head, ['\n'], '\n');
        NoOccurrence(head, '\n');
        StripCrLength(head);
        ByteLenConcat(head + ['\n'], rest);
        ByteLenConcat(head, ['\n']);
      } else {
        assert IndexOf(s, '\n') == |s|;
        NoOccurrence(s, '\n');
        NoCrLf(s);
      }
    }
  }

  function Unterminated(s: string): nat {
    if s != [] && s[|s| - 1] != '\n' then 1 else 0
  }

  // ---------------------------------------------------------------------------
  // scan and scan_reader
  // ---------------------------------------------------------------------------

  /** The line loop both scans share: lines, words and chars over `lines()`. */
  method CountLines(content: string) returns (lines: nat, words: nat, chars: nat, bytes: nat)
    ensures lines == |SplitLines(content)|
    ensures words == Total(SplitLines(content), WordCount)
    ensures chars == Total(SplitLines(content), CharCount)
    ensures bytes == Total(SplitLines(content), ByteLen)
  {
    var pieces := SplitLines(content);
    lines, words, chars, bytes := 0, 0, 0, 0;
    var i := 0;
    while i < |pieces|
      invariant i <= |pieces|
      invariant lines == i
      invariant words == Total(pieces[..i], WordCount)
      invariant chars == Total(pieces[..i], CharCount)
      invariant bytes == Total(pieces[..i], ByteLen)
    {
      var line := pieces[i];
      TotalsStep(pieces, i);
      lines := lines + 1;
      words := words + |SplitWhitespace(line)|;
      chars := chars + |line|;
      bytes := bytes + ByteLen(line);
      i := i + 1;
    }
    assert pieces[..i] == pieces;
  }

  /** One more line adds its words, characters and bytes to the running totals. */
  lemma TotalsStep(pieces: seq<string>, i: nat)
    requires i < |pieces|
    ensures Total(pieces[..i + 1], WordCount) == Total(pieces[..i], WordCount) + |SplitWhitespace(pieces[i])|
    ensures Total(pieces[..i + 1], CharCount) == Total(pieces[..i], CharCount) + |pieces[i]|
    ensures Total(pieces[..i + 1], ByteLen) == Total(pieces[..i], ByteLen) + ByteLen(pieces[i])
  {
    assert pieces[..i + 1] == pieces[..i] + [pieces[i]];
    TotalAppend(pieces[..i], pieces[i], WordCount);
    TotalAppend(pieces[..i], pieces[i], CharCount);
    TotalAppend(pieces[..i], pieces[i], ByteLen);
  }

  /** `File::scan` over a file whose content is `content`: `bytes` is the file's
      length, the other counts come from the line loop. */
  method Scan(path: string, content: string) returns (f: File)
    ensures f.path == path && f.language == FromPath(path) && f.count == 1
    ensures f.bytes == ByteLen(content)
    ensures f.lines == Count(content, '\n') + Unterminated(content)
    ensures f.words == |SplitWhitespace(content)|
    ensures f.chars == |content| - Count(content, '\n') - CrLfCount(content)
  {
    var lines, words, chars, _ := CountLines(content);
    LineCount(content);
    WordsOfLines(content);
    CharsOfLines(content);
    f := File(path, lines, words, chars, ByteLen(content), FromPath(path), 1);
  }

  /** `File::scan_reader`: bytes are rebuilt from the lines as their lengths plus
      one per line, less one. At least one line is needed: with none,
      `lines - 1` underflows in the source. */
  method ScanReader(content: string) returns (f: File)
    requires content != []
    ensures f.path == "STDIN" && f.language == Text && f.count == 1
    ensures f.lines == Count(content, '\n') + Unterminated(content)
    ensures f.words == |SplitWhitespace(content)|
    ensures f.chars == |content| - Count(content, '\n') - CrLfCount(content)
    ensures f.bytes == ByteLen(content) - CrLfCount(content) - (1 - Unterminated(content))
    ensures '\r' !in content && content[|content| - 1] != '\n' ==> f.bytes == ByteLen(content)
  {
    var lines, words, chars, bytes := CountLines(content);
    LineCount(content);
    WordsOfLines(content);
    CharsOfLines(content);
    BytesOfLines(content);
    if '\r' !in content {
      NoCrNoCrLf(content);
    }
    f := File("STDIN", lines, words, chars, bytes + lines - 1, Text, 1);
  }

  /** Text without a carriage return has no "\r\n" pair. */
  lemma {:induction false} NoCrNoCrLf(s: string)
    requires '\r' !in s
    ensures CrLfCount(s) == 0
  {
    if |s| >= 2 {
      assert s[0] in s;
      assert '\r' !in s[1..] by {
        assert forall x | x in s[1..] :: x in s;
      }
      NoCrNoCrLf(s[1..]);
    }
  }

  /** A word followed by White_Space is the first word. */
  lemma LeadingWord(w: string, sep: char, rest: string)
    requires w != [] && forall i | 0 <= i < |w| :: !IsWhitespace(w[i])
    requires IsWhitespace(sep)
    ensures SplitWhitespace(w + [sep] + rest) == [w] + SplitWhitespace(rest)
  {
    SplitWhitespaceConcat(w + [sep], rest);
    SplitWhitespaceTrailing(w, sep);
    WordOfToken(w);
  }

  predicate IsWord(w: string) {
    w != [] && forall i | 0 <= i < |w| :: !IsWhitespace(w[i])
  }

  /** Two words joined by a space: no '\n' and no CR at the end. */
  lemma Spaced(a: string, b: string)
    requires IsWord(a) && IsWord(b)
    ensures '\n' !in a + [' '] + b && EndsInCr(a + [' '] + b) == 0
  {
    var s := a + [' '] + b;
    forall i | 0 <= i < |s|
      ensures s[i] != '\n'
    {
      if i < |a| { assert s[i] == a[i]; }
      else if i > |a| { assert s[i] == b[i - |a| - 1]; }
    }
    assert s[|s| - 1] == b[|b| - 1];
  }

  /** The text of the source's first sample, "Hello World\nRust is awesome", with
      its five words as parameters. */
  function SampleText(a: string, b: string, c: string, d: string, e: string): string {
    (a + [' '] + b) + ['\n'] + (c + [' '] + (d + [' '] + e))
  }

  /** The sample has two lines, five words, and every character but the '\n'. */
  lemma TwoLineSample(a: string, b: string, c: string, d: string, e: string)
    requires IsWord(a) && IsWord(b) && IsWord(c) && IsWord(d) && IsWord(e)
    ensures var s := SampleText(a, b, c, d, e);
            Count(s, '\n') + Unterminated(s) == 2 && |SplitWhitespace(s)| == 5
            && |s| - Count(s, '\n') - CrLfCount(s) == |a| + |b| + |c| + |d| + |e| + 3
  {
    var line1 := a + [' '] + b;
    var t3 := d + [' '] + e;
    var t2 := c + [' '] + t3;
    var s := line1 + ['\n'] + t2;
    SampleWords(a, b, c, d, e);
    Spaced(a, b);
    Spaced(d, e);
    assert '\n' !in t2 by {
      forall i | 0 <= i < |t2|
        ensures t2[i] != '\n'
      {
        if i < |c| { assert t2[i] == c[i]; }
        else if i > |c| { assert t2[i] == t3[i - |c| - 1]; }
      }
    }
    CountConcat(line1, ['\n'] + t2, '\n');
    assert s == line1 + (['\n'] + t2);
    CountConcat(['\n'], t2, '\n');
    NoOccurrence(line1, '\n');
    NoOccurrence(t2, '\n');
    CrLfSplit(line1, t2);
    NoCrLf(t2);
    assert s[|s| - 1] == e[|e| - 1];
  }

  lemma SampleWords(a: string, b: string, c: string, d: string, e: string)
    requires IsWord(a) && IsWord(b) && IsWord(c) && IsWord(d) && IsWord(e)
    ensures |SplitWhitespace(SampleText(a, b, c, d, e))| == 5
  {
    var line1 := a + [' '] + b;
    var t3 := d + [' '] + e;
    var t2 := c + [' '] + t3;
    WordOfToken(e);
    LeadingWord(d, ' ', e);
    assert SplitWhitespace(t3) == [d, e];
    LeadingWord(c, ' ', t3);
    assert SplitWhitespace(t2) == [c, d, e];
    WordOfToken(b);
    LeadingWord(a, ' ', b);
    assert SplitWhitespace(line1) == [a, b];
    SplitWhitespaceTrailing(line1, '\n');
    SplitWhitespaceConcat(line1 + ['\n'], t2);
  }

  // ---------------------------------------------------------------------------
  // Add
  // ---------------------------------------------------------------------------

  /** `impl Add for File`, as written: chars adds the right operand's *words*. */
  function Add(a: File, b: File): (r: File)
    ensures r.(chars := 0) == FieldSum(a, b).(chars := 0)
    ensures r.chars == a.chars + b.words
  {
    File(b.path, a.lines + b.lines, a.words + b.words, a.chars + b.words,
         a.bytes + b.bytes, b.language, a.count + b.count)
  }

  /** The field-wise sum the other fields follow. */
  function FieldSum(a: File, b: File): File {
    File(b.path, a.lines + b.lines, a.words + b.words, a.chars + b.chars,
         a.bytes + b.bytes, b.language, a.count + b.count)
  }

  /** `Add` is the field-wise sum exactly when the right operand has as many chars as
      words; it always sums lines, words, bytes and count and takes the right
      operand's path and language. */
  lemma AddVersusFieldSum(a: File, b: File)
    ensures Add(a, b) == FieldSum(a, b) <==> b.chars == b.words
    ensures Add(a, b).(chars := 0) == FieldSum(a, b).(chars := 0)
    ensures Add(a, b).chars == a.chars + b.words
  {
  }

  /** `Add` is associative on every field, chars included. */
  lemma AddAssociative(a: File, b: File, c: File)
    ensures Add(Add(a, b), c) == Add(a, Add(b, c))
  {
  }

  /** Swapping the operands can change chars even when path and language agree. */
  lemma AddNotCommutative()
    ensures var a := File("x", 1, 2, 10, 10, Text, 1);
            var b := File("x", 1, 3, 10, 10, Text, 1);
            Add(a, b).chars == 13 && Add(b, a).chars == 12
  {
  }
}
