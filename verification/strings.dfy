/**
  The pieces of Rust's `str` and `char` behaviour the tool relies on, written out over
  `string` (a sequence of Unicode scalar values): UTF-8 length, `split`, `lines`, `trim`,
  `split_whitespace`, `repeat`, `join`, `to_string` on integers and ASCII lower-casing,
  plus `max` on the counts.
 */
module Strings {

  /** `max` on counts and widths: the larger of the two, which is one of them. */
  function Larger(a: nat, b: nat): (m: nat)
    ensures m >= a && m >= b && (m == a || m == b)
  {
    if a >= b then a else b
  }

  /** Unicode White_Space, the class `char::is_whitespace` tests. */
  predicate IsWhitespace(c: char) {
    || c == ' '
    || ('\t' <= c <= '\r')
    || c == '\U{0085}' || c == '\U{00A0}' || c == '\U{1680}'
    || ('\U{2000}' <= c <= '\U{200A}')
    || c == '\U{2028}' || c == '\U{2029}' || c == '\U{202F}' || c == '\U{205F}' || c == '\U{3000}'
  }

  predicate IsAsciiChar(c: char) {
    c as int < 0x80
  }

  predicate IsAscii(s: string) {
    forall i | 0 <= i < |s| :: IsAsciiChar(s[i])
  }

  predicate StartsWith(s: string, prefix: string) {
    |prefix| <= |s| && s[..|prefix|] == prefix
  }

  /** Number of occurrences of `c` in `s`. */
  function Count(s: string, c: char): nat {
    if s == [] then 0 else (if s[0] == c then 1 else 0) + Count(s[1..], c)
  }

  lemma {:induction false} CountConcat(a: string, b: string, c: char)
    ensures Count(a + b, c) == Count(a, c) + Count(b, c)
  {
    if a != [] {
      assert (a + b)[0] == a[0] && (a + b)[1..] == a[1..] + b;
      CountConcat(a[1..], b, c);
    } else {
      assert a + b == b;
    }
  }

  // ---------------------------------------------------------------------------
  // UTF-8 length (`str::len`)
  // ---------------------------------------------------------------------------

  /** Number of bytes UTF-8 uses for one scalar value. */
  function Utf8Width(c: char): nat {
    if c as int < 0x80 then 1
    else if c as int < 0x800 then 2
    else if c as int < 0x10000 then 3
    else 4
  }

  /** `str::len`: the UTF-8 encoded length in bytes. */
  function ByteLen(s: string): nat {
    if s == [] then 0 else Utf8Width(s[0]) + ByteLen(s[1..])
  }

  lemma {:induction false} ByteLenConcat(a: string, b: string)
    ensures ByteLen(a + b) == ByteLen(a) + ByteLen(b)
  {
    if a != [] {
      assert (a + b)[0] == a[0] && (a + b)[1..] == a[1..] + b;
      ByteLenConcat(a[1..], b);
    } else {
      assert a + b == b;
    }
  }

  /** Every scalar value takes at least one byte, and ASCII takes exactly one. */
  lemma {:induction false} ByteLenBounds(s: string)
    ensures |s| <= ByteLen(s) <= 4 * |s|
    ensures IsAscii(s) ==> ByteLen(s) == |s|
  {
    if s != [] {
      ByteLenBounds(s[1..]);
    }
  }

  // ---------------------------------------------------------------------------
  // repeat, join, concat
  // ---------------------------------------------------------------------------

  /** `str::repeat` */
  function Repeat(s: string, n: nat): string {
    if n == 0 then [] else s + Repeat(s, n - 1)
  }

  lemma {:induction false} RepeatLength(s: string, n: nat)
    ensures |Repeat(s, n)| == |s| * n
  {
    if n > 0 {
      RepeatLength(s, n - 1);
    }
  }

  /** `n` spaces: the fill character of Rust's `{:<w$}` padding. */
  function Spaces(n: nat): string {
    seq(n, _ => ' ')
  }

  /** `[String]::join(sep)` */
  function Join(parts: seq<string>, sep: string): string {
    if |parts| == 0 then []
    else if |parts| == 1 then parts[0]
    else parts[0] + sep + Join(parts[1..], sep)
  }

  /** `[String]::concat()`, the text a sequence of `push_str` calls builds. */
  function Concat(parts: seq<string>): string {
    if parts == [] then [] else parts[0] + Concat(parts[1..])
  }

  lemma {:induction false} ConcatAppend(parts: seq<string>, last: string)
    ensures Concat(parts + [last]) == Concat(parts) + last
  {
    if parts != [] {
      assert (parts + [last])[1..] == parts[1..] + [last];
      ConcatAppend(parts[1..], last);
    }
  }

  lemma {:induction false} ConcatSplit(a: seq<string>, b: seq<string>)
    ensures Concat(a + b) == Concat(a) + Concat(b)
  {
    if a != [] {
      assert (a + b)[0] == a[0] && (a + b)[1..] == a[1..] + b;
      ConcatSplit(a[1..], b);
    } else {
      assert a + b == b;
    }
  }

  // ---------------------------------------------------------------------------
  // str::split(char)
  // ---------------------------------------------------------------------------

  /** Index of the first `c` in `s`, or `|s|` when there is none. */
  function IndexOf(s: string, c: char): (i: nat)
    ensures i <= |s|
    ensures i < |s| ==> s[i] == c
    ensures c !in s[..i]
  {
    if s == [] then 0
    else if s[0] == c then 0
    else
      var j := IndexOf(s[1..], c);
      assert s[..j + 1] == [s[0]] + s[1..][..j];
      j + 1
  }

  /** In `p + [c] + rest` with no `c` inside `p`, the first `c` is the one after `p`. */
  lemma {:induction false} IndexOfPrefix(p: string, c: char, rest: string)
    requires c !in p
    ensures IndexOf(p + [c] + rest, c) == |p|
  {
    if p != [] {
      assert (p + [c] + rest)[1..] == p[1..] + [c] + rest;
      assert c !in p[1..] by {
        assert forall x | x in p[1..] :: x in p;
      }
      IndexOfPrefix(p[1..], c, rest);
    }
  }

  /** `str::split(d)` with a single-character pattern: the pieces between the
      occurrences of `d`; never empty, since "" splits into [""]. */
  function SplitOn(s: string, d: char): (parts: seq<string>)
    ensures |parts| >= 1
    ensures forall k | 0 <= k < |parts| :: d !in parts[k]
    decreases |s|
  {
    var i := IndexOf(s, d);
    if i == |s| then
      assert s[..i] == s;
      [s]
    else [s[..i]] + SplitOn(s[i + 1..], d)
  }

  /** Joining the pieces with the delimiter gives the input back. */
  lemma {:induction false} JoinSplitOn(s: string, d: char)
    ensures Join(SplitOn(s, d), [d]) == s
    decreases |s|
  {
    var i := IndexOf(s, d);
    if i < |s| {
      var rest := s[i + 1..];
      JoinSplitOn(rest, d);
      var parts := SplitOn(s, d);
      assert parts == [s[..i]] + SplitOn(rest, d);
      assert parts[1..] == SplitOn(rest, d);
      assert s == s[..i] + [d] + rest;
    }
  }

  /** Splitting delimiter-free pieces joined by the delimiter gives the pieces back. */
  lemma {:induction false} SplitOnJoin(parts: seq<string>, d: char)
    requires |parts| >= 1
    requires forall k | 0 <= k < |parts| :: d !in parts[k]
    ensures SplitOn(Join(parts, [d]), d) == parts
  {
    if |parts| == 1 {
      assert IndexOf(parts[0], d) == |parts[0]| by {
        assert parts[0][..|parts[0]|] == parts[0];
      }
    } else {
      var rest := Join(parts[1..], [d]);
      var s := parts[0] + [d] + rest;
      assert Join(parts, [d]) == s;
      IndexOfPrefix(parts[0], d, rest);
      var i := IndexOf(s, d);
      assert s[..i] == parts[0];
      assert s[i + 1..] == rest;
      SplitOnJoin(parts[1..], d);
    }
  }

  // ---------------------------------------------------------------------------
  // trim
  // ---------------------------------------------------------------------------

  function TrimStart(s: string): (r: string)
    ensures |r| <= |s| && r == s[|s| - |r|..]
    ensures Visible(r) == Visible(s)
    ensures r != [] ==> !IsWhitespace(r[0])
    ensures forall i | 0 <= i < |s| - |r| :: IsWhitespace(s[i])
  {
    if s != [] && IsWhitespace(s[0]) then TrimStart(s[1..]) else s
  }

  function TrimEnd(s: string): (r: string)
    ensures |r| <= |s| && r == s[..|r|]
    ensures Visible(r) == Visible(s)
    ensures r != [] ==> !IsWhitespace(r[|r| - 1])
    ensures forall i | |r| <= i < |s| :: IsWhitespace(s[i])
  {
    if s != [] && IsWhitespace(s[|s| - 1]) then
      assert s == s[..|s| - 1] + [s[|s| - 1]];
      VisibleConcat(s[..|s| - 1], [s[|s| - 1]]);
      TrimEnd(s[..|s| - 1])
    else s
  }

  /** `str::trim`: the input with leading and trailing White_Space removed; every
      other character is kept, in order. */
  function Trim(s: string): (r: string)
    ensures |r| <= |s|
    ensures r != [] ==> !IsWhitespace(r[0]) && !IsWhitespace(r[|r| - 1])
    ensures Visible(r) == Visible(s)
  {
    TrimEnd(TrimStart(s))
  }

  /** A string with no White_Space at either end is its own trim. */
  lemma TrimUnchanged(s: string)
    requires s != [] ==> !IsWhitespace(s[0]) && !IsWhitespace(s[|s| - 1])
    ensures Trim(s) == s
  {
  }

  // ---------------------------------------------------------------------------
  // lines (`BufRead::lines` and `str::lines` split alike)
  // ---------------------------------------------------------------------------

  /** Drops one '\r' at the end: the CR of a CRLF terminator. */
  function StripCr(line: string): string {
    if line != [] && line[|line| - 1] == '\r' then line[..|line| - 1] else line
  }

  /**
    The pieces `lines()` yields: split after every '\n', the '\n' (and a '\r' right
    before it) dropped; a final piece with no '\n' is kept as is, so a trailing '\n'
    adds no empty line and "" has no lines at all.
   */
  function SplitLines(s: string): seq<string>
    decreases |s|
  {
    if s == [] then []
    else
      var i := IndexOf(s, '\n');
      if i == |s| then [s] else [StripCr(s[..i])] + SplitLines(s[i + 1..])
  }

  /** The number of lines is the number of '\n' plus one for an unterminated last line. */
  lemma {:induction false} LineCount(s: string)
    ensures |SplitLines(s)| == Count(s, '\n') + (if s != [] && s[|s| - 1] != '\n' then 1 else 0)
    decreases |s|
  {
    if s != [] {
      var i := IndexOf(s, '\n');
      if i < |s| {
        var rest := s[i + 1..];
        assert s == s[..i] + (['\n'] + rest);
        CountConcat(s[..i], ['\n'] + rest, '\n');
        CountConcat(['\n'], rest, '\n');
        NoOccurrence(s[..i], '\n');
        LineCount(rest);
        assert SplitLines(s) == [StripCr(s[..i])] + SplitLines(rest);
        if rest != [] {
          assert s[|s| - 1] == rest[|rest| - 1];
        }
      } else {
        assert s[..i] == s;
        NoOccurrence(s, '\n');
        assert s[|s| - 1] in s;
      }
    }
  }

  lemma {:induction false} NoOccurrence(s: string, c: char)
    requires c !in s
    ensures Count(s, c) == 0
  {
    if s != [] {
      assert c !in s[1..] by {
        assert forall x | x in s[1..] :: x in s;
      }
      NoOccurrence(s[1..], c);
    }
  }

  /** Terminating each line with '\n' and reading the text back gives the lines. */
  function Terminated(lines: seq<string>): string {
    if lines == [] then [] else lines[0] + "\n" + Terminated(lines[1..])
  }

  lemma {:induction false} SplitLinesTerminated(lines: seq<string>)
    requires forall k | 0 <= k < |lines| :: '\n' !in lines[k]
    requires forall k | 0 <= k < |lines| :: lines[k] == [] || lines[k][|lines[k]| - 1] != '\r'
    ensures SplitLines(Terminated(lines)) == lines
  {
    if lines != [] {
      var l := lines[0];
      var rest := Terminated(lines[1..]);
      var s := l + "\n" + rest;
      assert Terminated(lines) == s;
      IndexOfPrefix(l, '\n', rest);
      var i := IndexOf(s, '\n');
      assert s[..i] == l;
      assert StripCr(l) == l;
      assert s[i + 1..] == rest;
      SplitLinesTerminated(lines[1..]);
    }
  }

  // ---------------------------------------------------------------------------
  // split_whitespace
  // ---------------------------------------------------------------------------

  /** Length of the leading run of non-White_Space characters. */
  function TokenLength(s: string): (n: nat)
    ensures n <= |s|
    ensures forall i | 0 <= i < n :: !IsWhitespace(s[i])
    ensures n < |s| ==> IsWhitespace(s[n])
  {
    if s == [] || IsWhitespace(s[0]) then 0 else 1 + TokenLength(s[1..])
  }

  /** `str::split_whitespace`: the maximal runs of non-White_Space characters, in order. */
  function SplitWhitespace(s: string): (tokens: seq<string>)
    ensures forall k | 0 <= k < |tokens| :: tokens[k] != []
    ensures forall k, i | 0 <= k < |tokens| && 0 <= i < |tokens[k]| :: !IsWhitespace(tokens[k][i])
    decreases |s|
  {
    if s == [] then []
    else if IsWhitespace(s[0]) then SplitWhitespace(s[1..])
    else
      var n := TokenLength(s);
      [s[..n]] + SplitWhitespace(s[n..])
  }

  /** The characters of `s` that are not White_Space, in order. */
  function Visible(s: string): string {
    if s == [] then [] else (if IsWhitespace(s[0]) then [] else [s[0]]) + Visible(s[1..])
  }

  lemma {:induction false} VisibleConcat(a: string, b: string)
    ensures Visible(a + b) == Visible(a) + Visible(b)
  {
    if a != [] {
      assert (a + b)[0] == a[0] && (a + b)[1..] == a[1..] + b;
      VisibleConcat(a[1..], b);
    } else {
      assert a + b == b;
    }
  }

  lemma {:induction false} VisibleOfToken(s: string)
    requires forall i | 0 <= i < |s| :: !IsWhitespace(s[i])
    ensures Visible(s) == s
  {
    if s != [] {
      VisibleOfToken(s[1..]);
    }
  }

  /** The tokens, glued back together, are exactly the non-White_Space characters:
      nothing is dropped or reordered. */
  lemma {:induction false} SplitWhitespaceKeepsText(s: string)
    ensures Concat(SplitWhitespace(s)) == Visible(s)
    decreases |s|
  {
    if s != [] {
      if IsWhitespace(s[0]) {
        SplitWhitespaceKeepsText(s[1..]);
      } else {
        var n := TokenLength(s);
        assert s == s[..n] + s[n..];
        VisibleConcat(s[..n], s[n..]);
        VisibleOfToken(s[..n]);
        SplitWhitespaceKeepsText(s[n..]);
        assert SplitWhitespace(s)[1..] == SplitWhitespace(s[n..]);
      }
    }
  }

  lemma {:induction false} TokenLengthConcat(a: string, b: string)
    ensures TokenLength(a + b) == if TokenLength(a) < |a| then TokenLength(a) else |a| + TokenLength(b)
  {
    if a == [] {
      assert a + b == b;
    } else if !IsWhitespace(a[0]) {
      assert (a + b)[0] == a[0] && (a + b)[1..] == a[1..] + b;
      TokenLengthConcat(a[1..], b);
    }
  }

  /** White_Space at the end of a text starts no word. */
  lemma {:induction false} SplitWhitespaceTrailing(a: string, w: char)
    requires IsWhitespace(w)
    ensures SplitWhitespace(a + [w]) == SplitWhitespace(a)
    decreases |a|
  {
    var s := a + [w];
    if a == [] {
      assert SplitWhitespace(s) == SplitWhitespace(s[1..]);
      assert s[1..] == [];
    } else {
      assert s[0] == a[0] && s[1..] == a[1..] + [w];
      if IsWhitespace(a[0]) {
        SplitWhitespaceTrailing(a[1..], w);
      } else {
        TokenLengthConcat(a, [w]);
        var n := TokenLength(a);
        assert TokenLength(s) == n;
        assert s[..n] == a[..n];
        if n < |a| {
          assert s[n..] == a[n..] + [w];
          SplitWhitespaceTrailing(a[n..], w);
        } else {
          assert s[n..] == [w];
          assert SplitWhitespace([w]) == SplitWhitespace([w][1..]);
          assert a[n..] == [];
        }
      }
    }
  }

  /** Texts glued at White_Space split into the words of each part. */
  lemma {:induction false} SplitWhitespaceConcat(a: string, b: string)
    requires a != [] ==> IsWhitespace(a[|a| - 1])
    ensures SplitWhitespace(a + b) == SplitWhitespace(a) + SplitWhitespace(b)
    decreases |a|
  {
    var s := a + b;
    if a == [] {
      assert s == b;
    } else {
      assert s[0] == a[0] && s[1..] == a[1..] + b;
      if IsWhitespace(a[0]) {
        SplitWhitespaceConcat(a[1..], b);
      } else {
        TokenLengthConcat(a, b);
        var n := TokenLength(a);
        assert n < |a|;
        assert TokenLength(s) == n;
        assert s[..n] == a[..n];
        assert s[n..] == a[n..] + b;
        SplitWhitespaceConcat(a[n..], b);
      }
    }
  }

  /** A text with no White_Space at all is a single word (or none when empty). */
  lemma WordOfToken(s: string)
    requires s != []
    requires forall i | 0 <= i < |s| :: !IsWhitespace(s[i])
    ensures SplitWhitespace(s) == [s]
  {
    var n := TokenLength(s);
    assert n == |s|;
    assert s[..n] == s;
  }

  // ---------------------------------------------------------------------------
  // to_lowercase (ASCII part) and integer to_string
  // ---------------------------------------------------------------------------

  function LowerChar(c: char): char {
    if 'A' <= c <= 'Z' then (c as int + 32) as char else c
  }

  /** `str::to_lowercase` restricted to the ASCII letters. */
  function ToLower(s: string): (r: string)
    ensures |r| == |s|
    ensures forall i | 0 <= i < |s| :: r[i] == LowerChar(s[i])
  {
    seq(|s|, i requires 0 <= i < |s| => LowerChar(s[i]))
  }

  lemma ToLowerIdempotent(s: string)
    ensures ToLower(ToLower(s)) == ToLower(s)
  {
  }

  predicate IsDigit(c: char) {
    '0' <= c <= '9'
  }

  function DigitChar(d: nat): char
    requires d < 10
  {
    ('0' as int + d) as char
  }

  /** `usize::to_string`: the decimal numeral, without leading zeros. */
  function NatToString(n: nat): (r: string)
    ensures r != []
    ensures forall i | 0 <= i < |r| :: IsDigit(r[i])
    ensures |r| > 1 ==> r[0] != '0'
  {
    if n < 10 then [DigitChar(n)] else NatToString(n / 10) + [DigitChar(n % 10)]
  }

  /** Reading the numeral back as a decimal number gives `n`. */
  function DecimalValue(s: string): nat
    requires forall i | 0 <= i < |s| :: IsDigit(s[i])
  {
    if s == [] then 0
    else
      var last := s[|s| - 1];
      assert IsDigit(last);
      DecimalValue(s[..|s| - 1]) * 10 + (last as int - '0' as int)
  }

  lemma {:induction false} NatToStringRoundTrip(n: nat)
    ensures DecimalValue(NatToString(n)) == n
  {
    if n >= 10 {
      var r := NatToString(n);
      assert r[..|r| - 1] == NatToString(n / 10);
      NatToStringRoundTrip(n / 10);
    }
  }
}
