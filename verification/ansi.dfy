/**
  Visible width of terminal text (src/lib/helpers/ansi.rs). The Rust function walks the
  characters with nested loops; here the same walk is a three-state machine:

  - `Normal`: every character but ESC takes one cell; ESC enters `Escape`.
  - `Escape` (the `'esc_sequence` loop): '[' starts a CSI; any other character, ESC
    included, takes one cell and the loop stays in `Escape`.
  - `Csi`: characters are swallowed until a final byte in 0x40-0x7E (section 5.4 of
    ECMA-48), which returns to `Normal`; end of text ends the sequence too.
 */
module Ansi {

  const ESC: char := '\U{1b}'

  datatype State = Normal | Escape | Csi

  /** A CSI final byte: 0x40-0x7E, ASCII '@' through '~'. */
  predicate IsFinalByte(c: char) {
    '@' <= c <= '~'
  }

  /** Whether reading `c` in state `st` adds a cell. */
  predicate Counts(st: State, c: char) {
    match st
    case Normal => c != ESC
    case Escape => c != '['
    case Csi => false
  }

  function Step(st: State, c: char): State {
    match st
    case Normal => if c == ESC then Escape else Normal
    case Escape => if c == '[' then Csi else Escape
    case Csi => if IsFinalByte(c) then Normal else Csi
  }

  /** Cells counted while reading `s` from state `st`. */
  function Width(st: State, s: string): nat
    decreases |s|
  {
    if s == [] then 0 else (if Counts(st, s[0]) then 1 else 0) + Width(Step(st, s[0]), s[1..])
  }

  /** The state after reading `s` from `st`. */
  function After(st: State, s: string): State
    decreases |s|
  {
    if s == [] then st else After(Step(st, s[0]), s[1..])
  }

  /** `visible_width` */
  function VisibleWidth(s: string): (width: nat)
    ensures width <= |s|
  {
    WidthAtMostLength(Normal, s);
    Width(Normal, s)
  }

  /** Text that leaves the counter back in `Normal`: no escape sequence left open. */
  predicate Settled(s: string) {
    After(Normal, s) == Normal
  }

  /**
    The Rust loop structure itself: the outer `while let`, the `'esc_sequence` loop and
    the CSI `loop` that consumes through the final byte (or to the end of the text).
   */
  method CountVisible(s: string) returns (width: nat)
    ensures width == VisibleWidth(s)
  {
    width := 0;
    var i := 0;
    while i < |s|
      invariant 0 <= i <= |s|
      invariant width + Width(Normal, s[i..]) == VisibleWidth(s)
      decreases |s| - i
    {
      var c := s[i];
      assert s[i..][1..] == s[i + 1..];
      i := i + 1;
      if c != ESC {
        width := width + 1;
      } else {
        var start := i;
        var inEscape := true;
        while inEscape && i < |s|
          invariant start <= i <= |s|
          invariant inEscape ==> width + Width(Escape, s[i..]) == VisibleWidth(s)
          invariant !inEscape ==> width + Width(Normal, s[i..]) == VisibleWidth(s)
        {
          var c2 := s[i];
          assert s[i..][1..] == s[i + 1..];
          i := i + 1;
          if c2 == '[' {
            while i < |s| && !IsFinalByte(s[i])
              invariant start <= i <= |s|
              invariant width + Width(Csi, s[i..]) == VisibleWidth(s)
            {
              assert s[i..][1..] == s[i + 1..];
              i := i + 1;
            }
            if i < |s| {
              assert s[i..][1..] == s[i + 1..];
              i := i + 1;
            }
            inEscape := false;
          } else {
            width := width + 1;
          }
        }
      }
    }
  }

  /** Reading `a + b` is reading `a`, then `b` from wherever `a` left the machine. */
  lemma {:induction false} WidthConcat(st: State, a: string, b: string)
    ensures Width(st, a + b) == Width(st, a) + Width(After(st, a), b)
    ensures After(st, a + b) == After(After(st, a), b)
    decreases |a|
  {
    if a == [] {
      assert a + b == b;
    } else {
      assert (a + b)[0] == a[0] && (a + b)[1..] == a[1..] + b;
      WidthConcat(Step(st, a[0]), a[1..], b);
    }
  }

  /** Text that ends outside any escape sequence can be measured piece by piece. */
  lemma SettledConcat(a: string, b: string)
    requires Settled(a)
    ensures VisibleWidth(a + b) == VisibleWidth(a) + VisibleWidth(b)
    ensures Settled(a + b) <==> Settled(b)
  {
    WidthConcat(Normal, a, b);
  }

  /** The width never exceeds the number of characters. */
  lemma {:induction false} WidthAtMostLength(st: State, s: string)
    ensures Width(st, s) <= |s|
    decreases |s|
  {
    if s != [] {
      WidthAtMostLength(Step(st, s[0]), s[1..]);
    }
  }

  /** With no ESC in the text, every character is one cell and nothing stays open. */
  lemma {:induction false} PlainWidth(s: string)
    requires ESC !in s
    ensures VisibleWidth(s) == |s|
    ensures Settled(s)
  {
    if s != [] {
      assert ESC !in s[1..] by {
        assert forall x | x in s[1..] :: x in s;
      }
      PlainWidth(s[1..]);
    }
  }

  /** "Hello World!" is twelve cells wide. */
  lemma HelloWorldWidth()
    ensures VisibleWidth("Hello World!") == 12
  {
    PlainWidth("Hello World!");
  }

  /** The empty string has no width. */
  lemma EmptyWidth()
    ensures VisibleWidth("") == 0
  {
  }

  /** Parameter and intermediate bytes of a CSI: anything but a final byte. */
  predicate NoFinalByte(s: string) {
    forall i | 0 <= i < |s| :: !IsFinalByte(s[i])
  }

  /** Inside a CSI, text without a final byte is swallowed whole. */
  lemma {:induction false} CsiSwallows(s: string)
    requires NoFinalByte(s)
    ensures Width(Csi, s) == 0
    ensures After(Csi, s) == Csi
  {
    if s != [] {
      CsiSwallows(s[1..]);
    }
  }

  /** A complete control sequence ESC '[' params final. */
  function ControlSequence(params: string, final: char): string {
    [ESC, '['] + params + [final]
  }

  /** A complete CSI takes no cells and leaves the counter in `Normal`. */
  lemma CompleteCsiIsInvisible(params: string, final: char)
    requires NoFinalByte(params) && IsFinalByte(final)
    ensures VisibleWidth(ControlSequence(params, final)) == 0
    ensures Settled(ControlSequence(params, final))
  {
    var cs := ControlSequence(params, final);
    WidthConcat(Normal, [ESC, '['], params + [final]);
    assert cs == [ESC, '['] + (params + [final]);
    WidthConcat(Csi, params, [final]);
    CsiSwallows(params);
  }

  /** An ESC in settled text opens a sequence and takes no cell itself. */
  lemma EscapeTakesNoCell(pre: string, post: string)
    requires Settled(pre)
    ensures VisibleWidth(pre + [ESC] + post) == VisibleWidth(pre) + Width(Escape, post)
  {
    WidthConcat(Normal, pre, [ESC] + post);
    assert pre + [ESC] + post == pre + ([ESC] + post);
    assert ([ESC] + post)[1..] == post;
  }

  /** A CSI that never meets a final byte swallows the rest of the text. */
  lemma UnterminatedCsiSwallowsRest(pre: string, rest: string)
    requires Settled(pre) && NoFinalByte(rest)
    ensures VisibleWidth(pre + [ESC, '['] + rest) == VisibleWidth(pre)
  {
    assert pre + [ESC, '['] + rest == pre + ([ESC, '['] + rest);
    WidthConcat(Normal, pre, [ESC, '['] + rest);
    WidthConcat(Normal, [ESC, '['], rest);
    CsiSwallows(rest);
  }

  /** Inserting a complete CSI between settled pieces adds no width. */
  lemma {:induction false} CsiBetween(a: string, params: string, final: char, b: string)
    requires Settled(a) && NoFinalByte(params) && IsFinalByte(final)
    ensures VisibleWidth(a + ControlSequence(params, final) + b) == VisibleWidth(a) + VisibleWidth(b)
    ensures Settled(b) ==> Settled(a + ControlSequence(params, final) + b)
  {
    var cs := ControlSequence(params, final);
    CompleteCsiIsInvisible(params, final);
    WidthConcat(Normal, a, cs);
    WidthConcat(Normal, a + cs, b);
  }

  /** Wrapping settled text in a colour code and a reset keeps its width. */
  lemma ColourWrapKeepsWidth(open: string, t: string, openFinal: char, close: string, closeFinal: char)
    requires NoFinalByte(open) && IsFinalByte(openFinal)
    requires NoFinalByte(close) && IsFinalByte(closeFinal)
    requires Settled(t)
    ensures VisibleWidth(ControlSequence(open, openFinal) + t + ControlSequence(close, closeFinal)) == VisibleWidth(t)
    ensures Settled(ControlSequence(open, openFinal) + t + ControlSequence(close, closeFinal))
  {
    CsiBetween([], open, openFinal, t);
    assert [] + ControlSequence(open, openFinal) + t == ControlSequence(open, openFinal) + t;
    CsiBetween(ControlSequence(open, openFinal) + t, close, closeFinal, []);
    assert ControlSequence(open, openFinal) + t + ControlSequence(close, closeFinal) + []
      == ControlSequence(open, openFinal) + t + ControlSequence(close, closeFinal);
  }

  /** Plain text in a colour code and a reset (the source's test: ESC "[31m" "Hello World!"
      ESC "[0m") is as wide as the text alone. */
  lemma ColouredPlainText(t: string)
    requires ESC !in t
    ensures VisibleWidth(ControlSequence("31", 'm') + t + ControlSequence("0", 'm')) == |t|
  {
    PlainWidth(t);
    ColourWrapKeepsWidth("31", t, 'm', "0", 'm');
  }

  /** A colour change nested inside the coloured span (ESC "[31m" "Hello " ESC "[32m"
      "World!" ESC "[0m") does not change the width either. */
  lemma NestedColourPlainText(a: string, b: string)
    requires ESC !in a && ESC !in b
    ensures VisibleWidth(ControlSequence("31", 'm') + a + ControlSequence("32", 'm') + b + ControlSequence("0", 'm'))
         == |a| + |b|
  {
    PlainWidth(a);
    PlainWidth(b);
    CsiBetween(a, "32", 'm', b);
    var inner := a + ControlSequence("32", 'm') + b;
    ColourWrapKeepsWidth("31", inner, 'm', "0", 'm');
    assert ControlSequence("31", 'm') + a + ControlSequence("32", 'm') + b + ControlSequence("0", 'm')
        == ControlSequence("31", 'm') + inner + ControlSequence("0", 'm');
  }
}
