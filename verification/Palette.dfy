/** The styling decision of `cclaw` and the text it produces. */
module Palette {
  import opened Base

  const ESC: char := 27 as char

  datatype Style = Green | Yellow | Red | Bold | Dim | Strike

  /** An SGR sequence (ECMA-48 section 8.3.117). */
  function Sgr(params: string): string {
    [ESC, '['] + params + ['m']
  }

  function Params(style: Style): string {
    match style
    case Green => "32"
    case Yellow => "33"
    case Red => "31"
    case Bold => "1"
    case Dim => "2"
    case Strike => "9"
  }

  /** anstyle closes every styled run with the full reset. */
  const RESET: string := "0"

  /** CR plus Erase in Line to the end (ECMA-48 section 8.3.41). */
  const REPAINT: string := ['\r', ESC, '[', 'K']

  datatype Palette = Palette(color: bool) {
    function Paint(style: Style, text: string): string {
      if color then Sgr(Params(style)) + text + Sgr(RESET) else text
    }

    function RepaintPrefix(): string {
      if color then REPAINT else ""
    }
  }

  /** A piece of a line: verbatim text, or text in one style. */
  datatype Span = Text(text: string) | Styled(style: Style, text: string)

  type Line = seq<Span>

  function ShowSpan(p: Palette, span: Span): string {
    match span
    case Text(t) => t
    case Styled(style, t) => p.Paint(style, t)
  }

  function Show(p: Palette, line: Line): string {
    if line == [] then "" else ShowSpan(p, line[0]) + Show(p, line[1..])
  }

  function ShowAll(p: Palette, lines: seq<Line>): seq<string> {
    seq(|lines|, i requires 0 <= i < |lines| => Show(p, lines[i]))
  }

  /** What drives a terminal: escape sequences, and going back to the start of the row. */
  type Control = c: char | c == ESC || c == '\r' witness '\r'

  predicate Free(bad: Control, s: string) {
    forall i :: 0 <= i < |s| ==> s[i] != bad
  }

  predicate LineFree(bad: Control, line: Line) {
    forall i :: 0 <= i < |line| ==> Free(bad, line[i].text)
  }

  predicate IsParam(c: char) { '0' <= c <= '9' || c == ';' }

  /** How many characters of `s` are SGR parameters. */
  function ParamRun(s: string): (n: nat)
    ensures n <= |s|
  {
    if s == "" || !IsParam(s[0]) then 0 else 1 + ParamRun(s[1..])
  }

  /** The length of the SGR sequence `s` begins with, 0 when it begins with none. */
  function SgrLength(s: string): (n: nat)
    ensures n <= |s|
  {
    if |s| < 3 || s[0] != ESC || s[1] != '[' then 0
    else
      var n := ParamRun(s[2..]);
      if 2 + n < |s| && s[2 + n] == 'm' then 3 + n else 0
  }

  /** `s` without its styling codes. */
  function StripSgr(s: string): string
    decreases |s|
  {
    if s == "" then ""
    else if SgrLength(s) > 0 then StripSgr(s[SgrLength(s)..])
    else [s[0]] + StripSgr(s[1..])
  }

  lemma {:induction false} StripText(t: string, tail: string)
    requires Free(ESC, t)
    ensures StripSgr(t + tail) == t + StripSgr(tail)
  {
    if t == "" {
      assert t + tail == tail;
    } else {
      StripText(t[1..], tail);
      assert (t + tail)[1..] == t[1..] + tail;
      Associate([t[0]], t[1..], StripSgr(tail));
      assert t == [t[0]] + t[1..];
    }
  }

  lemma {:induction false} ParamRunStops(params: string, rest: string)
    requires forall i :: 0 <= i < |params| ==> IsParam(params[i])
    requires rest != "" && !IsParam(rest[0])
    ensures ParamRun(params + rest) == |params|
  {
    if params == "" {
      assert params + rest == rest;
    } else {
      ParamRunStops(params[1..], rest);
      assert (params + rest)[1..] == params[1..] + rest;
    }
  }

  lemma StripCode(params: string, tail: string)
    requires forall i :: 0 <= i < |params| ==> IsParam(params[i])
    ensures StripSgr(Sgr(params) + tail) == StripSgr(tail)
  {
    var s := Sgr(params) + tail;
    assert s[2..] == params + (['m'] + tail);
    ParamRunStops(params, ['m'] + tail);
    assert s[|params| + 3..] == tail;
  }

  lemma StripWrapped(params: string, t: string, off: string, tail: string)
    requires Free(ESC, t) && forall i :: 0 <= i < |params| ==> IsParam(params[i])
    requires StripSgr(off + tail) == StripSgr(tail)
    ensures StripSgr((Sgr(params) + t + off) + tail) == t + StripSgr(tail)
  {
    AssociateFour(Sgr(params), t, off, tail);
    StripText(t, off + tail);
    StripCode(params, t + (off + tail));
  }

  lemma StripSpan(span: Span, tail: string)
    requires Free(ESC, span.text)
    ensures StripSgr(ShowSpan(Palette(true), span) + tail) == ShowSpan(Palette(false), span) + StripSgr(tail)
  {
    match span
    case Text(t) => StripText(t, tail);
    case Styled(style, t) => StripStyled(style, t, tail);
  }

  lemma StripStyled(style: Style, t: string, tail: string)
    requires Free(ESC, t)
    ensures StripSgr(Palette(true).Paint(style, t) + tail) == t + StripSgr(tail)
  {
    StripCode(RESET, tail);
    StripWrapped(Params(style), t, Sgr(RESET), tail);
  }

  /** Erasing the styling codes of a coloured line gives the plain line. */
  lemma {:induction false} StripLine(line: Line)
    requires LineFree(ESC, line)
    ensures StripSgr(Show(Palette(true), line)) == Show(Palette(false), line)
  {
    if line == [] {
    } else {
      StripLine(line[1..]);
      StripSpan(line[0], Show(Palette(true), line[1..]));
    }
  }
}
