/** What a terminal shows of a styled line: every character with the rendition in force (ECMA-48 section 8.3.117). */
module Rendition {
  import opened Base
  import opened Palette

  datatype Glyph = Glyph(ch: char, style: Option<Style>)

  /** The rendition an SGR sequence with `params` leaves in force; 0 is the default one. */
  function After(params: string, now: Option<Style>): Option<Style> {
    if params == "0" then None
    else if params == "1" then Some(Bold)
    else if params == "2" then Some(Dim)
    else if params == "9" then Some(Strike)
    else if params == "31" then Some(Red)
    else if params == "32" then Some(Green)
    else if params == "33" then Some(Yellow)
    else now
  }

  function Shown(s: string, now: Option<Style>): seq<Glyph>
    decreases |s|
  {
    if s == "" then []
    else if SgrLength(s) > 0 then Shown(s[SgrLength(s)..], After(s[2..SgrLength(s) - 1], now))
    else [Glyph(s[0], now)] + Shown(s[1..], now)
  }

  /** A line as a terminal shows it. */
  function Seen(line: Line): seq<Glyph> { Shown(Show(Palette(true), line), None) }

  /** `text`, all in one style. */
  function In(style: Option<Style>, text: string): seq<Glyph> {
    seq(|text|, i requires 0 <= i < |text| => Glyph(text[i], style))
  }

  function StyleOf(span: Span): Option<Style> { if span.Styled? then Some(span.style) else None }

  /** Each span in its own style, one after the other. */
  function Spans(line: Line): seq<Glyph> {
    if line == [] then [] else In(StyleOf(line[0]), line[0].text) + Spans(line[1..])
  }

  lemma SpansCons(span: Span, rest: Line)
    ensures Spans([span] + rest) == In(StyleOf(span), span.text) + Spans(rest)
  {
    assert ([span] + rest)[1..] == rest;
  }

  lemma SpansOne(span: Span)
    ensures Spans([span]) == In(StyleOf(span), span.text)
  {
    SpansCons(span, []);
    assert [span] + [] == [span];
    assert In(StyleOf(span), span.text) + Spans([]) == In(StyleOf(span), span.text);
  }

  lemma InCons(style: Option<Style>, text: string)
    requires text != ""
    ensures In(style, text) == [Glyph(text[0], style)] + In(style, text[1..])
  {
  }

  lemma InNothing(style: Option<Style>, rest: seq<Glyph>)
    ensures In(style, "") + rest == rest
  {
  }

  lemma {:induction false} TextShown(t: string, tail: string, now: Option<Style>)
    requires Free(ESC, t)
    ensures Shown(t + tail, now) == In(now, t) + Shown(tail, now)
  {
    if t == "" {
      assert t + tail == tail;
      InNothing(now, Shown(tail, now));
    } else {
      TextShown(t[1..], tail, now);
      assert (t + tail)[1..] == t[1..] + tail;
      InCons(now, t);
      Associate([Glyph(t[0], now)], In(now, t[1..]), Shown(tail, now));
    }
  }

  lemma CodeShown(params: string, tail: string, now: Option<Style>)
    requires forall i :: 0 <= i < |params| ==> IsParam(params[i])
    ensures Shown(Sgr(params) + tail, now) == Shown(tail, After(params, now))
  {
    var s := Sgr(params) + tail;
    assert s[2..] == params + (['m'] + tail);
    ParamRunStops(params, ['m'] + tail);
    assert s[2..|params| + 2] == params && s[|params| + 3..] == tail;
  }

  lemma WrappedShown(params: string, t: string, off: string, tail: string, now: Option<Style>, later: Option<Style>)
    requires Free(ESC, t) && forall i :: 0 <= i < |params| ==> IsParam(params[i])
    requires Shown(off + tail, After(params, now)) == Shown(tail, later)
    ensures Shown((Sgr(params) + t + off) + tail, now) == In(After(params, now), t) + Shown(tail, later)
  {
    AssociateFour(Sgr(params), t, off, tail);
    CodeShown(params, t + (off + tail), now);
    TextShown(t, off + tail, After(params, now));
  }

  /** The codes of a style put that style in force. */
  lemma CodesOfStyle(style: Style)
    ensures After(Params(style), None) == Some(style)
  {
    assert "31"[1] != "32"[1] && "31"[1] != "33"[1] && "32"[1] != "33"[1] && "1"[0] != "2"[0];
  }

  lemma StyledShown(style: Style, t: string, tail: string)
    requires Free(ESC, t)
    ensures Shown(Palette(true).Paint(style, t) + tail, None) == In(Some(style), t) + Shown(tail, None)
  {
    CodesOfStyle(style);
    CodeShown(RESET, tail, Some(style));
    WrappedShown(Params(style), t, Sgr(RESET), tail, None, None);
  }

  /** Every character of a line shows in the style of its own span, and no style leaks out of it. */
  lemma {:induction false} LineSeen(line: Line)
    requires LineFree(ESC, line)
    ensures Seen(line) == Spans(line)
  {
    if line == [] {
    } else {
      LineSeen(line[1..]);
      var rest := Show(Palette(true), line[1..]);
      match line[0]
      case Text(t) => TextShown(t, rest, None);
      case Styled(style, t) => StyledShown(style, t, rest);
    }
  }

  /** The characters shown in one style, in order. */
  function Picked(g: seq<Glyph>, style: Option<Style>): string {
    if g == [] then "" else if g[0].style == style then [g[0].ch] + Picked(g[1..], style) else Picked(g[1..], style)
  }

  lemma {:induction false} PickedAppend(a: seq<Glyph>, b: seq<Glyph>, style: Option<Style>)
    ensures Picked(a + b, style) == Picked(a, style) + Picked(b, style)
  {
    if a == [] {
      assert a + b == b;
    } else {
      assert (a + b)[1..] == a[1..] + b;
      PickedAppend(a[1..], b, style);
      if a[0].style == style { Associate([a[0].ch], Picked(a[1..], style), Picked(b, style)); }
    }
  }

  lemma {:induction false} PickedIn(style: Option<Style>, text: string, other: Option<Style>)
    ensures Picked(In(style, text), other) == if style == other then text else ""
  {
    if text == "" {
    } else {
      PickedIn(style, text[1..], other);
      assert In(style, text)[1..] == In(style, text[1..]);
      assert text == [text[0]] + text[1..];
    }
  }
}
