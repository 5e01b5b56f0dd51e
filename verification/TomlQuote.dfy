/** Quoting strings in the forms of TOML v1.0.0, and reading them back. */
module TomlQuote {
  import opened Base
  import opened TomlInline

  /** The ways TOML v1.0.0 writes a string; those that start a multi-line string add a line feed. */
  datatype Style = Basic | MultiBasic | Literal | TripleLiteral | MultiLiteral

  /** The character a backslash is followed by. */
  function ShortEscape(c: char): Option<char> {
    if c == '"' || c == '\\' then Some(c)
    else if c == '\U{8}' then Some('b')
    else if c == '\t' then Some('t')
    else if c == '\n' then Some('n')
    else if c == '\U{C}' then Some('f')
    else if c == '\r' then Some('r')
    else None
  }

  function HexDigit(n: nat): char
    requires n < 16
  {
    "0123456789ABCDEF"[n]
  }

  /** A character of a basic string; a multi-line one keeps line feeds. */
  function CharText(c: char, multi: bool): (r: string)
    ensures r != "" && r[0] != '"'
  {
    if c == '\n' && multi then [c]
    else if ShortEscape(c).Some? then ['\\', ShortEscape(c).value]
    else if c < ' ' || c == '\U{7F}' then ['\\', 'u', '0', '0', HexDigit(c as int / 16), HexDigit(c as int % 16)]
    else [c]
  }

  function Escape(s: string, multi: bool): string {
    if s == "" then "" else CharText(s[0], multi) + Escape(s[1..], multi)
  }

  function Opening(style: Style): string {
    match style
    case Basic => "\""
    case MultiBasic => "\"\"\"\n"
    case Literal => "'"
    case TripleLiteral => "'''"
    case MultiLiteral => "'''\n"
  }

  function Closing(style: Style): string {
    match style
    case Basic => "\""
    case MultiBasic => "\"\"\""
    case Literal => "'"
    case _ => "'''"
  }

  function Body(style: Style, s: string): string {
    if style.Basic? || style.MultiBasic? then Escape(s, style.MultiBasic?) else s
  }

  function QuoteAs(style: Style, s: string): string { Opening(style) + (Body(style, s) + Closing(style)) }

  /** Three single quotes occur first where `s` ends. */
  predicate NoTriple(s: string) {
    && (forall i :: 0 <= i < |s| - 2 ==> !(s[i] == s[i + 1] == s[i + 2] == '\''))
    && (s != "" ==> s[|s| - 1] != '\'')
  }

  /** A literal has no escapes, so it cannot hold everything. */
  predicate Fits(style: Style, s: string) {
    match style
    case Literal => '\'' !in s
    case TripleLiteral => NoTriple(s) && '\n' !in s
    case MultiLiteral => NoTriple(s)
    case _ => true
  }

  /** Quoting every text in a style of its own. */
  function Styled(style: string -> Style): Quoter { (s: string) => QuoteAs(style(s), s) }

  // ----- reading a string back -----

  /** The style can be read off the first four characters. */
  function StyleSeen(u: string): Style
    requires u != ""
  {
    var triple := |u| >= 3 && u[1] == u[0] && u[2] == u[0];
    if u[0] == '"' then if triple then MultiBasic else Basic
    else if !triple then Literal
    else if |u| > 3 && u[3] == '\n' then MultiLiteral
    else TripleLiteral
  }

  function HexValue(c: char): nat {
    if '0' <= c <= '9' then c as nat - '0' as nat
    else if 'A' <= c <= 'F' then c as nat - 'A' as nat + 10
    else 0
  }

  /** The character an escape of one letter stands for. */
  function Unescape(c: char): Option<char> {
    if c == '"' || c == '\\' then Some(c)
    else if c == 'b' then Some('\U{8}')
    else if c == 't' then Some('\t')
    else if c == 'n' then Some('\n')
    else if c == 'f' then Some('\U{C}')
    else if c == 'r' then Some('\r')
    else None
  }

  /** The first character of a basic string and what follows it, escapes undone. */
  function ReadChar(text: string): (r: Option<(char, string)>)
    ensures r.Some? ==> |r.value.1| < |text|
  {
    if text == "" then None
    else if text[0] != '\\' then Some((text[0], text[1..]))
    else if |text| < 2 then None
    else if Unescape(text[1]).Some? then Some((Unescape(text[1]).value, text[2..]))
    else if text[1] == 'u' && |text| >= 6 then
      var code := 4096 * HexValue(text[2]) + 256 * HexValue(text[3]) + 16 * HexValue(text[4]) + HexValue(text[5]);
      if code < 0xD800 then Some((code as char, text[6..])) else None
    else None
  }

  /** A basic string up to `close`. */
  function ReadBasic(text: string, close: string): Option<(string, string)>
    decreases |text|
  {
    if close <= text then Some(("", text[|close|..]))
    else match ReadChar(text)
      case None => None
      case Some((c, rest)) =>
        match ReadBasic(rest, close) case Some((s, after)) => Some(([c] + s, after)) case None => None
  }

  /** A literal string up to `close`. */
  function ReadLiteral(text: string, close: string): Option<(string, string)>
    decreases |text|
  {
    if close <= text then Some(("", text[|close|..]))
    else if text == "" then None
    else match ReadLiteral(text[1..], close)
      case Some((s, after)) => Some(([text[0]] + s, after))
      case None => None
  }

  /** A TOML string off the front of a text; a line feed right after three quotes is not part of it. */
  function ReadString(text: string): Option<(string, string)> {
    if text == "" then None
    else match StyleSeen(text)
      case Basic => ReadBasic(text[1..], "\"")
      case Literal => ReadLiteral(text[1..], "'")
      case MultiBasic => ReadBasic(text[if |text| > 3 && text[3] == '\n' then 4 else 3..], "\"\"\"")
      case TripleLiteral => ReadLiteral(text[3..], "'''")
      case MultiLiteral => ReadLiteral(text[4..], "'''")
  }

  lemma HexReads(n: nat)
    requires n < 16
    ensures HexValue(HexDigit(n)) == n
  {
    assert HexDigit(n) == if n < 10 then '0' + n as char else 'A' + (n - 10) as char;
  }

  lemma CharReads(c: char, multi: bool, rest: string)
    ensures ReadChar(CharText(c, multi) + rest) == Some((c, rest))
  {
    var code := CharText(c, multi);
    var text := code + rest;
    assert text[0] == code[0] && text[|code|..] == rest;
    if |code| > 1 { assert text[1] == code[1]; }
    if |code| > 2 {
      assert text[2] == '0' && text[3] == '0' && text[4] == code[4] && text[5] == code[5];
      HexReads(c as nat / 16);
      HexReads(c as nat % 16);
    }
  }

  lemma {:induction false} BasicReads(s: string, multi: bool, close: string, rest: string)
    requires close != "" && close[0] == '"'
    ensures ReadBasic(Escape(s, multi) + (close + rest), close) == Some((s, rest))
    decreases |s|
  {
    var end := close + rest;
    if s == "" {
      assert "" + end == end;
      assert end[..|close|] == close && end[|close|..] == rest;
    } else {
      Associate(CharText(s[0], multi), Escape(s[1..], multi), end);
      var text := CharText(s[0], multi) + (Escape(s[1..], multi) + end);
      assert text[0] == CharText(s[0], multi)[0] != close[0];
      CharReads(s[0], multi, Escape(s[1..], multi) + end);
      BasicReads(s[1..], multi, close, rest);
      assert s == [s[0]] + s[1..];
    }
  }

  /** `close` begins in `s` nowhere, also not at its end. */
  predicate Ends(s: string, close: string) {
    if close == "'" then '\'' !in s else close == "'''" && NoTriple(s)
  }

  lemma {:induction false} LiteralReads(s: string, close: string, rest: string)
    requires Ends(s, close)
    ensures ReadLiteral(s + (close + rest), close) == Some((s, rest))
    decreases |s|
  {
    var end := close + rest;
    var text := s + end;
    if s == "" {
      assert "" + end == end;
      assert end[..|close|] == close && end[|close|..] == rest;
    } else {
      assert text[0] == s[0] && text[1..] == s[1..] + end;
      NotYet(s, close, text);
      LiteralReads(s[1..], close, rest);
      assert s == [s[0]] + s[1..];
    }
  }

  lemma NotYet(s: string, close: string, text: string)
    requires s != "" && Ends(s, close) && |text| >= |s| + |close| && forall i :: 0 <= i < |s| ==> text[i] == s[i]
    ensures !(close <= text) && Ends(s[1..], close)
  {
    if close == "'" {
      assert s[0] in s && text[0] != '\'';
    } else {
      assert text[|s| - 1] == s[|s| - 1] != '\'';
      assert !(text[0] == text[1] == text[2] == '\'');
    }
  }

  // ----- every style -----

  /** A text with a single quote at either end does not look like one with three. */
  lemma NotTriple(c: char, body: string, a: string)
    requires IsQuote(c) && Follows(a) && (body != "" ==> body[0] != c)
    ensures var u := [c] + (body + [c]) + a; !(|u| >= 3 && u[1] == c && u[2] == c)
  {
    var u := [c] + (body + [c]) + a;
    if body == "" {
      assert u == [c, c] + a;
      assert a != "" ==> u[2] == a[0];
    } else {
      assert u[1] == body[0];
    }
  }

  lemma TripleStart(style: Style, s: string, a: string)
    requires !style.Basic? && !style.Literal? && Fits(style, s)
    ensures StyleSeen(QuoteAs(style, s) + a) == style
  {
    var u := QuoteAs(style, s) + a;
    assert u[0] == Opening(style)[0] && u[1] == Opening(style)[1] && u[2] == Opening(style)[2];
    if style.MultiLiteral? { assert u[3] == Opening(style)[3]; }
    if style.TripleLiteral? { assert u[3] == if s == "" then '\'' else s[0]; }
  }

  lemma StyleShown(style: Style, s: string, a: string)
    requires Fits(style, s) && Follows(a)
    ensures QuoteAs(style, s) + a != "" && StyleSeen(QuoteAs(style, s) + a) == style
  {
    match style
    case Basic =>
      assert Escape(s, false) != "" ==> Escape(s, false)[0] != '"';
      NotTriple('"', Escape(s, false), a);
    case Literal => NotTriple('\'', s, a);
    case _ => TripleStart(style, s, a);
  }

  lemma Opened(open: string, body: string, close: string, rest: string)
    ensures (open + (body + close) + rest)[|open|..] == body + (close + rest)
  {
  }

  /** Whatever style a text is quoted in, as long as it fits, the reader gives it back. */
  lemma QuotedReads(style: Style, s: string, rest: string)
    requires Fits(style, s) && Follows(rest)
    ensures ReadString(QuoteAs(style, s) + rest) == Some((s, rest))
  {
    var text := QuoteAs(style, s) + rest;
    StyleShown(style, s, rest);
    Opened(Opening(style), Body(style, s), Closing(style), rest);
    match style
    case Basic => BasicReads(s, false, "\"", rest);
    case MultiBasic =>
      assert text[3] == Opening(style)[3];
      BasicReads(s, true, "\"\"\"", rest);
    case Literal => LiteralReads(s, "'", rest);
    case _ => LiteralReads(s, "'''", rest);
  }

  lemma StyledUnquotes(style: string -> Style)
    requires forall s: string :: Fits(style(s), s)
    ensures Unquotes(ReadString, Styled(style))
  {
    var q := Styled(style);
    forall s: string, rest: string | Follows(rest) ensures ReadString(q(s) + rest) == Some((s, rest)) {
      QuotedReads(style(s), s, rest);
    }
  }

  /** So the quoted texts delimit themselves. */
  lemma StyledDelimits(style: string -> Style)
    requires forall s: string :: Fits(style(s), s)
    ensures SelfDelimiting(Styled(style))
  {
    StyledUnquotes(style);
    ReadersDelimit(ReadString, Styled(style));
  }

  function BasicQuote(s: string): string { QuoteAs(Basic, s) }

  lemma BasicQuoteDelimits()
    ensures SelfDelimiting(BasicQuote)
  {
    StyledDelimits((s: string) => Basic);
    assert forall s: string :: Styled((t: string) => Basic)(s) == BasicQuote(s);
  }

  /** A literal where one saves escapes and fits, on several lines where the text has several. */
  function Mixed(s: string): Style {
    var multi := '\n' in s;
    if ('"' in s || '\\' in s) && NoTriple(s) then
      if multi then MultiLiteral else if '\'' in s then TripleLiteral else Literal
    else if multi then MultiBasic else Basic
  }

  /** One quoter that mixes all five styles, and writes the empty string as two quotes. */
  lemma MixedDelimits()
    ensures SelfDelimiting(Styled(Mixed)) && Unquotes(ReadString, Styled(Mixed)) && Styled(Mixed)("") == "\"\""
  {
    StyledUnquotes(Mixed);
    StyledDelimits(Mixed);
  }
}
