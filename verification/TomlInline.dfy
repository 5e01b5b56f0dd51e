/** JSON values as inline TOML, and why two different values never print the same text. */
module TomlInline {
  import opened Base
  import opened Decimal
  import opened Json

  /** How the `toml` crate quotes a string. */
  type Quoter = string -> string

  function Inline(q: Quoter, v: Json): string
    decreases v, 0
  {
    match v
    case JNull => "\"\""
    case JBool(b) => if b then "true" else "false"
    case JInt(n) => IntText(n)
    case JFloat(text) => text
    case JStr(s) => q(s)
    case JArr(items) => "[" + Items(q, items) + "]"
    case JObj(fields) => "{ " + Fields(q, fields) + " }"
  }

  /** The items joined by `, `. */
  function Items(q: Quoter, items: seq<Json>): string
    decreases items, 1
  {
    if items == [] then ""
    else if |items| == 1 then Inline(q, items[0])
    else Inline(q, items[0]) + (", " + Items(q, items[1..]))
  }

  /** The `key = value` pairs joined by `, `. */
  function Fields(q: Quoter, fields: seq<Member>): string
    decreases fields, 1
  {
    if fields == [] then ""
    else
      var first := fields[0].key + (" = " + Inline(q, fields[0].value));
      if |fields| == 1 then first else first + (", " + Fields(q, fields[1..]))
  }

  /** `toml_string_array` */
  method TomlStringArray(q: Quoter, items: seq<string>) returns (s: string)
    ensures s == Inline(q, JArr(seq(|items|, i requires 0 <= i < |items| => JStr(items[i]))))
  {
    s := "[";
    var i := 0;
    while i < |items|
      invariant 0 <= i <= |items|
      invariant s == "[" + Items(q, Strings(items[..i]))
    {
      ItemsSnoc(q, Strings(items[..i]), JStr(items[i]));
      assert Strings(items[..i + 1]) == Strings(items[..i]) + [JStr(items[i])];
      if i > 0 {
        s := s + ", ";
      }
      s := s + q(items[i]);
      i := i + 1;
    }
    s := s + "]";
    assert items[..|items|] == items;
  }

  function Strings(items: seq<string>): seq<Json> {
    seq(|items|, i requires 0 <= i < |items| => JStr(items[i]))
  }

  lemma {:induction false} ItemsSnoc(q: Quoter, items: seq<Json>, last: Json)
    ensures Items(q, items + [last]) ==
              if items == [] then Inline(q, last) else Items(q, items) + (", " + Inline(q, last))
  {
    var more := items + [last];
    if items == [] {
      assert more == [last];
    } else {
      ItemsSnoc(q, items[1..], last);
      assert more[0] == items[0] && more[1..] == items[1..] + [last];
      if |items| > 1 {
        Associate(Inline(q, items[0]), ", " + Items(q, items[1..]), ", " + Inline(q, last));
        Associate(", ", Items(q, items[1..]), ", " + Inline(q, last));
      }
    }
  }

  // ----- which values can be read back -----

  predicate IsQuote(c: char) { c == '"' || c == '\'' }

  /** What can follow a value inside a larger text. */
  predicate Follows(rest: string) {
    rest == "" || rest[0] == ',' || rest[0] == ']' || rest[0] == ' '
  }

  /** Quoted text starts with a quote, and where it ends can be told from what follows it. */
  ghost predicate SelfDelimiting(q: Quoter) {
    && (forall s: string :: q(s) != "" && IsQuote(q(s)[0]))
    && (forall s: string, t: string, a: string, b: string ::
          Follows(a) && Follows(b) && q(s) + a == q(t) + b ==> s == t && a == b)
  }

  predicate IsBare(c: char) {
    'a' <= c <= 'z' || 'A' <= c <= 'Z' || '0' <= c <= '9' || c == '_' || c == '-'
  }

  /** A bare key of TOML v1.0.0. */
  predicate BareKey(k: string) {
    k != "" && forall i :: 0 <= i < |k| ==> IsBare(k[i])
  }

  predicate IsNumeric(c: char) {
    IsDigit(c) || c == '-' || c == '+' || c == '.' || c == 'e' || c == 'E'
  }

  /** The printed form of a non-integer number: it has a fraction or an exponent. */
  predicate FloatText(s: string) {
    && s != "" && (IsDigit(s[0]) || s[0] == '-')
    && (forall i :: 0 <= i < |s| ==> IsNumeric(s[i]))
    && ('.' in s || 'e' in s || 'E' in s)
  }

  /** No nulls, and every object key bare, at any depth. */
  predicate Plain(v: Json) {
    match v
    case JNull => false
    case JFloat(text) => FloatText(text)
    case JArr(items) => forall i :: 0 <= i < |items| ==> Plain(items[i])
    case JObj(fields) => forall i :: 0 <= i < |fields| ==> BareKey(fields[i].key) && Plain(fields[i].value)
    case _ => true
  }

  // ----- a reader of inline TOML values -----

  /** Reads a quoted string off the front of a text, and what follows it. */
  type Unquoter = string -> Option<(string, string)>

  /** `u` reads whatever `q` writes. */
  ghost predicate Unquotes(u: Unquoter, q: Quoter) {
    && (forall s: string :: q(s) != "" && IsQuote(q(s)[0]))
    && forall s: string, rest: string :: Follows(rest) ==> u(q(s) + rest) == Some((s, rest))
  }

  /** How many characters of class `p` a text starts with. */
  function Run(p: char -> bool, text: string): (n: nat)
    ensures n <= |text|
  {
    if text == "" || !p(text[0]) then 0 else 1 + Run(p, text[1..])
  }

  /** A fraction or an exponent makes a number a float. */
  function ReadNumber(word: string): Option<Json> {
    if '.' in word || 'e' in word || 'E' in word then Some(JFloat(word))
    else match ParseInt(word) case Some(n) => Some(JInt(n)) case None => None
  }

  /** The value a text starts with, and what follows it. */
  function Read(u: Unquoter, text: string): Option<(Json, string)>
    decreases |text|, 0
  {
    if "true" <= text then Some((JBool(true), text[4..]))
    else if "false" <= text then Some((JBool(false), text[5..]))
    else if text != "" && IsQuote(text[0]) then
      (match u(text) case Some((s, rest)) => Some((JStr(s), rest)) case None => None)
    else if "[]" <= text then Some((JArr([]), text[2..]))
    else if "[" <= text then
      (match ReadItems(u, text[1..]) case Some((items, rest)) => Some((JArr(items), rest)) case None => None)
    else if "{  }" <= text then Some((JObj([]), text[4..]))
    else if "{ " <= text then
      (match ReadFields(u, text[2..]) case Some((fields, rest)) => Some((JObj(fields), rest)) case None => None)
    else
      var n := Run(IsNumeric, text);
      match ReadNumber(text[..n]) case Some(v) => Some((v, text[n..])) case None => None
  }

  /** The values up to the closing bracket. */
  function ReadItems(u: Unquoter, text: string): Option<(seq<Json>, string)>
    decreases |text|, 1
  {
    match Read(u, text)
    case None => None
    case Some((v, rest)) =>
      if "]" <= rest then Some(([v], rest[1..]))
      else if !(", " <= rest) || |rest| >= |text| then None
      else match ReadItems(u, rest[2..]) case Some((vs, after)) => Some(([v] + vs, after)) case None => None
  }

  /** The fields up to the closing brace. */
  function ReadFields(u: Unquoter, text: string): Option<(seq<Member>, string)>
    decreases |text|, 1
  {
    var n := Run(IsBare, text);
    if n == 0 || !(" = " <= text[n..]) then None
    else match Read(u, text[n + 3..])
      case None => None
      case Some((v, rest)) =>
        if " }" <= rest then Some(([Member(text[..n], v)], rest[2..]))
        else if !(", " <= rest) || |rest| >= |text| then None
        else match ReadFields(u, rest[2..])
          case Some((more, after)) => Some(([Member(text[..n], v)] + more, after))
          case None => None
  }

  // ----- what is printed is read back -----

  lemma {:induction false} RunStops(p: char -> bool, word: string, rest: string)
    requires forall i :: 0 <= i < |word| ==> p(word[i])
    requires rest == "" || !p(rest[0])
    ensures Run(p, word + rest) == |word| && (word + rest)[..|word|] == word && (word + rest)[|word|..] == rest
  {
    if word == "" {
      assert word + rest == rest;
    } else {
      assert (word + rest)[1..] == word[1..] + rest;
      RunStops(p, word[1..], rest);
    }
  }

  lemma IntReads(n: int)
    ensures var word := IntText(n);
            && word != "" && (IsDigit(word[0]) || word[0] == '-')
            && (forall i :: 0 <= i < |word| ==> IsNumeric(word[i]))
            && ReadNumber(word) == Some(JInt(n))
  {
    var digits := if n < 0 then NatText(-n) else NatText(n);
    IntRoundTrip(n);
    assert forall i :: 0 <= i < |digits| ==> IsDigit(digits[i]);
  }

  /** What a value's text can begin with. */
  predicate Begins(c: char) { c == 't' || c == 'f' || IsDigit(c) || c == '-' || IsQuote(c) || c == '[' || c == '{' }

  lemma TextBegins(u: Unquoter, q: Quoter, v: Json)
    requires Unquotes(u, q) && Plain(v)
    ensures Inline(q, v) != "" && Begins(Inline(q, v)[0])
  {
    match v
    case JInt(n) => IntReads(n);
    case JStr(s) => assert IsQuote(q(s)[0]);
    case _ =>
  }

  lemma NumberRead(u: Unquoter, word: string, v: Json, rest: string)
    requires word != "" && (IsDigit(word[0]) || word[0] == '-')
    requires forall i :: 0 <= i < |word| ==> IsNumeric(word[i])
    requires ReadNumber(word) == Some(v) && Follows(rest)
    ensures Read(u, word + rest) == Some((v, rest))
  {
    RunStops(IsNumeric, word, rest);
    assert (word + rest)[0] == word[0];
  }

  lemma WordRead(u: Unquoter, b: bool, rest: string)
    ensures Read(u, (if b then "true" else "false") + rest) == Some((JBool(b), rest))
  {
    var word := if b then "true" else "false";
    assert (word + rest)[..|word|] == word && (word + rest)[|word|..] == rest;
    assert (word + rest)[0] == word[0];
  }

  lemma QuotedRead(u: Unquoter, q: Quoter, s: string, rest: string)
    requires Unquotes(u, q) && Follows(rest)
    ensures Read(u, q(s) + rest) == Some((JStr(s), rest))
  {
    assert (q(s) + rest)[0] == q(s)[0] && IsQuote(q(s)[0]);
  }

  /** Every plain value is read back from its text, in any context a value can be followed by. */
  lemma {:induction false} ReadsBack(u: Unquoter, q: Quoter, v: Json, rest: string)
    requires Unquotes(u, q) && Plain(v) && Follows(rest)
    ensures Read(u, Inline(q, v) + rest) == Some((v, rest))
    decreases v, 0
  {
    match v
    case JBool(b) => WordRead(u, b, rest);
    case JInt(n) =>
      IntReads(n);
      NumberRead(u, IntText(n), v, rest);
    case JFloat(text) => NumberRead(u, text, v, rest);
    case JStr(s) => QuotedRead(u, q, s, rest);
    case JArr(items) => ArrayReadsBack(u, q, items, rest);
    case JObj(fields) => TableReadsBack(u, q, fields, rest);
  }

  lemma Framed(open: string, body: string, close: string, rest: string)
    ensures var text := open + body + close + rest;
            text == open + (body + (close + rest)) && text[|open|..] == body + (close + rest) && open <= text
  {
  }

  lemma OpenArray(u: Unquoter, text: string, inner: string, items: seq<Json>, rest: string)
    requires text == "[" + inner && inner != "" && inner[0] != ']' && ReadItems(u, inner) == Some((items, rest))
    ensures Read(u, text) == Some((JArr(items), rest))
  {
    assert text[0] == '[' && text[1] == inner[0] && text[1..] == inner;
  }

  lemma NothingInside(u: Unquoter, rest: string)
    ensures Read(u, "[]" + rest) == Some((JArr([]), rest))
    ensures Read(u, "{  }" + rest) == Some((JObj([]), rest))
  {
    var list, table := "[]" + rest, "{  }" + rest;
    assert list[0] == '[' && list[..2] == "[]" && list[2..] == rest;
    assert table[0] == '{' && table[..4] == "{  }" && table[4..] == rest;
  }

  lemma {:induction false} ArrayReadsBack(u: Unquoter, q: Quoter, items: seq<Json>, rest: string)
    requires Unquotes(u, q) && forall i :: 0 <= i < |items| ==> Plain(items[i])
    ensures Read(u, Inline(q, JArr(items)) + rest) == Some((JArr(items), rest))
    decreases items, 2
  {
    var text := Inline(q, JArr(items)) + rest;
    Framed("[", Items(q, items), "]", rest);
    if items == [] {
      assert text == "[]" + rest;
      NothingInside(u, rest);
    } else {
      ItemsReadBack(u, q, items, rest);
      TextBegins(u, q, items[0]);
      ItemsSplit(q, items, "]" + rest);
      OpenArray(u, text, Items(q, items) + ("]" + rest), items, rest);
    }
  }

  lemma {:induction false} ItemsReadBack(u: Unquoter, q: Quoter, items: seq<Json>, rest: string)
    requires Unquotes(u, q) && items != [] && forall i :: 0 <= i < |items| ==> Plain(items[i])
    ensures ReadItems(u, Items(q, items) + ("]" + rest)) == Some((items, rest))
    decreases items, 1
  {
    var after := AfterItem(q, items, "]" + rest);
    ItemsSplit(q, items, "]" + rest);
    TextBegins(u, q, items[0]);
    ReadsBack(u, q, items[0], after);
    if |items| == 1 {
      assert after[..1] == "]" && after[1..] == rest;
      assert items == [items[0]];
    } else {
      assert after[..2] == ", " && after[2..] == Items(q, items[1..]) + ("]" + rest) && after[0] == ',';
      ItemsReadBack(u, q, items[1..], rest);
      assert items == [items[0]] + items[1..];
    }
  }

  /** The text after the first item of a list that ends in `close`. */
  function AfterItem(q: Quoter, items: seq<Json>, close: string): string
    requires items != []
  {
    if |items| == 1 then close else ", " + (Items(q, items[1..]) + close)
  }

  lemma ItemsSplit(q: Quoter, items: seq<Json>, close: string)
    requires items != []
    ensures Items(q, items) + close == Inline(q, items[0]) + AfterItem(q, items, close)
  {
  }

  function AfterField(q: Quoter, fields: seq<Member>, close: string): string
    requires fields != []
  {
    if |fields| == 1 then close else ", " + (Fields(q, fields[1..]) + close)
  }

  lemma FieldsSplit(q: Quoter, fields: seq<Member>, close: string)
    requires fields != []
    ensures Fields(q, fields) + close
        == fields[0].key + (" = " + (Inline(q, fields[0].value) + AfterField(q, fields, close)))
  {
  }

  lemma OpenTable(u: Unquoter, text: string, inner: string, fields: seq<Member>, rest: string)
    requires text == "{ " + inner && inner != "" && inner[0] != ' ' && ReadFields(u, inner) == Some((fields, rest))
    ensures Read(u, text) == Some((JObj(fields), rest))
  {
    assert text[0] == '{' && text[1] == ' ' && text[2] == inner[0] && text[2..] == inner;
  }

  lemma TableText(q: Quoter, fields: seq<Member>, rest: string)
    ensures Inline(q, JObj(fields)) + rest == "{ " + (Fields(q, fields) + (" }" + rest))
  {
    Framed("{ ", Fields(q, fields), " }", rest);
  }

  lemma TableFramed(u: Unquoter, q: Quoter, fields: seq<Member>, rest: string)
    requires fields != [] && BareKey(fields[0].key)
    requires ReadFields(u, Fields(q, fields) + (" }" + rest)) == Some((fields, rest))
    ensures Read(u, Inline(q, JObj(fields)) + rest) == Some((JObj(fields), rest))
  {
    var inner := Fields(q, fields) + (" }" + rest);
    KeyFirst(q, fields, " }" + rest);
    OpenTable(u, "{ " + inner, inner, fields, rest);
    TableText(q, fields, rest);
  }

  lemma {:induction false} TableReadsBack(u: Unquoter, q: Quoter, fields: seq<Member>, rest: string)
    requires Unquotes(u, q) && forall i :: 0 <= i < |fields| ==> BareKey(fields[i].key) && Plain(fields[i].value)
    ensures Read(u, Inline(q, JObj(fields)) + rest) == Some((JObj(fields), rest))
    decreases fields, 2
  {
    if fields == [] {
      assert Inline(q, JObj(fields)) + rest == "{  }" + rest;
      NothingInside(u, rest);
    } else {
      FieldsReadBack(u, q, fields, rest);
      TableFramed(u, q, fields, rest);
    }
  }

  lemma KeyRead(key: string, more: string)
    requires BareKey(key)
    ensures var text := key + (" = " + more);
            var n := Run(IsBare, text);
            n == |key| > 0 && text[..n] == key && " = " <= text[n..] && text[n + 3..] == more
  {
    RunStops(IsBare, key, " = " + more);
    assert (" = " + more)[..3] == " = " && (" = " + more)[0] == ' ';
  }

  lemma KeyFirst(q: Quoter, fields: seq<Member>, close: string)
    requires fields != [] && BareKey(fields[0].key)
    ensures var text := Fields(q, fields) + close; text != "" && text[0] != ' '
  {
    FieldsSplit(q, fields, close);
    assert IsBare(fields[0].key[0]);
  }

  /** The last field read off the front of a text. */
  lemma LastField(u: Unquoter, key: string, text: string, v: Json, after: string)
    requires BareKey(key) && Read(u, text) == Some((v, after)) && " }" <= after
    ensures ReadFields(u, key + (" = " + text)) == Some(([Member(key, v)], after[2..]))
  {
    KeyRead(key, text);
  }

  lemma MoreFields(u: Unquoter, key: string, text: string, v: Json, after: string, more: seq<Member>, rest: string)
    requires BareKey(key) && Read(u, text) == Some((v, after)) && |after| <= |text|
    requires ", " <= after && ReadFields(u, after[2..]) == Some((more, rest))
    ensures ReadFields(u, key + (" = " + text)) == Some(([Member(key, v)] + more, rest))
  {
    KeyRead(key, text);
    assert after[0] == ',';
  }

  /** The first field read, and the others if there are any. */
  lemma FieldsFramed(u: Unquoter, q: Quoter, fields: seq<Member>, rest: string)
    requires fields != [] && BareKey(fields[0].key)
    requires var after := AfterField(q, fields, " }" + rest);
             Read(u, Inline(q, fields[0].value) + after) == Some((fields[0].value, after))
    requires |fields| > 1 ==> ReadFields(u, Fields(q, fields[1..]) + (" }" + rest)) == Some((fields[1..], rest))
    ensures ReadFields(u, Fields(q, fields) + (" }" + rest)) == Some((fields, rest))
  {
    var after := AfterField(q, fields, " }" + rest);
    var key, text, v := fields[0].key, Inline(q, fields[0].value) + after, fields[0].value;
    FieldsSplit(q, fields, " }" + rest);
    AfterFieldIs(q, fields, rest);
    if |fields| == 1 {
      LastField(u, key, text, v, after);
      assert fields == [Member(key, v)];
    } else {
      MoreFields(u, key, text, v, after, fields[1..], rest);
      assert fields == [Member(key, v)] + fields[1..];
    }
  }

  lemma {:induction false} FieldsReadBack(u: Unquoter, q: Quoter, fields: seq<Member>, rest: string)
    requires Unquotes(u, q) && fields != []
    requires forall i :: 0 <= i < |fields| ==> BareKey(fields[i].key) && Plain(fields[i].value)
    ensures ReadFields(u, Fields(q, fields) + (" }" + rest)) == Some((fields, rest))
    decreases fields, 1
  {
    AfterFieldIs(q, fields, rest);
    ReadsBack(u, q, fields[0].value, AfterField(q, fields, " }" + rest));
    if |fields| > 1 { FieldsReadBack(u, q, fields[1..], rest); }
    FieldsFramed(u, q, fields, rest);
  }

  lemma AfterFieldIs(q: Quoter, fields: seq<Member>, rest: string)
    requires fields != []
    ensures var after := AfterField(q, fields, " }" + rest);
            && Follows(after)
            && if |fields| == 1 then " }" <= after && after[2..] == rest
               else ", " <= after && after[2..] == Fields(q, fields[1..]) + (" }" + rest)
  {
    var after := AfterField(q, fields, " }" + rest);
    assert |fields| == 1 ==> after[..2] == " }" && after[0] == ' ' && after[2..] == rest;
    assert |fields| > 1 ==>
             after[..2] == ", " && after[0] == ',' && after[2..] == Fields(q, fields[1..]) + (" }" + rest);
  }

  // ----- so no two values print alike -----

  /** What can be read back delimits itself. */
  lemma ReadersDelimit(u: Unquoter, q: Quoter)
    requires Unquotes(u, q)
    ensures SelfDelimiting(q)
  {
    forall s: string, t: string, a: string, b: string | Follows(a) && Follows(b) && q(s) + a == q(t) + b
      ensures s == t && a == b
    {
      assert Some((s, a)) == u(q(s) + a) == u(q(t) + b) == Some((t, b));
    }
  }

  /** Some reader for a self-delimiting quoter. */
  ghost function UnquoterOf(q: Quoter): Unquoter {
    (text: string) =>
      if exists s: string, rest: string :: Follows(rest) && text == q(s) + rest
      then var s: string, rest: string :| Follows(rest) && text == q(s) + rest; Some((s, rest))
      else None
  }

  /** Equal texts, each followed by something a value can be followed by, come from equal values. */
  lemma Unambiguous(q: Quoter, v: Json, w: Json, a: string, b: string)
    requires SelfDelimiting(q) && Plain(v) && Plain(w) && Follows(a) && Follows(b)
    requires Inline(q, v) + a == Inline(q, w) + b
    ensures v == w && a == b
  {
    assert Unquotes(UnquoterOf(q), q);
    ReadsBack(UnquoterOf(q), q, v, a);
    ReadsBack(UnquoterOf(q), q, w, b);
  }

  /** Two different plain values never print the same text. */
  lemma InlineInjective(q: Quoter, v: Json, w: Json)
    requires SelfDelimiting(q) && Plain(v) && Plain(w)
    ensures Inline(q, v) == Inline(q, w) <==> v == w
  {
    if Inline(q, v) == Inline(q, w) {
      assert Inline(q, v) + "" == Inline(q, w) + "";
      Unambiguous(q, v, w, "", "");
    }
  }

  // ----- where the text is ambiguous -----

  /** A key that is not bare can imitate two fields. */
  lemma BareKeysNeeded(q: Quoter)
    ensures var one := JObj([Member("a = 1, b", JInt(2))]);
            var two := JObj([Member("a", JInt(1)), Member("b", JInt(2))]);
            one != two && Inline(q, one) == Inline(q, two)
  {
    var fields := [Member("a", JInt(1)), Member("b", JInt(2))];
    assert fields[1..] == [Member("b", JInt(2))];
    assert Fields(q, fields) == "a = 1, b = 2";
    assert Fields(q, [Member("a = 1, b", JInt(2))]) == "a = 1, b = 2";
  }

  // ----- nulls -----

  /** Every null replaced by the empty string. */
  function Denull(v: Json): Json
    decreases v, 0
  {
    match v
    case JNull => JStr("")
    case JArr(items) => JArr(DenullItems(items))
    case JObj(fields) => JObj(DenullFields(fields))
    case _ => v
  }

  function DenullItems(items: seq<Json>): (r: seq<Json>)
    ensures |r| == |items|
    decreases items, 1
  {
    if items == [] then [] else [Denull(items[0])] + DenullItems(items[1..])
  }

  function DenullFields(fields: seq<Member>): (r: seq<Member>)
    ensures |r| == |fields|
    decreases fields, 1
  {
    if fields == [] then [] else [Member(fields[0].key, Denull(fields[0].value))] + DenullFields(fields[1..])
  }

  lemma {:induction false} InlineDenull(q: Quoter, v: Json)
    requires q("") == "\"\""
    ensures Inline(q, Denull(v)) == Inline(q, v)
    decreases v, 0
  {
    match v
    case JArr(items) => ItemsDenull(q, items);
    case JObj(fields) => FieldsDenull(q, fields);
    case _ =>
  }

  lemma {:induction false} ItemsDenull(q: Quoter, items: seq<Json>)
    requires q("") == "\"\""
    ensures Items(q, DenullItems(items)) == Items(q, items)
    decreases items, 1
  {
    if items == [] {
    } else {
      InlineDenull(q, items[0]);
      ItemsDenull(q, items[1..]);
      assert DenullItems(items)[1..] == DenullItems(items[1..]);
    }
  }

  lemma {:induction false} FieldsDenull(q: Quoter, fields: seq<Member>)
    requires q("") == "\"\""
    ensures Fields(q, DenullFields(fields)) == Fields(q, fields)
    decreases fields, 1
  {
    if fields == [] {
    } else {
      InlineDenull(q, fields[0].value);
      FieldsDenull(q, fields[1..]);
      assert DenullFields(fields)[1..] == DenullFields(fields[1..]);
    }
  }

  /** With nulls, a value is read back with every null as the empty string. */
  lemma NullsReadBack(u: Unquoter, q: Quoter, v: Json, rest: string)
    requires Unquotes(u, q) && q("") == "\"\"" && Plain(Denull(v)) && Follows(rest)
    ensures Read(u, Inline(q, v) + rest) == Some((Denull(v), rest))
  {
    InlineDenull(q, v);
    ReadsBack(u, q, Denull(v), rest);
  }

  /** With nulls, two values print alike exactly when they differ only in nulls against empty strings. */
  lemma InlineWithNulls(q: Quoter, v: Json, w: Json)
    requires SelfDelimiting(q) && q("") == "\"\"" && Plain(Denull(v)) && Plain(Denull(w))
    ensures Inline(q, v) == Inline(q, w) <==> Denull(v) == Denull(w)
  {
    InlineDenull(q, v);
    InlineDenull(q, w);
    InlineInjective(q, Denull(v), Denull(w));
  }

  /** So a null and an empty string collide, for every quoter that writes the empty string as two quotes. */
  lemma NullsCollide(q: Quoter)
    requires q("") == "\"\""
    ensures JNull != JStr("") && Inline(q, JNull) == Inline(q, JStr(""))
  {
  }
}
