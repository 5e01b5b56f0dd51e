/** String operations of the Rust standard library that the sources lean on. */
module Strings {
  import opened Base

  /** The position of the first `c`, or the length of `s`. */
  function IndexOf(s: string, c: char): (i: nat)
    ensures i <= |s| && (i < |s| ==> s[i] == c) && forall j :: 0 <= j < i ==> s[j] != c
  {
    if s == "" || s[0] == c then 0 else 1 + IndexOf(s[1..], c)
  }

  /** `str::lines`: LF or CRLF ends a line, and a final line end adds no empty line. */
  function Lines(s: string): seq<string>
    decreases |s|
  {
    if s == "" then []
    else
      var i := IndexOf(s, '\n');
      if i == |s| then [s]
      else [if 0 < i && s[i - 1] == '\r' then s[..i - 1] else s[..i]] + Lines(s[i + 1..])
  }

  /** Unicode White_Space. */
  predicate IsSpace(c: char) {
    var u := c as int;
    9 <= u <= 13 || u == 32 || u == 0x85 || u == 0xA0 || u == 0x1680 || 0x2000 <= u <= 0x200A
    || u == 0x2028 || u == 0x2029 || u == 0x202F || u == 0x205F || u == 0x3000
  }

  /** Length in UTF-8 bytes. */
  function Utf8Len(s: string): nat {
    if s == "" then 0
    else
      var u := s[0] as int;
      (if u < 0x80 then 1 else if u < 0x800 then 2 else if u < 0x10000 then 3 else 4) + Utf8Len(s[1..])
  }

  function TrimStart(s: string): string {
    if s != "" && IsSpace(s[0]) then TrimStart(s[1..]) else s
  }

  function TrimEnd(s: string): string {
    if s != "" && IsSpace(s[|s| - 1]) then TrimEnd(s[..|s| - 1]) else s
  }

  function Trim(s: string): string {
    TrimEnd(TrimStart(s))
  }

  predicate AllSpace(s: string) { forall i :: 0 <= i < |s| ==> IsSpace(s[i]) }

  lemma {:induction false} TrimStartExactly(s: string) returns (before: string)
    ensures s == before + TrimStart(s) && AllSpace(before)
    ensures TrimStart(s) != "" ==> !IsSpace(TrimStart(s)[0])
  {
    if s == "" || !IsSpace(s[0]) {
      before := "";
    } else {
      var rest := TrimStartExactly(s[1..]);
      before := [s[0]] + rest;
      assert s == [s[0]] + s[1..];
    }
  }

  lemma {:induction false} TrimEndExactly(s: string) returns (after: string)
    ensures s == TrimEnd(s) + after && AllSpace(after)
    ensures TrimEnd(s) != "" ==> TrimEnd(s)[0] == s[0] && !IsSpace(TrimEnd(s)[|TrimEnd(s)| - 1])
  {
    if s == "" || !IsSpace(s[|s| - 1]) {
      after := "";
    } else {
      var rest := TrimEndExactly(s[..|s| - 1]);
      after := rest + [s[|s| - 1]];
      assert s == s[..|s| - 1] + [s[|s| - 1]];
    }
  }

  /** Trimming takes white space off both ends, and leaves none there. */
  lemma TrimExactly(s: string) returns (before: string, after: string)
    ensures s == before + Trim(s) + after && AllSpace(before) && AllSpace(after)
    ensures Trim(s) != "" ==> !IsSpace(Trim(s)[0]) && !IsSpace(Trim(s)[|Trim(s)| - 1])
  {
    before := TrimStartExactly(s);
    after := TrimEndExactly(TrimStart(s));
  }

  /** The parts with `sep` between them: Rust's `join`. */
  function Join(parts: seq<string>, sep: string): string {
    if parts == [] then "" else if |parts| == 1 then parts[0] else parts[0] + sep + Join(parts[1..], sep)
  }

  /** Split at every `c`; there is always at least one part. */
  function Split(s: string, c: char): (parts: seq<string>)
    ensures parts != []
    decreases |s|
  {
    var i := IndexOf(s, c);
    if i == |s| then [s] else [s[..i]] + Split(s[i + 1..], c)
  }

  /** The text before and after the first `c`. */
  function Cut(s: string, c: char): Option<(string, string)> {
    var i := IndexOf(s, c);
    if i == |s| then None else Some((s[..i], s[i + 1..]))
  }

  lemma {:induction false} IndexOfAfter(a: string, b: string, c: char)
    requires c !in a
    ensures IndexOf(a + [c] + b, c) == |a|
  {
    if a == "" {
    } else {
      IndexOfAfter(a[1..], b, c);
      assert (a + [c] + b)[1..] == a[1..] + [c] + b;
    }
  }

  lemma {:induction false} IndexOfNone(a: string, c: char)
    requires c !in a
    ensures IndexOf(a, c) == |a|
  {
    if a == "" {
    } else {
      IndexOfNone(a[1..], c);
    }
  }

  lemma SplitStep(a: string, b: string, c: char)
    requires c !in a
    ensures Split(a + [c] + b, c) == [a] + Split(b, c)
  {
    IndexOfAfter(a, b, c);
    var s := a + [c] + b;
    assert s[..|a|] == a && s[|a| + 1..] == b;
  }

  lemma CutPair(k: string, v: string, c: char)
    requires c !in k
    ensures Cut(k + [c] + v, c) == Some((k, v))
  {
    IndexOfAfter(k, v, c);
    var s := k + [c] + v;
    assert s[..|k|] == k && s[|k| + 1..] == v;
  }

  lemma {:induction false} SplitJoin(parts: seq<string>, c: char)
    requires parts != [] && forall i :: 0 <= i < |parts| ==> c !in parts[i]
    ensures Split(Join(parts, [c]), c) == parts
  {
    if |parts| == 1 {
      IndexOfNone(parts[0], c);
    } else {
      SplitJoin(parts[1..], c);
      SplitStep(parts[0], Join(parts[1..], [c]), c);
      assert Join(parts, [c]) == parts[0] + [c] + Join(parts[1..], [c]);
      assert [parts[0]] + parts[1..] == parts;
    }
  }

  /** Lines, each with its end: CRLF or LF. */
  function Ended(lines: seq<(string, bool)>): string {
    if lines == [] then "" else lines[0].0 + EndOf(lines[0]) + Ended(lines[1..])
  }

  function Texts(lines: seq<(string, bool)>): seq<string> {
    seq(|lines|, i requires 0 <= i < |lines| => lines[i].0)
  }

  /** A line of a text: no line feed, and nothing its end could be mistaken for. */
  predicate IsLine(line: (string, bool)) {
    '\n' !in line.0 && (line.1 || line.0 == "" || line.0[|line.0| - 1] != '\r')
  }

  function EndOf(line: (string, bool)): string { if line.1 then "\r\n" else "\n" }

  lemma FirstLine(line: (string, bool), rest: string)
    requires IsLine(line)
    ensures Lines(line.0 + EndOf(line) + rest) == [line.0] + Lines(rest)
  {
    var body := if line.1 then line.0 + "\r" else line.0;
    var s := line.0 + EndOf(line) + rest;
    assert s == body + ['\n'] + rest;
    IndexOfAfter(body, rest, '\n');
    assert s[..|body|] == body && s[|body| + 1..] == rest;
    assert line.1 ==> s[..|body| - 1] == line.0;
  }

  lemma TextsCons(lines: seq<(string, bool)>, rest: seq<string>)
    requires lines != []
    ensures [lines[0].0] + (Texts(lines[1..]) + rest) == Texts(lines) + rest
  {
    assert Texts(lines) == [lines[0].0] + Texts(lines[1..]);
  }

  /** Lines are read back whatever ends them, and a last one needs no end. */
  lemma {:induction false} LinesReadBack(lines: seq<(string, bool)>, last: string)
    requires (forall i :: 0 <= i < |lines| ==> IsLine(lines[i])) && '\n' !in last
    ensures Lines(Ended(lines) + last) == Texts(lines) + if last == "" then [] else [last]
  {
    if lines == [] {
      assert Ended(lines) + last == last;
      IndexOfNone(last, '\n');
      assert Texts(lines) + (if last == "" then [] else [last]) == if last == "" then [] else [last];
    } else {
      LinesReadBack(lines[1..], last);
      Associate(lines[0].0 + EndOf(lines[0]), Ended(lines[1..]), last);
      FirstLine(lines[0], Ended(lines[1..]) + last);
      TextsCons(lines, if last == "" then [] else [last]);
    }
  }
}
