/**
 What a `.trashinfo` record says (files-app/backend.py:415-422, 850-873, 1711-1742):
 percent-encoding as in section 2.1 of RFC 3986, and the record's lines. Paths and
 text are taken as bytes, one character a byte. A path that is not UTF-8 reaches Python
 with lone surrogates, which percent-encoding refuses.
 */
module TrashRecords {
  import opened Wrappers
  import opened FileTree
  import opened Utf8

  predicate IsBytes(s: string) {
    forall i :: 0 <= i < |s| ==> s[i] as int < 256
  }

  // ---------------------------------------------------------------------
  // Percent-encoding.

  predicate Safe(c: char) {
    'A' <= c <= 'Z' || 'a' <= c <= 'z' || '0' <= c <= '9' || c in "_.-~/"
  }

  function HexDigit(d: nat): char
    requires d < 16
  {
    "0123456789ABCDEF"[d]
  }

  predicate IsHex(c: char) {
    '0' <= c <= '9' || 'A' <= c <= 'F' || 'a' <= c <= 'f'
  }

  function HexValue(c: char): (v: nat)
    requires IsHex(c)
    ensures v < 16
  {
    if c <= '9' then c as int - '0' as int
    else if c <= 'F' then c as int - 'A' as int + 10
    else c as int - 'a' as int + 10
  }

  function QuoteByte(c: char): string
    requires c as int < 256
  {
    if Safe(c) then [c] else ['%', HexDigit(c as int / 16), HexDigit(c as int % 16)]
  }

  function Quote(s: string): string
    requires IsBytes(s)
  {
    if s == [] then [] else QuoteByte(s[0]) + Quote(s[1..])
  }

  /** A `%` that two hexadecimal digits do not follow stands for itself. */
  function UnquoteBytes(s: string): string {
    if s == [] then []
    else if s[0] == '%' && |s| >= 3 && IsHex(s[1]) && IsHex(s[2]) then
      [(16 * HexValue(s[1]) + HexValue(s[2])) as char] + UnquoteBytes(s[3..])
    else [s[0]] + UnquoteBytes(s[1..])
  }

  /** The bytes are decoded again, with replacement. */
  function Unquote(s: string): string {
    Decoded(UnquoteBytes(s))
  }

  lemma HexRoundTrips(d: nat)
    requires d < 16
    ensures IsHex(HexDigit(d)) && HexValue(HexDigit(d)) == d
  {
  }

  lemma UnquoteByte(c: char, rest: string)
    requires c as int < 256
    ensures UnquoteBytes(QuoteByte(c) + rest) == [c] + UnquoteBytes(rest)
  {
    var s := QuoteByte(c) + rest;
    if Safe(c) {
      assert s[1..] == rest;
    } else {
      HexRoundTrips(c as int / 16);
      HexRoundTrips(c as int % 16);
      assert s[3..] == rest;
    }
  }

  lemma {:induction false} UnquoteQuoteBytes(s: string)
    requires IsBytes(s)
    ensures UnquoteBytes(Quote(s)) == s
  {
    if s != [] {
      UnquoteByte(s[0], Quote(s[1..]));
      UnquoteQuoteBytes(s[1..]);
    }
  }

  /** Encoding and decoding gives back what is UTF-8, and nothing else. */
  lemma UnquoteQuote(s: string)
    requires IsBytes(s)
    ensures Unquote(Quote(s)) == s <==> Valid(s)
  {
    UnquoteQuoteBytes(s);
    DecodedWhen(s);
  }

  /** A character that section 2.3 of RFC 3986 does not reserve, by its number, or a slash. */
  predicate IsPlain(c: char) {
    var n := c as int;
    0x41 <= n <= 0x5A || 0x61 <= n <= 0x7A || 0x30 <= n <= 0x39 || n in {0x2D, 0x2E, 0x5F, 0x7E, 0x2F}
  }

  lemma PlainIsSafe(c: char)
    ensures IsPlain(c) <==> Safe(c)
  {
  }

  /** Exactly what needs it is encoded: the rest stands for itself, and nothing else is left
      but percent signs and the digits after them. */
  lemma {:induction false} QuoteIsNeeded(s: string)
    requires IsBytes(s)
    ensures (forall c :: c in s ==> IsPlain(c)) ==> Quote(s) == s
    ensures forall c :: c in Quote(s) ==> IsPlain(c) || c == '%'
    ensures |Quote(s)| == |s| <==> forall c :: c in s ==> IsPlain(c)
    ensures |s| <= |Quote(s)|
  {
    if s != [] {
      QuoteIsNeeded(s[1..]);
      PlainIsSafe(s[0]);
      HexIsPlain(s[0] as int / 16);
      HexIsPlain(s[0] as int % 16);
      assert forall c :: c in s <==> c == s[0] || c in s[1..];
    }
  }

  lemma HexIsPlain(d: nat)
    requires d < 16
    ensures IsPlain(HexDigit(d))
  {
    PlainIsSafe(HexDigit(d));
  }

  lemma HexIsNoBreak(d: nat)
    requires d < 16
    ensures !IsBreak(HexDigit(d))
  {
    HexRoundTrips(d);
  }

  lemma ByteHasNoBreaks(c: char)
    requires c as int < 256
    ensures forall k :: 0 <= k < |QuoteByte(c)| ==> !IsBreak(QuoteByte(c)[k])
  {
    if !Safe(c) {
      HexIsNoBreak(c as int / 16);
      HexIsNoBreak(c as int % 16);
    }
  }

  /** Encoded text holds nothing that ends a line. */
  lemma {:induction false} QuoteHasNoBreaks(s: string)
    requires IsBytes(s)
    ensures forall k :: 0 <= k < |Quote(s)| ==> !IsBreak(Quote(s)[k])
  {
    if s != [] {
      ByteHasNoBreaks(s[0]);
      QuoteHasNoBreaks(s[1..]);
    }
  }

  const SCHEME := "file://"

  /** What is not text is refused. */
  function Encode(path: string): Option<string>
    requires IsBytes(path)
  {
    if Valid(path) then Some(SCHEME + Quote(path)) else None
  }

  function Decode(text: string): string {
    if SCHEME <= text then Unquote(text[|SCHEME|..]) else if '%' in text then Unquote(text) else text
  }

  // ---------------------------------------------------------------------
  // The record.

  /** What ends a line for Python's `splitlines`, below 256. */
  predicate IsBreak(c: char) {
    c as int in {10, 11, 12, 13, 28, 29, 30, 133}
  }

  function Lines(text: string): seq<string> {
    LinesFrom([], text)
  }

  function LinesFrom(line: string, text: string): seq<string>
    decreases |text|
  {
    if text == [] then [line]
    else if IsBreak(text[0]) then [line] + LinesFrom([], text[1..])
    else LinesFrom(line + [text[0]], text[1..])
  }

  const HEADING := "[Trash Info]"
  const PATH := "Path="
  const DATE := "DeletionDate="

  function Record(path: string, date: string): Option<string>
    requires IsBytes(path)
  {
    var encoded :- Encode(path);
    Some(HEADING + "\n" + (PATH + encoded) + "\n" + (DATE + date) + "\n")
  }

  /** The path of the last line that gives one, or nothing. */
  function PathIn(lines: seq<string>): string {
    if lines == [] then ""
    else
      var last := lines[|lines| - 1];
      if PATH <= last then Decode(last[|PATH|..]) else PathIn(lines[..|lines| - 1])
  }

  function ReadRecord(text: string): string {
    PathIn(Lines(text))
  }

  lemma {:induction false} LinesOf(line: string, a: string, b: string)
    requires forall k :: 0 <= k < |a| ==> !IsBreak(a[k])
    ensures LinesFrom(line, a + "\n" + b) == [line + a] + Lines(b)
    decreases |a|
  {
    var text := a + "\n" + b;
    if a == [] {
      assert text[1..] == b && line + a == line;
    } else {
      assert text[1..] == a[1..] + "\n" + b;
      assert line + [a[0]] + a[1..] == line + a;
      LinesOf(line + [a[0]], a[1..], b);
    }
  }

  lemma PathLineHasNoBreaks(quoted: string)
    requires forall k :: 0 <= k < |quoted| ==> !IsBreak(quoted[k])
    ensures forall k :: 0 <= k < |PATH + (SCHEME + quoted)| ==> !IsBreak((PATH + (SCHEME + quoted))[k])
  {
  }

  ghost predicate OneLine(s: string) {
    forall k :: 0 <= k < |s| ==> !IsBreak(s[k])
  }

  lemma ThreeLines(a: string, b: string, c: string)
    requires OneLine(a) && OneLine(b) && OneLine(c)
    ensures Lines(a + "\n" + b + "\n" + c + "\n") == [a, b, c, []]
  {
    var end: string := [];
    var last := c + "\n" + end;
    LinesOf([], c, end);
    LinesOf([], b, last);
    LinesOf([], a, b + "\n" + last);
    assert a + "\n" + b + "\n" + c + "\n" == a + "\n" + (b + "\n" + last);
    assert [] + a == a && [] + b == b && [] + c == c;
  }

  lemma RecordLines(path: string, date: string)
    requires IsBytes(path) && Valid(path) && OneLine(date)
    ensures Lines(Record(path, date).value) == [HEADING, PATH + Encode(path).value, DATE + date, []]
  {
    var p, d := PATH + Encode(path).value, DATE + date;
    QuoteHasNoBreaks(path);
    PathLineHasNoBreaks(Quote(path));
    ThreeLines(HEADING, p, d);
  }

  lemma OnlyOnePathLine(value: string, date: string)
    ensures PathIn([HEADING, PATH + value, DATE + date, []]) == Decode(value)
  {
    var p, d := PATH + value, DATE + date;
    assert d[0] == 'D' && p[|PATH|..] == value;
    var all: seq<string> := [HEADING, p, d, []];
    assert all[..3] == [HEADING, p, d] && all[..3][..2] == [HEADING, p];
    assert PathIn([HEADING, p]) == Decode(value);
    assert PathIn([HEADING, p, d]) == PathIn([HEADING, p]);
  }

  /** A path is encoded exactly when it is UTF-8, and then decoding gives it back. */
  lemma EncodeRoundTrips(path: string)
    requires IsBytes(path)
    ensures Encode(path).Some? <==> Valid(path)
    ensures Valid(path) ==> Decode(Encode(path).value) == path
  {
    assert (SCHEME + Quote(path))[|SCHEME|..] == Quote(path);
    UnquoteQuote(path);
  }

  /** A record is written exactly for a path that is UTF-8, and gives it back, line breaks
      and percent signs in the path included. */
  lemma RecordRoundTrips(path: string, date: string)
    requires IsBytes(path) && OneLine(date)
    ensures Record(path, date).Some? <==> Valid(path)
    ensures Valid(path) ==> ReadRecord(Record(path, date).value) == path
  {
    EncodeRoundTrips(path);
    if Valid(path) {
      RecordLines(path, date);
      OnlyOnePathLine(Encode(path).value, date);
    }
  }

  // ---------------------------------------------------------------------
  // A path and its text.

  predicate ValidName(name: string) {
    name != [] && '/' !in name && IsBytes(name)
  }

  ghost predicate ValidPath(p: Path) {
    forall n :: n in p ==> ValidName(n)
  }

  /** The text of every path but the root's. */
  function PathText(p: Path): string {
    if p == [] then "" else PathText(p[..|p| - 1]) + "/" + p[|p| - 1]
  }

  /** The names between the slashes. */
  function Components(text: string): Path {
    ComponentsFrom([], text)
  }

  function ComponentsFrom(name: string, text: string): Path
    decreases |text|
  {
    if text == [] then (if name == [] then [] else [name])
    else if text[0] == '/' then (if name == [] then [] else [name]) + ComponentsFrom([], text[1..])
    else ComponentsFrom(name + [text[0]], text[1..])
  }

  lemma {:induction false} ComponentsSplit(name: string, a: string, b: string)
    ensures ComponentsFrom(name, a + "/" + b) == ComponentsFrom(name, a) + Components(b)
    decreases |a|
  {
    var text := a + "/" + b;
    if a == [] {
      assert text[1..] == b;
    } else {
      assert text[1..] == a[1..] + "/" + b;
      if a[0] == '/' {
        ComponentsSplit([], a[1..], b);
      } else {
        ComponentsSplit(name + [a[0]], a[1..], b);
      }
    }
  }

  lemma {:induction false} NameIsOneComponent(name: string, rest: string)
    requires '/' !in rest && name + rest != []
    ensures ComponentsFrom(name, rest) == [name + rest]
    decreases |rest|
  {
    if rest == [] {
      assert name + rest == name;
    } else {
      assert rest[0] in rest && name + [rest[0]] + rest[1..] == name + rest;
      NameIsOneComponent(name + [rest[0]], rest[1..]);
    }
  }

  lemma {:induction false} PathTextRoundTrips(p: Path)
    requires ValidPath(p)
    ensures Components(PathText(p)) == p && IsBytes(PathText(p))
  {
    if p != [] {
      var up, name := p[..|p| - 1], p[|p| - 1];
      assert name in p;
      assert forall n :: n in up ==> n in p;
      PathTextRoundTrips(up);
      ComponentsSplit([], PathText(up), name);
      NameIsOneComponent([], name);
      assert [] + name == name && up + [name] == p;
    }
  }

  /** The text of a path is UTF-8 exactly when every name on it is. */
  lemma {:induction false} PathIsTextWhen(p: Path)
    ensures Valid(PathText(p)) <==> forall n :: n in p ==> Valid(n)
  {
    if p != [] {
      var up, name := p[..|p| - 1], p[|p| - 1];
      PathIsTextWhen(up);
      CutAtSlash(PathText(up), name);
      assert forall n :: n in p <==> n in up || n == name;
    }
  }
}
