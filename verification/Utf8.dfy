/**
 UTF-8 as Python takes it (sections 3 and 4 of RFC 3629), one character a byte: which
 bytes are text, and what decoding with replacement makes of the others.
 */
module Utf8 {
  predicate Tail(c: char) {
    0x80 <= c as int <= 0xBF
  }

  /** How many bytes a character with this first byte has; none has it if 0. */
  function Length(c: char): nat {
    var b := c as int;
    if b < 0x80 then 1
    else if 0xC2 <= b <= 0xDF then 2
    else if 0xE0 <= b <= 0xEF then 3
    else if 0xF0 <= b <= 0xF4 then 4
    else 0
  }

  /** Overlong forms, surrogates and numbers past the last are told by the second byte. */
  predicate Second(first: char, c: char) {
    var b := c as int;
    && Tail(c)
    && (first as int == 0xE0 ==> 0xA0 <= b)
    && (first as int == 0xED ==> b <= 0x9F)
    && (first as int == 0xF0 ==> 0x90 <= b)
    && (first as int == 0xF4 ==> b <= 0x8F)
  }

  /** How many bytes at the head begin one character. */
  function Matched(s: string): (n: nat)
    requires s != []
    ensures n <= Length(s[0]) && n <= |s|
  {
    var size := Length(s[0]);
    if size == 0 then 0
    else if size == 1 || |s| < 2 || !Second(s[0], s[1]) then 1
    else if size == 2 || |s| < 3 || !Tail(s[2]) then 2
    else if size == 3 || |s| < 4 || !Tail(s[3]) then 3
    else 4
  }

  /** A character is at the head. */
  predicate Whole(s: string)
    requires s != []
  {
    Length(s[0]) > 0 && Matched(s) == Length(s[0])
  }

  function Size(s: string): (n: nat)
    requires s != []
    ensures 0 < n <= |s|
  {
    if Matched(s) == 0 then 1 else Matched(s)
  }

  predicate Valid(s: string) {
    s == [] || (Whole(s) && Valid(s[Size(s)..]))
  }

  const REPLACEMENT := [0xEF as char, 0xBF as char, 0xBD as char]

  /** Decoding with replacement: each broken beginning of a character becomes U+FFFD. */
  function Decoded(s: string): string {
    if s == [] then []
    else (if Whole(s) then s[..Size(s)] else REPLACEMENT) + Decoded(s[Size(s)..])
  }

  lemma WholeAhead(a: string, rest: string)
    requires a != [] && Whole(a)
    ensures Whole(a + rest) && Size(a + rest) == Size(a)
  {
  }

  lemma OneIsValid(a: string, rest: string)
    requires a != [] && Whole(a) && Size(a) == |a| && Valid(rest)
    ensures Valid(a + rest)
  {
    WholeAhead(a, rest);
    assert (a + rest)[Size(a)..] == rest;
  }

  lemma {:induction false} DecodedIsValid(s: string)
    ensures Valid(Decoded(s))
  {
    if s != [] {
      DecodedIsValid(s[Size(s)..]);
      OneIsValid(if Whole(s) then s[..Size(s)] else REPLACEMENT, Decoded(s[Size(s)..]));
    }
  }

  /** Decoding keeps exactly what is text. */
  lemma {:induction false} DecodedWhen(s: string)
    ensures Decoded(s) == s <==> Valid(s)
  {
    DecodedIsValid(s);
    if Valid(s) && s != [] {
      DecodedWhen(s[Size(s)..]);
      assert s[..Size(s)] + s[Size(s)..] == s;
    }
  }

  /** A slash is never inside a character, so text may be cut there. */
  lemma {:induction false} CutAtSlash(a: string, b: string)
    ensures Valid(a + "/" + b) <==> Valid(a) && Valid(b)
    decreases |a|
  {
    var s := a + "/" + b;
    if a == [] {
      assert s[1..] == b && Whole(s) && Size(s) == 1;
    } else {
      NotPastSlash(a, b);
      if Whole(a) {
        assert s[Size(s)..] == a[Size(s)..] + "/" + b;
        CutAtSlash(a[Size(s)..], b);
      }
    }
  }

  lemma NotPastSlash(a: string, b: string)
    requires a != []
    ensures Whole(a + "/" + b) <==> Whole(a)
    ensures Whole(a) ==> Size(a) == Size(a + "/" + b)
  {
    var s := a + "/" + b;
    assert s[|a|] == '/' && !Tail('/') && s[0] == a[0];
    assert forall i :: 0 <= i < |a| ==> s[i] == a[i];
  }

  /** The lone byte E9, which is a letter in Latin-1, is no text. */
  lemma LatinIsNotText()
    ensures !Valid([0xE9 as char])
  {
  }

  // ---------------------------------------------------------------------
  // What is text: the characters' numbers, as section 3 of RFC 3629 writes them.

  predicate IsScalar(n: nat) {
    n < 0xD800 || 0xE000 <= n < 0x11_0000
  }

  function TailByte(n: nat): char {
    (0x80 + n % 0x40) as char
  }

  function BytesOf(n: nat): (s: string)
    requires IsScalar(n)
    ensures s != []
  {
    if n < 0x80 then [n as char]
    else if n < 0x800 then [(0xC0 + n / 0x40) as char, TailByte(n)]
    else if n < 0x1_0000 then [(0xE0 + n / 0x40 / 0x40) as char, TailByte(n / 0x40), TailByte(n)]
    else [(0xF0 + n / 0x40 / 0x40 / 0x40) as char, TailByte(n / 0x40 / 0x40), TailByte(n / 0x40), TailByte(n)]
  }

  predicate AreScalars(text: seq<nat>) {
    forall i :: 0 <= i < |text| ==> IsScalar(text[i])
  }

  function Encoded(text: seq<nat>): string
    requires AreScalars(text)
  {
    if text == [] then [] else BytesOf(text[0]) + Encoded(text[1..])
  }

  lemma ScalarIsWhole(n: nat, rest: string)
    requires IsScalar(n)
    ensures Whole(BytesOf(n) + rest) && Size(BytesOf(n) + rest) == |BytesOf(n)|
  {
    var s := BytesOf(n) + rest;
    assert forall i :: 0 <= i < |BytesOf(n)| ==> s[i] == BytesOf(n)[i];
    if 0x800 <= n < 0x1_0000 {
      ThreeByteHead(n);
    } else if 0x1_0000 <= n {
      FourByteHead(n);
    }
  }

  lemma ThreeByteHead(n: nat)
    requires IsScalar(n) && 0x800 <= n < 0x1_0000
    ensures n / 0x40 / 0x40 < 16 && Second((0xE0 + n / 0x40 / 0x40) as char, TailByte(n / 0x40))
  {
  }

  lemma FourByteHead(n: nat)
    requires IsScalar(n) && 0x1_0000 <= n
    ensures n / 0x40 / 0x40 / 0x40 < 5
    ensures Second((0xF0 + n / 0x40 / 0x40 / 0x40) as char, TailByte(n / 0x40 / 0x40))
  {
  }

  /** The six bits that a byte after the first brings. */
  function Bits(c: char): nat
    requires Tail(c)
  {
    c as int - 0x80
  }

  /** The number of a character of one, two, three or four bytes. */
  function NumberOf(s: string): nat
    requires s != [] && Whole(s)
  {
    var a, size := s[0] as int, Length(s[0]);
    if size == 1 then a
    else if size == 2 then 0x40 * (a - 0xC0) + Bits(s[1])
    else if size == 3 then 0x40 * (0x40 * (a - 0xE0) + Bits(s[1])) + Bits(s[2])
    else 0x40 * (0x40 * (0x40 * (a - 0xF0) + Bits(s[1])) + Bits(s[2])) + Bits(s[3])
  }

  lemma LastBits(high: nat, c: char)
    requires Tail(c)
    ensures (0x40 * high + Bits(c)) / 0x40 == high && TailByte(0x40 * high + Bits(c)) == c
  {
  }

  lemma ThreeBytesAre(s: string)
    requires s != [] && Whole(s) && Length(s[0]) == 3
    ensures IsScalar(NumberOf(s)) && s[..3] == BytesOf(NumberOf(s))
  {
    var high := 0x40 * (s[0] as int - 0xE0) + Bits(s[1]);
    LastBits(s[0] as int - 0xE0, s[1]);
    LastBits(high, s[2]);
    assert 0x20 <= high < 0x400 && !(0x360 <= high < 0x380);
  }

  lemma FourBytesAre(s: string)
    requires s != [] && Whole(s) && Length(s[0]) == 4
    ensures IsScalar(NumberOf(s)) && s[..4] == BytesOf(NumberOf(s))
  {
    var high := 0x40 * (s[0] as int - 0xF0) + Bits(s[1]);
    LastBits(s[0] as int - 0xF0, s[1]);
    LastBits(high, s[2]);
    LastBits(0x40 * high + Bits(s[2]), s[3]);
    assert 0x10 <= high < 0x110;
  }

  lemma WholeIsScalar(s: string)
    requires s != [] && Whole(s)
    ensures IsScalar(NumberOf(s)) && s[..Size(s)] == BytesOf(NumberOf(s))
  {
    if Length(s[0]) == 2 {
      LastBits(s[0] as int - 0xC0, s[1]);
    } else if Length(s[0]) == 3 {
      ThreeBytesAre(s);
    } else if Length(s[0]) == 4 {
      FourBytesAre(s);
    }
  }

  /** The bytes that are text are exactly those that some characters are written as. */
  lemma {:induction false} ValidIsEncoded(s: string) returns (text: seq<nat>)
    requires Valid(s)
    ensures AreScalars(text) && Encoded(text) == s
  {
    if s == [] {
      text := [];
    } else {
      WholeIsScalar(s);
      var rest := ValidIsEncoded(s[Size(s)..]);
      text := [NumberOf(s)] + rest;
      assert text[1..] == rest && s == s[..Size(s)] + s[Size(s)..];
    }
  }

  lemma {:induction false} EncodedIsValid(text: seq<nat>)
    requires AreScalars(text)
    ensures Valid(Encoded(text))
  {
    if text != [] {
      EncodedIsValid(text[1..]);
      ScalarIsWhole(text[0], Encoded(text[1..]));
      assert Encoded(text)[|BytesOf(text[0])|..] == Encoded(text[1..]);
    }
  }
}
