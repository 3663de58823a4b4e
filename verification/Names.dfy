/** Names for a copy of a file whose name is taken (files-app/backend.py:103-112). */
module Names {

  function LastDot(name: string): (i: int)
    ensures -1 <= i < |name|
    ensures i >= 0 ==> name[i] == '.'
    ensures forall k :: i < k < |name| ==> name[k] != '.'
  {
    if name == [] then -1
    else if name[|name| - 1] == '.' then |name| - 1
    else LastDot(name[..|name| - 1])
  }

  function Digit(d: nat): char
    requires d < 10
  {
    "0123456789"[d]
  }

  function Decimal(n: nat): (s: string)
    ensures s != []
  {
    if n < 10 then [Digit(n)] else Decimal(n / 10) + [Digit(n % 10)]
  }

  /** `report (2).pdf`: the number goes before the extension, if there is one. A name
      that only starts with a dot has none. */
  function Numbered(name: string, n: nat): string {
    var dot := LastDot(name);
    if dot > 0 then name[..dot] + " (" + Decimal(n) + ")" + name[dot..]
    else name + " (" + Decimal(n) + ")"
  }

  lemma {:induction false} DecimalInjective(m: nat, n: nat)
    requires Decimal(m) == Decimal(n)
    ensures m == n
  {
    var a, b := Decimal(m), Decimal(n);
    assert a[|a| - 1] == Digit(m % 10) && b[|b| - 1] == Digit(n % 10);
    assert m % 10 == n % 10;
    if m >= 10 && n >= 10 {
      assert a[..|a| - 1] == Decimal(m / 10) && b[..|b| - 1] == Decimal(n / 10);
      DecimalInjective(m / 10, n / 10);
    }
  }

  lemma MiddleInjective(pre: string, a: string, b: string, post: string)
    requires pre + a + post == pre + b + post
    ensures a == b
  {
    assert |a| == |b|;
    var x, y := pre + a + post, pre + b + post;
    assert x[|pre|..|pre| + |a|] == a && y[|pre|..|pre| + |b|] == b;
  }

  /** Different numbers make different names, so a search through them cannot run
      into the same taken name twice. */
  lemma NumberedInjective(name: string, m: nat, n: nat)
    requires Numbered(name, m) == Numbered(name, n)
    ensures m == n
  {
    var dot := LastDot(name);
    if dot > 0 {
      var pre, post := name[..dot] + " (", ")" + name[dot..];
      assert Numbered(name, m) == pre + Decimal(m) + post;
      assert Numbered(name, n) == pre + Decimal(n) + post;
      MiddleInjective(pre, Decimal(m), Decimal(n), post);
    } else {
      var pre := name + " (";
      MiddleInjective(pre, Decimal(m), Decimal(n), ")");
    }
    DecimalInjective(m, n);
  }

  /** The extension survives: what follows the last dot is the same as before. */
  lemma NumberedKeepsExtension(name: string, n: nat)
    requires LastDot(name) > 0
    ensures LastDot(Numbered(name, n)) > 0
    ensures Numbered(name, n)[LastDot(Numbered(name, n))..] == name[LastDot(name)..]
  {
    var dot, made := LastDot(name), Numbered(name, n);
    var at := |made| - (|name| - dot);
    assert made[at..] == name[dot..];
    assert forall k :: at < k < |made| ==> made[k] == name[k - at + dot];
  }

  function DigitValue(c: char): nat {
    if '0' <= c <= '9' then (c - '0') as nat else 0
  }

  /** What a text of decimal digits says. */
  function Value(s: string): nat {
    if s == [] then 0 else 10 * Value(s[..|s| - 1]) + DigitValue(s[|s| - 1])
  }

  lemma DigitReads(d: nat)
    requires d < 10
    ensures '0' <= Digit(d) <= '9' && DigitValue(Digit(d)) == d && (d > 0 ==> Digit(d) != '0')
  {
  }

  lemma ValueOneMore(s: string, c: char)
    ensures Value(s + [c]) == 10 * Value(s) + DigitValue(c)
  {
    assert (s + [c])[..|s|] == s;
  }

  /** The text of a number reads as that number, in digits alone and with no zero before it. */
  lemma {:induction false} DecimalReads(n: nat)
    ensures Value(Decimal(n)) == n
    ensures forall c :: c in Decimal(n) ==> '0' <= c <= '9'
    ensures n > 0 ==> Decimal(n)[0] != '0'
  {
    DigitReads(n % 10);
    if n < 10 {
      ValueOneMore([], Digit(n));
      assert [] + [Digit(n)] == Decimal(n);
    } else {
      DecimalReads(n / 10);
      ValueOneMore(Decimal(n / 10), Digit(n % 10));
    }
  }

  lemma {:induction false} LastDotOf(stem: string, ext: string)
    requires '.' !in ext
    ensures LastDot(stem + "." + ext) == |stem|
  {
    var name := stem + "." + ext;
    if ext != [] {
      LastDotOf(stem, ext[..|ext| - 1]);
      assert name[..|name| - 1] == stem + "." + ext[..|ext| - 1];
    }
  }

  lemma {:induction false} NoDot(name: string)
    requires forall k :: 0 < k < |name| ==> name[k] != '.'
    ensures LastDot(name) <= 0
  {
    if name != [] {
      NoDot(name[..|name| - 1]);
    }
  }

  /** How a number is put in a name: before the extension, and at the end where there is
      none or all there is begins with the dot. */
  lemma NumberedIs(stem: string, ext: string, n: nat)
    requires '.' !in ext
    ensures stem != "" ==> Numbered(stem + "." + ext, n) == stem + " (" + Decimal(n) + ")" + "." + ext
    ensures Numbered("." + ext, n) == "." + ext + " (" + Decimal(n) + ")"
    ensures Numbered(ext, n) == ext + " (" + Decimal(n) + ")"
  {
    var name := stem + "." + ext;
    LastDotOf(stem, ext);
    assert name[..|stem|] == stem && name[|stem|..] == "." + ext;
    if stem != "" {
      assert Numbered(name, n) == stem + " (" + Decimal(n) + ")" + ("." + ext);
      assert stem + " (" + Decimal(n) + ")" + ("." + ext) == stem + " (" + Decimal(n) + ")" + "." + ext;
    }
    NoDot("." + ext);
    NoDot(ext);
  }
}
