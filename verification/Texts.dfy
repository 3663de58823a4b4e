/** Text helpers the file backend leans on: stripping, joining and splitting. */
module Texts {
  /** White space, as far as ASCII goes. */
  predicate IsSpace(c: char) {
    c as int in {9, 10, 11, 12, 13, 28, 29, 30, 31, 32}
  }

  function Trimmed(s: string, drop: char -> bool): (r: string)
    ensures |r| <= |s|
    ensures r != [] ==> !drop(r[0]) && !drop(r[|r| - 1])
    ensures forall c :: c in r ==> c in s
    decreases |s|
  {
    if s == [] then s
    else if drop(s[0]) then Trimmed(s[1..], drop)
    else if drop(s[|s| - 1]) then Trimmed(s[..|s| - 1], drop)
    else s
  }

  function Strip(s: string): string {
    Trimmed(s, IsSpace)
  }

  predicate AllSpace(s: string) {
    forall c :: c in s ==> c in " \t\n\r" || c as int in {0x0B, 0x0C, 0x1C, 0x1D, 0x1E, 0x1F}
  }

  /** Stripping takes white space off both ends, all of it and nothing else. */
  lemma {:induction false} StripIs(s: string) returns (front: string, back: string)
    ensures s == front + Strip(s) + back && AllSpace(front) && AllSpace(back)
    ensures Strip(s) != [] ==> !AllSpace([Strip(s)[0]]) && !AllSpace([Strip(s)[|Strip(s)| - 1]])
    decreases |s|
  {
    front, back := [], [];
    if s != [] && IsSpace(s[0]) {
      front, back := StripIs(s[1..]);
      front := [s[0]] + front;
    } else if s != [] && IsSpace(s[|s| - 1]) {
      front, back := StripIs(s[..|s| - 1]);
      back := back + [s[|s| - 1]];
    }
    SpaceIs();
  }

  lemma SpaceIs()
    ensures forall c: char :: IsSpace(c) <==> AllSpace([c])
  {
    assert forall c: char :: c in [c];
    assert " "[0] as int == 32 && forall c: char :: c in " \t\n\r" <==> c as int in {9, 10, 13, 32};
  }

  lemma StripTwice(s: string)
    ensures Strip(Strip(s)) == Strip(s)
  {
    var r := Strip(s);
    assert r != [] ==> !IsSpace(r[0]) && !IsSpace(r[|r| - 1]);
  }

  function Join(parts: seq<string>): string {
    if parts == [] then ""
    else if |parts| == 1 then parts[0]
    else parts[0] + "," + Join(parts[1..])
  }

  function Split(s: string): (parts: seq<string>)
    ensures parts != []
  {
    if s == [] then [""]
    else
      var rest := Split(s[1..]);
      if s[0] == ',' then [""] + rest else [[s[0]] + rest[0]] + rest[1..]
  }

  lemma {:induction false} SplitAhead(a: string, s: string)
    requires ',' !in a
    ensures Split(a) == [a]
    ensures Split(a + "," + s) == [a] + Split(s)
  {
    var whole := a + "," + s;
    if a == [] {
      assert whole[1..] == s;
    } else {
      SplitAhead(a[1..], s);
      assert whole[1..] == a[1..] + "," + s && whole[0] == a[0];
      assert [a[0]] + a[1..] == a && a[0] in a;
      assert ([a[1..]] + Split(s))[1..] == Split(s);
      assert [a[1..]][1..] == [];
    }
  }

  /** Splitting undoes joining, as long as no part holds the separator. */
  lemma {:induction false} SplitJoin(parts: seq<string>)
    requires parts != [] && forall p :: p in parts ==> ',' !in p
    ensures Split(Join(parts)) == parts
  {
    if |parts| > 1 {
      SplitJoin(parts[1..]);
      SplitAhead(parts[0], Join(parts[1..]));
    } else {
      SplitAhead(parts[0], "");
    }
  }
}
