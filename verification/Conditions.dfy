/**
 Conditions as trees, their printing to words, and their meaning in Kleene's
 three-valued logic (files-app/build_v3.py:80-197). A term the page cannot ask
 about is neither true nor false.
 */
module Conditions {
  import opened JsText

  /** The words of a condition once the recognised parts have been replaced by
      markers. `Marker(n)` stands for the n-th page atom found. */
  datatype Word =
    | WAnd
    | WOr
    | WNot
    | WOpen
    | WClose
    | Marker(n: nat)
    | Bare(name: string)

  type Words = seq<Word>

  datatype Part = Part(name: string, calls: seq<Words>)

  datatype Cond =
    | Known(n: nat, calls: seq<Words>)
    | Term(parts: seq<Part>)
    | Not(operand: Cond)
    | Paren(inner: Cond)
    | And(left: Cond, right: Cond)
    | Or(left: Cond, right: Cond)

  // ---------------------------------------------------------------------
  // Well-formed trees: the parse trees of the C# grammar for `!`, `&&`, `||`
  // and brackets, over terms that carry balanced call arguments.

  function Height(s: Words): int {
    if s == [] then 0 else Step(s[0]) + Height(s[1..])
  }

  function Step(w: Word): int {
    if w == WOpen then 1 else if w == WClose then -1 else 0
  }

  /** One call's arguments, brackets included: any words at all in between, as
      long as the brackets balance and the last one closes the first. */
  ghost predicate IsCall(s: Words) {
    && s != [] && s[0] == WOpen && Height(s) == 0
    && forall k :: 0 < k < |s| ==> Height(s[..k]) > 0
  }

  ghost predicate AllCalls(calls: seq<Words>) {
    forall c :: c in calls ==> IsCall(c)
  }

  ghost predicate IsFactor(c: Cond)
    decreases c, 0
  {
    match c
    case Known(_, calls) => AllCalls(calls)
    case Term(parts) => parts != [] && forall p :: p in parts ==> AllCalls(p.calls)
    case Not(x) => IsFactor(x)
    case Paren(x) => IsCond(x)
    case _ => false
  }

  ghost predicate IsConjunction(c: Cond)
    decreases c, 1
  {
    match c
    case And(l, r) => IsConjunction(l) && IsFactor(r)
    case Or(_, _) => false
    case _ => IsFactor(c)
  }

  ghost predicate IsCond(c: Cond)
    decreases c, 2
  {
    match c
    case Or(l, r) => IsCond(l) && IsConjunction(r)
    case _ => IsConjunction(c)
  }

  /** Every marker of the tree names one of the `n` atoms found. */
  predicate MarkersBelow(c: Cond, n: nat) {
    match c
    case Known(k, _) => k < n
    case Term(_) => true
    case Not(x) => MarkersBelow(x, n)
    case Paren(x) => MarkersBelow(x, n)
    case And(l, r) => MarkersBelow(l, n) && MarkersBelow(r, n)
    case Or(l, r) => MarkersBelow(l, n) && MarkersBelow(r, n)
  }

  function Flatten(calls: seq<Words>): Words {
    if calls == [] then [] else calls[0] + Flatten(calls[1..])
  }

  function PrintParts(parts: seq<Part>): Words {
    if parts == [] then [] else [Bare(parts[0].name)] + Flatten(parts[0].calls) + PrintParts(parts[1..])
  }

  function Print(c: Cond): Words {
    match c
    case Known(n, calls) => [Marker(n)] + Flatten(calls)
    case Term(parts) => PrintParts(parts)
    case Not(x) => [WNot] + Print(x)
    case Paren(x) => [WOpen] + Print(x) + [WClose]
    case And(l, r) => Print(l) + [WAnd] + Print(r)
    case Or(l, r) => Print(l) + [WOr] + Print(r)
  }

  // ---------------------------------------------------------------------
  // Meaning.

  datatype Kleene = No | Unknown | Yes

  function KNot(a: Kleene): Kleene {
    match a
    case No => Yes
    case Unknown => Unknown
    case Yes => No
  }

  function KAnd(a: Kleene, b: Kleene): Kleene {
    if a == No || b == No then No else if a == Yes && b == Yes then Yes else Unknown
  }

  function KOr(a: Kleene, b: Kleene): Kleene {
    if a == Yes || b == Yes then Yes else if a == No && b == No then No else Unknown
  }

  function Value(c: Cond, known: seq<string>, page: Page): Kleene
    requires MarkersBelow(c, |known|)
  {
    match c
    case Known(n, _) => if page(known[n]) then Yes else No
    case Term(_) => Unknown
    case Not(x) => KNot(Value(x, known, page))
    case Paren(x) => Value(x, known, page)
    case And(l, r) => KAnd(Value(l, known, page), Value(r, known, page))
    case Or(l, r) => KOr(Value(l, known, page), Value(r, known, page))
  }

  /** What the reference itself answers, when every unknown term is given a truth
      value of its own. */
  type Reading = seq<Part> -> bool

  function Answer(c: Cond, known: seq<string>, page: Page, reading: Reading): bool
    requires MarkersBelow(c, |known|)
  {
    match c
    case Known(n, _) => page(known[n])
    case Term(parts) => reading(parts)
    case Not(x) => !Answer(x, known, page, reading)
    case Paren(x) => Answer(x, known, page, reading)
    case And(l, r) => Answer(l, known, page, reading) && Answer(r, known, page, reading)
    case Or(l, r) => Answer(l, known, page, reading) || Answer(r, known, page, reading)
  }

  /** Kleene's value is right for every reading of the unknown terms. */
  lemma {:induction false} ValueCoversAnswers(c: Cond, known: seq<string>, page: Page, reading: Reading)
    requires MarkersBelow(c, |known|)
    ensures Value(c, known, page) == Yes ==> Answer(c, known, page, reading)
    ensures Value(c, known, page) == No ==> !Answer(c, known, page, reading)
  {
    match c {
      case Known(_, _) =>
      case Term(_) =>
      case Not(x) => ValueCoversAnswers(x, known, page, reading);
      case Paren(x) => ValueCoversAnswers(x, known, page, reading);
      case And(l, r) => ValueCoversAnswers(l, known, page, reading); ValueCoversAnswers(r, known, page, reading);
      case Or(l, r) => ValueCoversAnswers(l, known, page, reading); ValueCoversAnswers(r, known, page, reading);
    }
  }

  /** With no atom found there is nothing to know. */
  lemma {:induction false} NothingKnown(c: Cond, page: Page)
    requires MarkersBelow(c, 0)
    ensures Value(c, [], page) == Unknown
  {
    match c {
      case Term(_) =>
      case Not(x) => NothingKnown(x, page);
      case Paren(x) => NothingKnown(x, page);
      case And(l, r) => NothingKnown(l, page); NothingKnown(r, page);
      case Or(l, r) => NothingKnown(l, page); NothingKnown(r, page);
    }
  }

  // ---------------------------------------------------------------------
  // The pair carried through the walk: whether the condition could hold, and
  // whether it is known to hold.

  datatype Pair = Pair(could: Text, known: Text)

  const MAYBE := Pair(TRUE, FALSE)

  function NotPair(p: Pair): Pair {
    Pair(Flip(p.known), Flip(p.could))
  }

  function AndPair(p: Pair, q: Pair): Pair {
    Pair(JsText.And(p.could, q.could), JsText.And(p.known, q.known))
  }

  function OrPair(p: Pair, q: Pair): Pair {
    Pair(JsText.Or(p.could, q.could), JsText.Or(p.known, q.known))
  }

  function KnownPair(atom: string): Pair {
    Pair([Atom(atom)], [Atom(atom)])
  }

  function PairOf(c: Cond, known: seq<string>): Pair
    requires MarkersBelow(c, |known|)
  {
    match c
    case Known(n, _) => KnownPair(known[n])
    case Term(_) => MAYBE
    case Not(x) => NotPair(PairOf(x, known))
    case Paren(x) => PairOf(x, known)
    case And(l, r) => AndPair(PairOf(l, known), PairOf(r, known))
    case Or(l, r) => OrPair(PairOf(l, known), PairOf(r, known))
  }

  /** The first half is true exactly when the value is not No, the second exactly
      when it is Yes, as JavaScript reads them. */
  lemma {:induction false} PairMeansValue(c: Cond, known: seq<string>, page: Page)
    requires MarkersBelow(c, |known|)
    ensures Means(PairOf(c, known).could, page, Value(c, known, page) != No)
    ensures Means(PairOf(c, known).known, page, Value(c, known, page) == Yes)
  {
    match c {
      case Known(n, _) => UnaryMeans([Atom(known[n])], page, page(known[n]));
      case Term(_) => LiteralsMean(page);
      case Paren(x) => PairMeansValue(x, known, page);
      case Not(x) =>
        PairMeansValue(x, known, page);
        var p, v := PairOf(x, known), Value(x, known, page);
        FlipMeans(p.could, page, v != No);
        FlipMeans(p.known, page, v == Yes);
      case And(l, r) =>
        PairMeansValue(l, known, page);
        PairMeansValue(r, known, page);
        var p, q, v, w := PairOf(l, known), PairOf(r, known), Value(l, known, page), Value(r, known, page);
        AndMeans(p.could, q.could, page, v != No, w != No);
        AndMeans(p.known, q.known, page, v == Yes, w == Yes);
      case Or(l, r) =>
        PairMeansValue(l, known, page);
        PairMeansValue(r, known, page);
        var p, q, v, w := PairOf(l, known), PairOf(r, known), Value(l, known, page), Value(r, known, page);
        OrMeans(p.could, q.could, page, v != No, w != No);
        OrMeans(p.known, q.known, page, v == Yes, w == Yes);
    }
  }

  lemma EmittersKeepUndecided(p: Text, q: Text)
    ensures p != FALSE && q != FALSE ==> JsText.And(p, q) != FALSE && JsText.Or(p, q) != FALSE
    ensures p != TRUE && q != TRUE ==> JsText.And(p, q) != TRUE && JsText.Or(p, q) != TRUE
    ensures p != TRUE ==> Flip(p) != FALSE
    ensures p != FALSE ==> Flip(p) != TRUE
  {
    assert forall x: Text :: Bracketed(x)[0] == Open;
    var l, r := Guarded(p), Guarded(q);
    assert (l + [AndAnd] + r)[|l|] == AndAnd;
    var l', r' := Bracketed(p), Bracketed(q);
    assert (l' + [OrOr] + r')[|l'|] == OrOr;
  }

  /** No command compiles to the predicate `false`, and nothing is taken as known
      outright: the two halves are never those literals. */
  lemma {:induction false} PairNeverDecided(c: Cond, known: seq<string>)
    requires MarkersBelow(c, |known|)
    ensures PairOf(c, known).could != FALSE
    ensures PairOf(c, known).known != TRUE
  {
    match c {
      case Known(_, _) =>
      case Term(_) =>
      case Not(x) =>
        PairNeverDecided(x, known);
        EmittersKeepUndecided(PairOf(x, known).could, []);
        EmittersKeepUndecided(PairOf(x, known).known, []);
      case Paren(x) => PairNeverDecided(x, known);
      case And(l, r) =>
        PairNeverDecided(l, known);
        PairNeverDecided(r, known);
        EmittersKeepUndecided(PairOf(l, known).could, PairOf(r, known).could);
        EmittersKeepUndecided(PairOf(l, known).known, PairOf(r, known).known);
      case Or(l, r) =>
        PairNeverDecided(l, known);
        PairNeverDecided(r, known);
        EmittersKeepUndecided(PairOf(l, known).could, PairOf(r, known).could);
        EmittersKeepUndecided(PairOf(l, known).known, PairOf(r, known).known);
    }
  }
}
