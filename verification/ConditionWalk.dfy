/**
 The recursive-descent walk of `command_when` (files-app/build_v3.py:200-288):
 first as functions on the words still to be read, then as the methods that
 advance the shared cursor, and what the walk does to the printing of a
 condition.
 */
module ConditionWalk {
  import opened Wrappers
  import opened JsText
  import opened Conditions

  /** What a walk step answers: the pair and the words left, or None where a
      marker names no atom, which the source catches as an IndexError. */
  type Reply = Option<(Pair, Words)>

  // ---------------------------------------------------------------------
  // The walk on the words left.

  /** The words after the bracket that brings the depth back to zero. */
  function AfterDepth(ws: Words, depth: int): (rest: Words)
    ensures |rest| <= |ws|
    ensures ws != [] ==> |rest| < |ws|
  {
    if ws == [] then []
    else if depth + Step(ws[0]) == 0 then ws[1..]
    else AfterDepth(ws[1..], depth + Step(ws[0]))
  }

  function SkipCalls(ws: Words): (rest: Words)
    ensures |rest| <= |ws|
    ensures rest == [] || rest[0] != WOpen
    decreases |ws|
  {
    if ws == [] || ws[0] != WOpen then ws else SkipCalls(AfterDepth(ws, 0))
  }

  predicate EndsTerm(w: Word) {
    w in {WAnd, WOr, WClose} || w.Marker?
  }

  function SkipTerm(ws: Words): (rest: Words)
    ensures |rest| <= |ws|
    decreases |ws|
  {
    if ws == [] || EndsTerm(ws[0]) then ws else SkipTerm(SkipCalls(ws[1..]))
  }

  function Factor(known: seq<string>, ws: Words): (r: Reply)
    ensures r.Some? ==> |r.value.1| <= |ws| && (ws != [] ==> |r.value.1| < |ws|)
    decreases |ws|, 0
  {
    if ws == [] then Some((MAYBE, []))
    else if ws[0] == WNot then
      var (p, rest) :- Factor(known, ws[1..]);
      Some((NotPair(p), rest))
    else if ws[0] == WOpen then
      var (p, rest) :- Disjunction(known, ws[1..]);
      Some((p, if rest != [] && rest[0] == WClose then rest[1..] else rest))
    else
      var rest := SkipCalls(ws[1..]);
      if ws[0].Marker? then
        if ws[0].n < |known| then Some((KnownPair(known[ws[0].n]), rest)) else None
      else Some((MAYBE, SkipTerm(rest)))
  }

  function ConjunctionFrom(known: seq<string>, p: Pair, ws: Words): (r: Reply)
    ensures r.Some? ==> |r.value.1| <= |ws|
    decreases |ws|, 1
  {
    if ws != [] && ws[0] == WAnd then
      var (q, rest) :- Factor(known, ws[1..]);
      ConjunctionFrom(known, AndPair(p, q), rest)
    else Some((p, ws))
  }

  function Conjunction(known: seq<string>, ws: Words): (r: Reply)
    ensures r.Some? ==> |r.value.1| <= |ws| && (ws != [] ==> |r.value.1| < |ws|)
    decreases |ws|, 2
  {
    var (p, rest) :- Factor(known, ws);
    ConjunctionFrom(known, p, rest)
  }

  function DisjunctionFrom(known: seq<string>, p: Pair, ws: Words): (r: Reply)
    ensures r.Some? ==> |r.value.1| <= |ws|
    decreases |ws|, 3
  {
    if ws != [] && ws[0] == WOr then
      var (q, rest) :- Conjunction(known, ws[1..]);
      DisjunctionFrom(known, OrPair(p, q), rest)
    else Some((p, ws))
  }

  function Disjunction(known: seq<string>, ws: Words): (r: Reply)
    ensures r.Some? ==> |r.value.1| <= |ws| && (ws != [] ==> |r.value.1| < |ws|)
    decreases |ws|, 4
  {
    var (p, rest) :- Conjunction(known, ws);
    DisjunctionFrom(known, p, rest)
  }

  /** The predicate of a condition; the empty text means the command is always on. */
  function CommandWhen(known: seq<string>, ws: Words): Text {
    if known == [] then []
    else match Disjunction(known, ws)
      case None => []
      case Some((p, _)) => if p.could == TRUE then [] else p.could
  }

  // ---------------------------------------------------------------------
  // The walk as the source runs it, with one cursor that the steps share and
  // that may run one past the last word.

  /** An answer and the words left after it are a reply's. */
  predicate IsReply(spec: Reply, r: Option<Pair>, rest: Words) {
    r.Some? == spec.Some? && (r.Some? ==> r.value == spec.value.0 && rest == spec.value.1)
  }

  class Walk {
    const words: Words
    const known: seq<string>
    var at: nat

    constructor (known: seq<string>, words: Words)
      ensures this.known == known && this.words == words && Rest() == words
    {
      this.known, this.words, this.at := known, words, 0;
    }

    function Rest(): Words
      reads this
    {
      if at <= |words| then words[at..] else []
    }

    method Call()
      modifies `at
      ensures Rest() == SkipCalls(old(Rest()))
    {
      ghost var before := Rest();
      while at < |words| && words[at] == WOpen
        invariant SkipCalls(Rest()) == SkipCalls(before)
        decreases |Rest()|
      {
        PastClose();
      }
    }

    /** One call: on to where the brackets balance, or to the end. */
    method PastClose()
      requires at < |words|
      modifies `at
      ensures Rest() == AfterDepth(old(Rest()), 0) && |Rest()| < |old(Rest())|
    {
      ghost var start := Rest();
      var depth, closed := 0, false;
      while at < |words| && !closed
        invariant closed ==> Rest() == AfterDepth(start, 0)
        invariant !closed ==> AfterDepth(Rest(), depth) == AfterDepth(start, 0)
        invariant |Rest()| < |start| || (!closed && Rest() == start && depth == 0)
        decreases |words| - at, !closed
      {
        depth := depth + (if words[at] == WOpen then 1 else if words[at] == WClose then -1 else 0);
        assert Rest()[0] == words[at] && Rest()[1..] == words[at + 1..];
        at := at + 1;
        closed := depth == 0;
      }
    }

    method NextFactor() returns (r: Option<Pair>)
      modifies `at
      ensures IsReply(Factor(known, old(Rest())), r, Rest())
      decreases |Rest()|, 0
    {
      ghost var before := Rest();
      if at < |words| && words[at] == WNot {
        at := at + 1;
        assert Rest() == before[1..];
        var p := NextFactor();
        return if p.Some? then Some(NotPair(p.value)) else None;
      }
      if at < |words| && words[at] == WOpen {
        at := at + 1;
        assert Rest() == before[1..];
        r := NextDisjunction();
        if r.Some? && at < |words| && words[at] == WClose {
          at := at + 1;
        }
        return;
      }
      var word := if at < |words| then Some(words[at]) else None;
      at := at + 1;
      assert Rest() == if before == [] then [] else before[1..];
      Call();
      if word.Some? && word.value.Marker? {
        return if word.value.n < |known| then Some(KnownPair(known[word.value.n])) else None;
      }
      RestOfTerm();
      r := Some(MAYBE);
    }

    /** The further words of an unknown term, each with its calls. */
    method RestOfTerm()
      modifies `at
      ensures Rest() == SkipTerm(old(Rest()))
    {
      ghost var before := Rest();
      while at < |words| && words[at] !in {WAnd, WOr, WClose} && !words[at].Marker?
        invariant SkipTerm(Rest()) == SkipTerm(before)
        decreases |Rest()|
      {
        assert Rest()[1..] == words[at + 1..];
        at := at + 1;
        Call();
      }
    }

    method NextConjunction() returns (r: Option<Pair>)
      modifies `at
      ensures IsReply(Conjunction(known, old(Rest())), r, Rest())
      decreases |Rest()|, 2
    {
      r := NextFactor();
      if r.Some? {
        r := MoreFactors(r.value);
      }
    }

    method MoreFactors(first: Pair) returns (r: Option<Pair>)
      modifies `at
      ensures IsReply(ConjunctionFrom(known, first, old(Rest())), r, Rest())
      decreases |Rest()|, 1
    {
      ghost var before := Rest();
      r := Some(first);
      while r.Some? && at < |words| && words[at] == WAnd
        invariant r.Some? ==>
          ConjunctionFrom(known, first, before) == ConjunctionFrom(known, r.value, Rest()) && |Rest()| <= |before|
        invariant r.None? ==> ConjunctionFrom(known, first, before).None?
        decreases r.Some?, |Rest()|
      {
        assert Rest()[1..] == words[at + 1..];
        at := at + 1;
        var right := NextFactor();
        r := if right.Some? then Some(AndPair(r.value, right.value)) else None;
      }
    }

    method NextDisjunction() returns (r: Option<Pair>)
      modifies `at
      ensures IsReply(Disjunction(known, old(Rest())), r, Rest())
      decreases |Rest()|, 4
    {
      r := NextConjunction();
      if r.Some? {
        r := MoreConjunctions(r.value);
      }
    }

    method MoreConjunctions(first: Pair) returns (r: Option<Pair>)
      modifies `at
      ensures IsReply(DisjunctionFrom(known, first, old(Rest())), r, Rest())
      decreases |Rest()|, 3
    {
      ghost var before := Rest();
      r := Some(first);
      while r.Some? && at < |words| && words[at] == WOr
        invariant r.Some? ==>
          DisjunctionFrom(known, first, before) == DisjunctionFrom(known, r.value, Rest()) && |Rest()| <= |before|
        invariant r.None? ==> DisjunctionFrom(known, first, before).None?
        decreases r.Some?, |Rest()|
      {
        assert Rest()[1..] == words[at + 1..];
        at := at + 1;
        var right := NextConjunction();
        r := if right.Some? then Some(OrPair(r.value, right.value)) else None;
      }
    }
  }

  /** `command_when` from its word list on. It ends on every list, unbalanced
      ones included. */
  method CompileCondition(known: seq<string>, words: Words) returns (text: Text)
    ensures text == CommandWhen(known, words)
  {
    if known == [] {
      return [];
    }
    var walk := new Walk(known, words);
    var p := walk.NextDisjunction();
    if p.None? || p.value.could == TRUE {
      return [];
    }
    text := p.value.could;
  }

  // ---------------------------------------------------------------------
  // The walk reads back exactly what was printed.

  ghost predicate StopsTerm(rest: Words) {
    rest == [] || rest[0] in {WAnd, WOr, WClose}
  }

  ghost predicate StopsConjunction(rest: Words) {
    rest == [] || rest[0] in {WOr, WClose}
  }

  ghost predicate StopsCondition(rest: Words) {
    rest == [] || rest[0] == WClose
  }

  /** Balanced arguments are skipped whole, whatever words they hold. */
  lemma {:induction false} SkipsBalanced(s: Words, depth: int, rest: Words)
    requires s != [] && depth + Height(s) == 0
    requires forall k :: 0 < k < |s| ==> depth + Height(s[..k]) > 0
    ensures AfterDepth(s + rest, depth) == rest
  {
    assert (s + rest)[1..] == s[1..] + rest;
    var depth' := depth + Step(s[0]);
    if |s| == 1 {
      assert s[1..] == [];
    } else {
      assert Height(s[..1]) == Step(s[0]) by {
        assert s[..1] == [s[0]] && s[..1][1..] == [];
      }
      assert depth' > 0;
      forall k | 0 < k < |s[1..]|
        ensures depth' + Height(s[1..][..k]) > 0
      {
        assert s[..k + 1][1..] == s[1..][..k];
        assert depth + Height(s[..k + 1]) > 0;
      }
      SkipsBalanced(s[1..], depth', rest);
    }
  }

  lemma {:induction false} SkipsCalls(calls: seq<Words>, rest: Words)
    requires AllCalls(calls)
    requires rest == [] || rest[0] != WOpen
    ensures SkipCalls(Flatten(calls) + rest) == rest
  {
    if calls == [] {
      assert Flatten(calls) + rest == rest;
    } else {
      var c := calls[0];
      var more := Flatten(calls[1..]) + rest;
      assert IsCall(c);
      assert Flatten(calls) + rest == c + more;
      assert (c + more)[0] == WOpen;
      SkipsBalanced(c, 0, more);
      SkipsCalls(calls[1..], rest);
    }
  }

  lemma {:induction false} SkipsParts(parts: seq<Part>, rest: Words)
    requires forall p :: p in parts ==> AllCalls(p.calls)
    requires StopsTerm(rest)
    ensures SkipTerm(PrintParts(parts) + rest) == rest
  {
    if parts == [] {
      assert PrintParts(parts) + rest == rest;
    } else {
      var more := PrintParts(parts[1..]) + rest;
      FirstPart(parts, rest);
      SkipsCalls(parts[0].calls, more);
      SkipsParts(parts[1..], rest);
    }
  }

  lemma FirstPart(parts: seq<Part>, rest: Words)
    requires parts != []
    ensures var ws, more := PrintParts(parts) + rest, PrintParts(parts[1..]) + rest;
      && ws[0] == Bare(parts[0].name) && ws[1..] == Flatten(parts[0].calls) + more
      && (more == rest || more[0] == Bare(parts[1].name))
  {
    FirstOff(Bare(parts[0].name), Flatten(parts[0].calls), PrintParts(parts[1..]), rest);
    if |parts| == 1 {
      assert PrintParts(parts[1..]) + rest == rest;
    } else {
      FirstOff(Bare(parts[1].name), Flatten(parts[1].calls), PrintParts(parts[1..][1..]), rest);
    }
  }

  lemma FirstOff(w: Word, a: Words, b: Words, rest: Words)
    ensures ([w] + a + b + rest)[0] == w && ([w] + a + b + rest)[1..] == a + (b + rest)
  {
  }

  lemma TermReads(parts: seq<Part>, known: seq<string>, rest: Words)
    requires IsFactor(Term(parts)) && StopsTerm(rest)
    ensures Factor(known, PrintParts(parts) + rest) == Some((MAYBE, rest))
  {
    var more := PrintParts(parts[1..]) + rest;
    FirstPart(parts, rest);
    assert AllCalls(parts[0].calls);
    SkipsCalls(parts[0].calls, more);
    SkipsParts(parts[1..], rest);
  }

  lemma KnownReads(n: nat, calls: seq<Words>, known: seq<string>, rest: Words)
    requires n < |known| && AllCalls(calls) && StopsTerm(rest)
    ensures Factor(known, [Marker(n)] + Flatten(calls) + rest) == Some((KnownPair(known[n]), rest))
  {
    assert ([Marker(n)] + Flatten(calls) + rest)[1..] == Flatten(calls) + rest;
    SkipsCalls(calls, rest);
  }

  lemma NotReads(inner: Words, p: Pair, known: seq<string>, rest: Words)
    requires Factor(known, inner + rest) == Some((p, rest))
    ensures Factor(known, [WNot] + inner + rest) == Some((NotPair(p), rest))
  {
    assert ([WNot] + inner + rest)[1..] == inner + rest;
  }

  lemma ParenReads(inner: Words, p: Pair, known: seq<string>, rest: Words)
    requires Disjunction(known, inner + ([WClose] + rest)) == Some((p, [WClose] + rest))
    ensures Factor(known, [WOpen] + inner + [WClose] + rest) == Some((p, rest))
  {
    assert ([WOpen] + inner + [WClose] + rest)[1..] == inner + ([WClose] + rest);
    assert ([WClose] + rest)[1..] == rest;
  }

  lemma {:induction false} FactorReads(c: Cond, known: seq<string>, rest: Words)
    requires IsFactor(c) && MarkersBelow(c, |known|) && StopsTerm(rest)
    ensures Factor(known, Print(c) + rest) == Some((PairOf(c, known), rest))
    decreases c, 0
  {
    match c {
      case Known(n, calls) => KnownReads(n, calls, known, rest);
      case Term(parts) => TermReads(parts, known, rest);
      case Not(x) =>
        FactorReads(x, known, rest);
        NotReads(Print(x), PairOf(x, known), known, rest);
      case Paren(x) =>
        ConditionReads(x, known, [WClose] + rest);
        ParenReads(Print(x), PairOf(x, known), known, rest);
    }
  }

  lemma {:induction false} ConjunctionReads(c: Cond, known: seq<string>, rest: Words)
    requires IsConjunction(c) && MarkersBelow(c, |known|) && StopsTerm(rest)
    ensures Conjunction(known, Print(c) + rest) == ConjunctionFrom(known, PairOf(c, known), rest)
    decreases c, 1
  {
    match c {
      case And(l, r) =>
        var more := [WAnd] + (Print(r) + rest);
        assert Print(c) + rest == Print(l) + more;
        ConjunctionReads(l, known, more);
        assert more[1..] == Print(r) + rest;
        FactorReads(r, known, rest);
      case Or(_, _) =>
      case _ => FactorReads(c, known, rest);
    }
  }

  lemma {:induction false} DisjunctionReads(c: Cond, known: seq<string>, rest: Words)
    requires IsCond(c) && MarkersBelow(c, |known|) && StopsConjunction(rest)
    ensures Disjunction(known, Print(c) + rest) == DisjunctionFrom(known, PairOf(c, known), rest)
    decreases c, 2
  {
    match c {
      case Or(l, r) =>
        var more := [WOr] + (Print(r) + rest);
        assert Print(c) + rest == Print(l) + more;
        DisjunctionReads(l, known, more);
        assert more[1..] == Print(r) + rest;
        ConjunctionReads(r, known, rest);
      case _ =>
        ConjunctionReads(c, known, rest);
    }
  }

  /** The walk consumes exactly the printed condition and answers its pair. */
  lemma ConditionReads(c: Cond, known: seq<string>, rest: Words)
    requires IsCond(c) && MarkersBelow(c, |known|) && StopsCondition(rest)
    ensures Disjunction(known, Print(c) + rest) == Some((PairOf(c, known), rest))
    decreases c, 3
  {
    DisjunctionReads(c, known, rest);
  }

  // ---------------------------------------------------------------------
  // The compiler as a whole.

  /** Whether the page shows the command: the empty text is always on. */
  ghost predicate Shown(text: Text, page: Page) {
    text == [] || Means(text, page, true)
  }

  /** For every condition and in every page state, the command is shown exactly
      when the condition's Kleene value is not No. The text is never the literal
      `false` and, where it is not empty, always reads as one expression. */
  lemma CompiledIsKleene(c: Cond, known: seq<string>, page: Page)
    requires IsCond(c) && MarkersBelow(c, |known|)
    ensures Shown(CommandWhen(known, Print(c)), page) <==> Value(c, known, page) != No
    ensures CommandWhen(known, Print(c)) != FALSE
    ensures CommandWhen(known, Print(c)) != [] ==>
      Means(CommandWhen(known, Print(c)), page, Value(c, known, page) != No)
  {
    if known == [] {
      NothingKnown(c, page);
    } else {
      ConditionReads(c, known, []);
      assert Print(c) + [] == Print(c);
      PairMeansValue(c, known, page);
      PairNeverDecided(c, known);
      LiteralsMean(page);
    }
  }

  /** A command whose condition holds under some reading of the terms the page
      cannot ask about is never hidden. */
  lemma NeverHidden(c: Cond, known: seq<string>, page: Page, reading: Reading)
    requires IsCond(c) && MarkersBelow(c, |known|)
    requires Answer(c, known, page, reading)
    ensures Shown(CommandWhen(known, Print(c)), page)
  {
    CompiledIsKleene(c, known, page);
    ValueCoversAnswers(c, known, page, reading);
  }

  /** A factor, wherever it stands, fails the walk if a marker in it names no atom. */
  lemma {:induction false} FactorFails(c: Cond, known: seq<string>, rest: Words)
    requires IsFactor(c) && !MarkersBelow(c, |known|) && StopsTerm(rest)
    ensures Factor(known, Print(c) + rest) == None
    decreases c, 0
  {
    match c {
      case Known(n, calls) => MarkerFails(n, known, Flatten(calls), rest);
      case Term(_) =>
      case Not(x) =>
        FactorFails(x, known, rest);
        NotFails(Print(x), known, rest);
      case Paren(x) =>
        ConditionFails(x, known, [WClose] + rest);
        ParenFails(Print(x), known, rest);
    }
  }

  lemma MarkerFails(n: nat, known: seq<string>, calls: Words, rest: Words)
    requires n >= |known|
    ensures Factor(known, [Marker(n)] + calls + rest) == None
  {
    assert ([Marker(n)] + calls + rest)[0] == Marker(n);
  }

  lemma NotFails(inner: Words, known: seq<string>, rest: Words)
    requires Factor(known, inner + rest) == None
    ensures Factor(known, [WNot] + inner + rest) == None
  {
    assert ([WNot] + inner + rest)[1..] == inner + rest;
  }

  lemma ParenFails(inner: Words, known: seq<string>, rest: Words)
    requires Disjunction(known, inner + ([WClose] + rest)) == None
    ensures Factor(known, [WOpen] + inner + [WClose] + rest) == None
  {
    assert ([WOpen] + inner + [WClose] + rest)[1..] == inner + ([WClose] + rest);
  }

  lemma {:induction false} ConjunctionFails(c: Cond, known: seq<string>, rest: Words)
    requires IsConjunction(c) && !MarkersBelow(c, |known|) && StopsTerm(rest)
    ensures Conjunction(known, Print(c) + rest) == None
    decreases c, 1
  {
    match c {
      case And(l, r) =>
        var more := [WAnd] + (Print(r) + rest);
        assert Print(c) + rest == Print(l) + more && more[1..] == Print(r) + rest;
        if MarkersBelow(l, |known|) {
          ConjunctionReads(l, known, more);
          FactorFails(r, known, rest);
        } else {
          ConjunctionFails(l, known, more);
        }
      case Or(_, _) =>
      case Term(_) =>
      case _ => FactorFails(c, known, rest);
    }
  }

  lemma {:induction false} ConditionFails(c: Cond, known: seq<string>, rest: Words)
    requires IsCond(c) && !MarkersBelow(c, |known|) && StopsConjunction(rest)
    ensures Disjunction(known, Print(c) + rest) == None
    decreases c, 2
  {
    match c {
      case Or(l, r) =>
        var more := [WOr] + (Print(r) + rest);
        assert Print(c) + rest == Print(l) + more && more[1..] == Print(r) + rest;
        if MarkersBelow(l, |known|) {
          DisjunctionReads(l, known, more);
          ConjunctionFails(r, known, rest);
        } else {
          ConditionFails(l, known, more);
        }
      case Term(_) =>
      case _ => ConjunctionFails(c, known, rest);
    }
  }

  /** A marker that names no atom, anywhere in a condition, makes the command always on. */
  lemma BadMarkerIsAlwaysOn(c: Cond, known: seq<string>)
    requires IsCond(c) && !MarkersBelow(c, |known|)
    ensures CommandWhen(known, Print(c)) == []
  {
    ConditionFails(c, known, []);
    assert Print(c) + [] == Print(c);
  }
}
