/**
 The predicate text `files-app/build_v3.py` emits for a command, as JavaScript
 tokens, together with an independent reader of that text. The reader follows
 the precedence of ECMA-262 section 13.13: `!` binds tighter than `&&`, and `&&`
 tighter than `||`. A page atom such as `picked() > 0` is opaque and holds no
 `||` of its own.
 */
module JsText {
  import opened Wrappers

  datatype Token =
    | LitTrue
    | LitFalse
    | Atom(text: string)
    | AndAnd
    | OrOr
    | Bang
    | Open
    | Close

  type Text = seq<Token>

  /** What the page answers to each atom at one moment. */
  type Page = string -> bool

  const TRUE: Text := [LitTrue]
  const FALSE: Text := [LitFalse]

  // ---------------------------------------------------------------------
  // The emitter: `_and`, `_or` and one half of `_not`.

  function Bracketed(p: Text): Text {
    [Open] + p + [Close]
  }

  /** A piece that holds an `||` keeps its own brackets inside a conjunction. */
  function Guarded(p: Text): Text {
    if OrOr in p then Bracketed(p) else p
  }

  function And(left: Text, right: Text): Text {
    if left == FALSE || right == FALSE then FALSE
    else if left == TRUE && right == TRUE then TRUE
    else if left == TRUE then Guarded(right)
    else if right == TRUE then Guarded(left)
    else Guarded(left) + [AndAnd] + Guarded(right)
  }

  function Or(left: Text, right: Text): Text {
    if left == TRUE || right == TRUE then TRUE
    else if left == FALSE && right == FALSE then FALSE
    else if left == FALSE then Bracketed(right)
    else if right == FALSE then Bracketed(left)
    else Bracketed(left) + [OrOr] + Bracketed(right)
  }

  function Flip(p: Text): Text {
    if p == TRUE then FALSE
    else if p == FALSE then TRUE
    else [Bang] + Bracketed(p)
  }

  // ---------------------------------------------------------------------
  // The reader: value of the longest prefix at each precedence level, and
  // what is left of the text.

  /** `!` straight before an atom is refused: an atom may be a comparison, and
      `!a > b` is not the negation of `a > b`. */
  function ReadUnary(s: Text, page: Page): (r: Option<(bool, Text)>)
    ensures r.Some? ==> |r.value.1| < |s|
    decreases |s|, 0
  {
    if s == [] then None else
    match s[0]
    case LitTrue => Some((true, s[1..]))
    case LitFalse => Some((false, s[1..]))
    case Atom(a) => Some((page(a), s[1..]))
    case Open =>
      var (v, rest) :- ReadOr(s[1..], page);
      if rest != [] && rest[0] == Close then Some((v, rest[1..])) else None
    case Bang =>
      if |s| > 1 && s[1].Atom? then None else
      var (v, rest) :- ReadUnary(s[1..], page);
      Some((!v, rest))
    case _ => None
  }

  function ReadAnd(s: Text, page: Page): (r: Option<(bool, Text)>)
    ensures r.Some? ==> |r.value.1| < |s|
    decreases |s|, 1
  {
    var (v, rest) :- ReadUnary(s, page);
    if rest != [] && rest[0] == AndAnd then
      var (w, rest') :- ReadAnd(rest[1..], page);
      Some((v && w, rest'))
    else
      Some((v, rest))
  }

  function ReadOr(s: Text, page: Page): (r: Option<(bool, Text)>)
    ensures r.Some? ==> |r.value.1| < |s|
    decreases |s|, 2
  {
    var (v, rest) :- ReadAnd(s, page);
    if rest != [] && rest[0] == OrOr then
      var (w, rest') :- ReadOr(rest[1..], page);
      Some((v || w, rest'))
    else
      Some((v, rest))
  }

  /** The whole text is one expression, and its value is `v`. */
  ghost predicate Means(s: Text, page: Page, v: bool) {
    ReadOr(s, page) == Some((v, []))
  }

  // ---------------------------------------------------------------------
  // Reading is stable under what follows, as long as it does not continue
  // the expression.

  ghost predicate StartsWith(s: Text, t: Token) {
    s != [] && s[0] == t
  }

  lemma {:induction false} ExtendUnary(s: Text, x: Text, page: Page)
    requires ReadUnary(s, page).Some?
    ensures ReadUnary(s + x, page) == Some((ReadUnary(s, page).value.0, ReadUnary(s, page).value.1 + x))
    decreases |s|, 0
  {
    assert (s + x)[1..] == s[1..] + x;
    match s[0] {
      case Open =>
        ExtendOr(s[1..], x, page);
        var rest := ReadOr(s[1..], page).value.1;
        assert (rest + x)[1..] == rest[1..] + x;
      case Bang =>
        ExtendUnary(s[1..], x, page);
      case _ =>
    }
  }

  lemma {:induction false} ExtendAnd(s: Text, x: Text, page: Page)
    requires ReadAnd(s, page).Some?
    requires ReadAnd(s, page).value.1 != [] || !StartsWith(x, AndAnd)
    ensures ReadAnd(s + x, page) == Some((ReadAnd(s, page).value.0, ReadAnd(s, page).value.1 + x))
    decreases |s|, 1
  {
    ExtendUnary(s, x, page);
    var rest := ReadUnary(s, page).value.1;
    if StartsWith(rest, AndAnd) {
      assert (rest + x)[1..] == rest[1..] + x;
      ExtendAnd(rest[1..], x, page);
    }
  }

  lemma {:induction false} ExtendOr(s: Text, x: Text, page: Page)
    requires ReadOr(s, page).Some?
    requires ReadOr(s, page).value.1 != [] || !(StartsWith(x, AndAnd) || StartsWith(x, OrOr))
    ensures ReadOr(s + x, page) == Some((ReadOr(s, page).value.0, ReadOr(s, page).value.1 + x))
    decreases |s|, 2
  {
    var rest := ReadAnd(s, page).value.1;
    ExtendAnd(s, x, page);
    if StartsWith(rest, OrOr) {
      assert (rest + x)[1..] == rest[1..] + x;
      ExtendOr(rest[1..], x, page);
    }
  }

  /** A bracketed expression is one operand, whatever comes after it. */
  lemma BracketedIsUnary(p: Text, x: Text, page: Page, v: bool)
    requires Means(p, page, v)
    ensures ReadUnary(Bracketed(p) + x, page) == Some((v, x))
  {
    ExtendOr(p, [Close] + x, page);
    assert (Bracketed(p) + x)[1..] == p + ([Close] + x);
    assert [] + ([Close] + x) == [Close] + x;
  }

  /** Reading without any `||` in the text stops at the conjunction level. */
  lemma NoOrIsAnd(p: Text, page: Page, v: bool)
    requires Means(p, page, v) && OrOr !in p
    ensures ReadAnd(p, page) == Some((v, []))
  {
    var rest := ReadAnd(p, page).value.1;
    AndRestIsSuffix(p, page);
    assert rest == p[|p| - |rest|..];
  }

  lemma {:induction false} UnaryRestIsSuffix(s: Text, page: Page)
    requires ReadUnary(s, page).Some?
    ensures ReadUnary(s, page).value.1 == s[|s| - |ReadUnary(s, page).value.1|..]
    decreases |s|, 0
  {
    match s[0] {
      case Open => OrRestIsSuffix(s[1..], page);
      case Bang => UnaryRestIsSuffix(s[1..], page);
      case _ =>
    }
  }

  lemma {:induction false} AndRestIsSuffix(s: Text, page: Page)
    requires ReadAnd(s, page).Some?
    ensures ReadAnd(s, page).value.1 == s[|s| - |ReadAnd(s, page).value.1|..]
    decreases |s|, 1
  {
    UnaryRestIsSuffix(s, page);
    var rest := ReadUnary(s, page).value.1;
    if StartsWith(rest, AndAnd) {
      AndRestIsSuffix(rest[1..], page);
    }
  }

  lemma {:induction false} OrRestIsSuffix(s: Text, page: Page)
    requires ReadOr(s, page).Some?
    ensures ReadOr(s, page).value.1 == s[|s| - |ReadOr(s, page).value.1|..]
    decreases |s|, 2
  {
    AndRestIsSuffix(s, page);
    var rest := ReadAnd(s, page).value.1;
    if StartsWith(rest, OrOr) {
      OrRestIsSuffix(rest[1..], page);
    }
  }

  /** Two conjunctions joined by `&&` read as one, however many operands each has. */
  lemma {:induction false} JoinAnd(p: Text, q: Text, page: Page, v: bool, w: bool)
    requires ReadAnd(p, page) == Some((v, []))
    requires ReadAnd(q, page) == Some((w, []))
    ensures ReadAnd(p + [AndAnd] + q, page) == Some((v && w, []))
    decreases |p|
  {
    var x := [AndAnd] + q;
    assert p + [AndAnd] + q == p + x && x[1..] == q;
    ExtendUnary(p, x, page);
    var rest := ReadUnary(p, page).value.1;
    if rest == [] {
      assert rest + x == x;
    } else {
      TailJoins(rest, q);
      JoinAnd(rest[1..], q, page, ReadAnd(rest[1..], page).value.0, w);
    }
  }

  lemma TailJoins(p: Text, q: Text)
    requires p != []
    ensures (p + ([AndAnd] + q))[1..] == p[1..] + [AndAnd] + q && (p + ([AndAnd] + q))[0] == p[0]
  {
  }

  lemma BracketedMeans(p: Text, page: Page, v: bool)
    requires Means(p, page, v)
    ensures ReadUnary(Bracketed(p), page) == Some((v, [])) && Means(Bracketed(p), page, v)
  {
    BracketedIsUnary(p, [], page, v);
    assert Bracketed(p) + [] == Bracketed(p);
    UnaryMeans(Bracketed(p), page, v);
  }

  lemma GuardedIsAnd(p: Text, page: Page, v: bool)
    requires Means(p, page, v)
    ensures ReadAnd(Guarded(p), page) == Some((v, []))
  {
    if OrOr in p {
      BracketedMeans(p, page, v);
    } else {
      NoOrIsAnd(p, page, v);
    }
  }

  /** An operand on its own is a conjunction and an expression of the same value. */
  lemma UnaryMeans(s: Text, page: Page, v: bool)
    requires ReadUnary(s, page) == Some((v, []))
    ensures ReadAnd(s, page) == Some((v, [])) && Means(s, page, v)
  {
  }

  lemma LiteralsMean(page: Page)
    ensures Means(TRUE, page, true) && Means(FALSE, page, false)
  {
    UnaryMeans(TRUE, page, true);
    UnaryMeans(FALSE, page, false);
  }

  // ---------------------------------------------------------------------
  // Each emitter writes text with the value intended.

  lemma AndMeans(left: Text, right: Text, page: Page, v: bool, w: bool)
    requires Means(left, page, v) && Means(right, page, w)
    ensures Means(And(left, right), page, v && w)
  {
    GuardedIsAnd(left, page, v);
    GuardedIsAnd(right, page, w);
    LiteralsMean(page);
    if left != FALSE && right != FALSE && left != TRUE && right != TRUE {
      JoinAnd(Guarded(left), Guarded(right), page, v, w);
    }
  }

  lemma OrMeans(left: Text, right: Text, page: Page, v: bool, w: bool)
    requires Means(left, page, v) && Means(right, page, w)
    ensures Means(Or(left, right), page, v || w)
  {
    LiteralsMean(page);
    if left == TRUE || right == TRUE || (left == FALSE && right == FALSE) {
    } else {
      BracketedMeans(left, page, v);
      BracketedMeans(right, page, w);
      var x := [OrOr] + Bracketed(right);
      BracketedIsUnary(left, x, page, v);
      assert Bracketed(left) + [OrOr] + Bracketed(right) == Bracketed(left) + x;
      assert x[1..] == Bracketed(right);
    }
  }

  lemma FlipMeans(p: Text, page: Page, v: bool)
    requires Means(p, page, v)
    ensures Means(Flip(p), page, !v)
  {
    if p != TRUE && p != FALSE {
      var t := [Bang] + Bracketed(p);
      BracketedMeans(p, page, v);
      assert t[1..] == Bracketed(p);
      UnaryMeans(t, page, !v);
    } else {
      LiteralsMean(page);
    }
  }

  // ---------------------------------------------------------------------
  // Every nesting of the three.

  datatype Expr =
    | Lit(value: bool)
    | Leaf(atom: string)
    | Conj(left: Expr, right: Expr)
    | Disj(left: Expr, right: Expr)
    | Neg(operand: Expr)

  function Emit(e: Expr): Text {
    match e
    case Lit(b) => if b then TRUE else FALSE
    case Leaf(a) => [Atom(a)]
    case Conj(l, r) => And(Emit(l), Emit(r))
    case Disj(l, r) => Or(Emit(l), Emit(r))
    case Neg(x) => Flip(Emit(x))
  }

  function Eval(e: Expr, page: Page): bool {
    match e
    case Lit(b) => b
    case Leaf(a) => page(a)
    case Conj(l, r) => Eval(l, page) && Eval(r, page)
    case Disj(l, r) => Eval(l, page) || Eval(r, page)
    case Neg(x) => !Eval(x, page)
  }

  /** The text of any nesting reads back, at JavaScript's precedence, as the
      value of that nesting: the brackets `_and`, `_or` and `_not` write suffice. */
  lemma {:induction false} EmitMeans(e: Expr, page: Page)
    ensures Means(Emit(e), page, Eval(e, page))
  {
    match e {
      case Lit(b) => LiteralsMean(page);
      case Leaf(a) => UnaryMeans([Atom(a)], page, page(a));
      case Conj(l, r) =>
        EmitMeans(l, page);
        EmitMeans(r, page);
        AndMeans(Emit(l), Emit(r), page, Eval(l, page), Eval(r, page));
      case Disj(l, r) =>
        EmitMeans(l, page);
        EmitMeans(r, page);
        OrMeans(Emit(l), Emit(r), page, Eval(l, page), Eval(r, page));
      case Neg(x) =>
        EmitMeans(x, page);
        FlipMeans(Emit(x), page, Eval(x, page));
    }
  }

  /** A conjunction before an `||` is its left operand. */
  lemma OrAfter(q: Text, r: Text, page: Page, v: bool, w: bool)
    requires ReadAnd(q, page) == Some((v, [])) && Means(r, page, w)
    ensures Means(q + [OrOr] + r, page, v || w)
  {
    var x := [OrOr] + r;
    ExtendAnd(q, x, page);
    assert q + [OrOr] + r == q + x && [] + x == x && x[1..] == r;
  }

  lemma BracketedJoins(p: Text, either: Text, page: Page, u: bool, v: bool)
    requires ReadAnd(p, page) == Some((u, [])) && Means(either, page, v)
    ensures Means(p + [AndAnd] + Bracketed(either), page, u && v)
  {
    BracketedMeans(either, page, v);
    UnaryMeans(Bracketed(either), page, v);
    JoinAnd(p, Bracketed(either), page, u, v);
  }

  lemma BareJoins(p: Text, q: Text, r: Text, page: Page, u: bool, v: bool, w: bool)
    requires ReadAnd(p, page) == Some((u, [])) && ReadAnd(q, page) == Some((v, [])) && Means(r, page, w)
    ensures Means(p + [AndAnd] + (q + [OrOr] + r), page, (u && v) || w)
  {
    JoinAnd(p, q, page, u, v);
    OrAfter(p + [AndAnd] + q, r, page, u && v, w);
    assert p + [AndAnd] + (q + [OrOr] + r) == p + [AndAnd] + q + [OrOr] + r;
  }

  /** A disjunction in the text of a conjunction: bracketed, it is one operand; bare, its
      first operand joins the conjunction, so the text has another value on every page
      where the first conjunct is false and the last disjunct true, and on no other. */
  lemma BracketsNeeded(p: Text, q: Text, r: Text, page: Page, u: bool, v: bool, w: bool)
    requires ReadAnd(p, page) == Some((u, [])) && ReadAnd(q, page) == Some((v, [])) && Means(r, page, w)
    ensures Means(q + [OrOr] + r, page, v || w)
    ensures Means(p + [AndAnd] + Bracketed(q + [OrOr] + r), page, u && (v || w))
    ensures Means(p + [AndAnd] + (q + [OrOr] + r), page, u && (v || w)) <==> u || !w
  {
    OrAfter(q, r, page, v, w);
    BracketedJoins(p, q + [OrOr] + r, page, u, v || w);
    BareJoins(p, q, r, page, u, v, w);
  }
}
