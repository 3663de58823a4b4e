/** Order-preserving surgery on lists without duplicates, top element first. */
module Stacking {
  import opened Sequences

  /** `xs` without the elements of `ys`, order kept. */
  function Minus<T(==)>(xs: seq<T>, ys: seq<T>): (r: seq<T>)
    ensures forall x :: x in r ==> x in xs && x !in ys
    ensures forall x :: x in xs && x !in ys ==> x in r
    ensures Distinct(xs) ==> Distinct(r)
  {
    if xs == [] then []
    else
      var rest := Minus(xs[1..], ys);
      assert Distinct(xs) ==> Distinct(xs[1..]) && xs[0] !in xs[1..];
      if xs[0] in ys then rest else [xs[0]] + rest
  }

  /** The list after its elements `xs` have been moved on top, in the order of `xs`. */
  function Lift<T(==)>(xs: seq<T>, layer: seq<T>): (r: seq<T>)
    ensures forall x :: x in r ==> x in xs || x in layer
    ensures forall x :: x in xs ==> x in r
    ensures forall x :: x in layer ==> x in r
    ensures Distinct(xs) && Distinct(layer) ==> Distinct(r)
  {
    var rest := Minus(layer, xs);
    assert forall j :: 0 <= j < |rest| ==> rest[j] in rest;
    xs + rest
  }

  /** The elements of `xs` that are in `keep`, order kept. */
  function Filter<T(==)>(xs: seq<T>, keep: set<T>): (r: seq<T>)
    ensures forall x :: x in r ==> x in xs && x in keep
    ensures forall x :: x in xs && x in keep ==> x in r
    ensures Distinct(xs) ==> Distinct(r)
  {
    if xs == [] then []
    else
      var rest := Filter(xs[1..], keep);
      assert Distinct(xs) ==> Distinct(xs[1..]) && xs[0] !in xs[1..];
      if xs[0] in keep then [xs[0]] + rest else rest
  }

  /** `x` stands before `y` in `xs`. */
  ghost predicate Before<T>(xs: seq<T>, x: T, y: T) {
    exists i, j :: 0 <= i < j < |xs| && xs[i] == x && xs[j] == y
  }

  lemma {:induction false} MinusAppend<T>(xs: seq<T>, ys: seq<T>, zs: seq<T>)
    ensures Minus(xs + ys, zs) == Minus(xs, zs) + Minus(ys, zs)
  {
    if xs == [] {
      assert xs + ys == ys;
    } else {
      assert (xs + ys)[1..] == xs[1..] + ys;
      MinusAppend(xs[1..], ys, zs);
    }
  }

  lemma {:induction false} MinusAbsent<T>(xs: seq<T>, ys: seq<T>)
    requires forall x :: x in xs ==> x !in ys
    ensures Minus(xs, ys) == xs
  {
    if xs != [] {
      assert forall x :: x in xs[1..] ==> x in xs;
      MinusAbsent(xs[1..], ys);
    }
  }

  lemma {:induction false} MinusTwice<T>(xs: seq<T>, ys: seq<T>, zs: seq<T>)
    ensures Minus(Minus(xs, ys), zs) == Minus(xs, zs + ys)
  {
    if xs != [] {
      MinusTwice(xs[1..], ys, zs);
      var rest := Minus(xs[1..], ys);
      assert xs[0] !in ys ==> ([xs[0]] + rest)[1..] == rest;
    }
  }

  lemma {:induction false} FilterAppend<T>(xs: seq<T>, ys: seq<T>, keep: set<T>)
    ensures Filter(xs + ys, keep) == Filter(xs, keep) + Filter(ys, keep)
  {
    if xs == [] {
      assert xs + ys == ys;
    } else {
      assert (xs + ys)[1..] == xs[1..] + ys;
      FilterAppend(xs[1..], ys, keep);
    }
  }

  /** Taking some elements out of a list leaves the rest in place. */
  lemma {:induction false} FilterIsMinus<T>(xs: seq<T>, keep: set<T>, out: seq<T>)
    requires forall x :: x in xs ==> (x in keep <==> x !in out)
    ensures Filter(xs, keep) == Minus(xs, out)
  {
    if xs != [] {
      assert forall x :: x in xs[1..] ==> x in xs;
      FilterIsMinus(xs[1..], keep, out);
    }
  }

  /** A filter keeps relative order, in both directions. */
  lemma {:induction false} FilterKeepsOrder<T>(xs: seq<T>, keep: set<T>, x: T, y: T)
    requires x in keep && y in keep
    ensures Before(Filter(xs, keep), x, y) <==> Before(xs, x, y)
  {
    if xs != [] {
      var t, f := xs[1..], Filter(xs[1..], keep);
      FilterKeepsOrder(t, keep, x, y);
      BeforeCons(xs[0], t, x, y);
      assert [xs[0]] + t == xs;
      if xs[0] in keep {
        BeforeCons(xs[0], f, x, y);
      }
    }
  }

  lemma BeforeCons<T>(h: T, t: seq<T>, x: T, y: T)
    ensures Before([h] + t, x, y) <==> (h == x && y in t) || Before(t, x, y)
  {
    var xs := [h] + t;
    if Before(xs, x, y) {
      var i, j :| 0 <= i < j < |xs| && xs[i] == x && xs[j] == y;
      if i == 0 {
        assert t[j - 1] == y;
      } else {
        assert t[i - 1] == x && t[j - 1] == y;
      }
    }
    if h == x && y in t {
      var j :| 0 <= j < |t| && t[j] == y;
      assert xs[0] == x && xs[j + 1] == y;
    }
    if Before(t, x, y) {
      var i, j :| 0 <= i < j < |t| && t[i] == x && t[j] == y;
      assert xs[i + 1] == x && xs[j + 1] == y;
    }
  }

  /** Splitting a list in two by a filter loses and duplicates nothing. */
  lemma {:induction false} SplitKeepsAll<T>(xs: seq<T>, keep: set<T>, rest: set<T>)
    requires forall x :: x in xs ==> (x in keep <==> x !in rest)
    ensures multiset(Filter(xs, keep)) + multiset(Filter(xs, rest)) == multiset(xs)
  {
    if xs != [] {
      assert forall x :: x in xs[1..] ==> x in xs;
      SplitKeepsAll(xs[1..], keep, rest);
      assert xs == [xs[0]] + xs[1..];
    }
  }

  lemma {:induction false} MinusNothing<T>(xs: seq<T>)
    ensures Minus(xs, []) == xs
  {
    if xs != [] {
      MinusNothing(xs[1..]);
    }
  }

  lemma Associates<T>(a: seq<T>, b: seq<T>, c: seq<T>)
    ensures a + (b + c) == (a + b) + c
  {
  }

  /** Moving one more element on top of the ones already lifted. */
  lemma LiftOne<T>(x: T, xs: seq<T>, layer: seq<T>)
    requires x !in xs
    ensures [x] + Minus(Lift(xs, layer), [x]) == Lift([x] + xs, layer)
    ensures Minus(Minus(layer, xs), [x]) == Minus(layer, [x] + xs)
  {
    var rest := Minus(layer, xs);
    MinusTwice(layer, xs, [x]);
    MinusAppend(xs, rest, [x]);
    MinusAbsent(xs, [x]);
    Associates([x], xs, Minus(rest, [x]));
  }

  /** A list raised by a filter: the kept part first, then the rest. Each part is in
      its old order, and nothing is lost or duplicated. */
  lemma RaisedOrder<T>(xs: seq<T>, keep: set<T>, rest: set<T>, raised: seq<T>, x: T, y: T)
    requires forall z :: z in xs ==> (z in keep <==> z !in rest)
    requires raised == Filter(xs, keep) + Filter(xs, rest) && Distinct(xs)
    ensures multiset(raised) == multiset(xs)
    ensures x in keep && y in keep && x in xs && y in xs ==> (Before(raised, x, y) <==> Before(xs, x, y))
    ensures x in rest && y in rest && x in xs && y in xs ==> (Before(raised, x, y) <==> Before(xs, x, y))
    ensures x in keep && y in rest && x in xs && y in xs ==> Before(raised, x, y) && !Before(raised, y, x)
  {
    SplitKeepsAll(xs, keep, rest);
    var k, r := Filter(xs, keep), Filter(xs, rest);
    BeforeAppend(k, r, x, y);
    BeforeAppend(k, r, y, x);
    if x in keep && y in keep {
      FilterKeepsOrder(xs, keep, x, y);
    }
    if x in rest && y in rest {
      FilterKeepsOrder(xs, rest, x, y);
    }
    assert forall a, b :: Before(r, a, b) ==> a in r && b in r;
    assert forall a, b :: Before(k, a, b) ==> a in k && b in k;
  }

  lemma BeforeAppend<T>(a: seq<T>, b: seq<T>, x: T, y: T)
    ensures Before(a + b, x, y) <==> Before(a, x, y) || Before(b, x, y) || (x in a && y in b)
  {
    var ab := a + b;
    if Before(ab, x, y) {
      var i, j :| 0 <= i < j < |ab| && ab[i] == x && ab[j] == y;
      if j < |a| {
        assert a[i] == x && a[j] == y;
      } else if i >= |a| {
        assert b[i - |a|] == x && b[j - |a|] == y;
      } else {
        assert a[i] == x && b[j - |a|] == y;
      }
    }
    if Before(a, x, y) {
      var i, j :| 0 <= i < j < |a| && a[i] == x && a[j] == y;
      assert ab[i] == x && ab[j] == y;
    }
    if Before(b, x, y) {
      var i, j :| 0 <= i < j < |b| && b[i] == x && b[j] == y;
      assert ab[i + |a|] == x && ab[j + |a|] == y;
    }
    if x in a && y in b {
      var i :| 0 <= i < |a| && a[i] == x;
      var j :| 0 <= j < |b| && b[j] == y;
      assert ab[i] == x && ab[j + |a|] == y;
    }
  }

  lemma FilterCons<T>(x: T, xs: seq<T>, keep: set<T>)
    ensures Filter([x] + xs, keep) == if x in keep then [x] + Filter(xs, keep) else Filter(xs, keep)
  {
    assert ([x] + xs)[1..] == xs;
  }

  /** The last element of the part still to do is not in the part done. */
  lemma LastIsNew<T>(xs: seq<T>, todo: seq<T>, done: seq<T>)
    requires Distinct(xs) && xs == todo + done && todo != []
    ensures todo[|todo| - 1] !in done
    ensures xs == todo[..|todo| - 1] + ([todo[|todo| - 1]] + done)
  {
    var x := todo[|todo| - 1];
    assert xs[|todo| - 1] == x;
    assert forall j :: 0 <= j < |done| ==> xs[|todo| + j] == done[j];
    assert todo == todo[..|todo| - 1] + [x];
  }

  /** One step of splitting a list from the back: its last element is taken, or stays. */
  lemma SplitStep<T>(list: seq<T>, todo: seq<T>, done: seq<T>, keep: set<T>, rest: set<T>)
    requires list == todo + done && todo != []
    requires todo[|todo| - 1] in keep <==> todo[|todo| - 1] !in rest
    ensures var x, before := todo[|todo| - 1], todo[..|todo| - 1];
      && list == before + ([x] + done)
      && Filter([x] + done, keep) == (if x in keep then [x] + Filter(done, keep) else Filter(done, keep))
      && before + Filter([x] + done, rest) ==
           (if x in keep then before + (todo + Filter(done, rest))[|todo|..] else todo + Filter(done, rest))
  {
    var x, before := todo[|todo| - 1], todo[..|todo| - 1];
    FilterCons(x, done, keep);
    FilterCons(x, done, rest);
    LastMoves(todo, done);
    LastMoves(todo, Filter(done, rest));
  }

  lemma LastMoves<T>(todo: seq<T>, more: seq<T>)
    requires todo != []
    ensures todo[..|todo| - 1] + ([todo[|todo| - 1]] + more) == todo + more
    ensures (todo + more)[|todo|..] == more
  {
  }

  lemma DistinctAppend<T>(a: seq<T>, b: seq<T>)
    requires Distinct(a) && Distinct(b) && forall x :: x in a ==> x !in b
    ensures Distinct(a + b)
  {
    assert forall i :: 0 <= i < |a| ==> a[i] in a;
    assert forall j :: 0 <= j < |b| ==> b[j] in b;
  }
}
