/**
 Outputs in a line, and what turning one does to the others
 (chromiumos-ash/aurade-weston-shell.c:697-709, 931-1004). Turning an output swaps
 its width and height, and the ones right of it move by the difference.
 */
module OutputLine {
  import opened Wrappers

  datatype Turn = T0 | T90 | T180 | T270

  datatype Transform = Transform(turn: Turn, flipped: bool)

  /** An output as weston keeps it. Its native size is that of its mode. */
  datatype Output = Output(
    name: Option<string>, nativeWidth: int, nativeHeight: int, x: int, transform: Transform, destroying: bool)
  {
    function Width(): int {
      if transform.turn in {T90, T270} then nativeHeight else nativeWidth
    }

    predicate HasSize() {
      nativeWidth > 0 && nativeHeight > 0
    }
  }

  /** One display in Ash's arrangement. */
  datatype Entry = Entry(name: string, x: real, y: real, width: real, height: real, rotation: int)

  type Layout = seq<Entry>

  function LayoutFor(layout: Layout, name: Option<string>): (e: Option<Entry>)
    ensures e.Some? ==> e.value in layout && name == Some(e.value.name)
  {
    if name.None? || layout == [] then None
    else if layout[0].name == name.value then Some(layout[0])
    else LayoutFor(layout[1..], name)
  }

  /** The first entry with an output's name. */
  ghost predicate IsEntry(layout: Layout, name: Option<string>, i: nat) {
    && i < |layout| && name == Some(layout[i].name)
    && forall j :: 0 <= j < i ==> layout[j].name != layout[i].name
  }

  lemma {:induction false} LayoutForIs(layout: Layout, name: Option<string>)
    ensures LayoutFor(layout, name).None? <==> forall i: nat :: !IsEntry(layout, name, i)
    ensures forall i: nat :: IsEntry(layout, name, i) ==> LayoutFor(layout, name) == Some(layout[i])
  {
    if name.Some? && layout != [] {
      var rest := layout[1..];
      LayoutForIs(rest, name);
      if layout[0].name == name.value {
        assert IsEntry(layout, name, 0);
      } else {
        forall i: nat
          ensures IsEntry(layout, name, i + 1) <==> IsEntry(rest, name, i)
        {
          assert forall j :: 0 < j <= i && i < |rest| ==> layout[j] == rest[j - 1];
          assert forall j :: 0 <= j < i && i < |rest| ==> rest[j] == layout[j + 1];
        }
        forall i: nat | IsEntry(layout, name, i)
          ensures i > 0 && IsEntry(rest, name, i - 1)
        {
          assert i > 0 && IsEntry(layout, name, (i - 1) + 1);
        }
      }
    }
  }

  /** Ash turns a display clockwise, an output's transform turns the picture
      counter-clockwise. */
  function TransformFor(rotation: int): Transform {
    Transform(
      if rotation == 90 then T270 else if rotation == 180 then T180 else if rotation == 270 then T90 else T0, false)
  }

  /** By how much a transform turns the picture counter-clockwise. */
  function Degrees(t: Turn): nat {
    match t
    case T0 => 0
    case T90 => 90
    case T180 => 180
    case T270 => 270
  }

  // ---------------------------------------------------------------------
  // Turning.

  type Outputs = seq<Output>

  function Shifted(o: Output, delta: int, past: int): Output {
    if o.destroying || o.x <= past then o else o.(x := o.x + delta)
  }

  function TurnOne(os: Outputs, i: nat, t: Transform): (r: Outputs)
    requires i < |os|
    ensures |r| == |os|
  {
    var turned := os[i].(transform := t);
    var delta := turned.Width() - os[i].Width();
    seq(|os|, j requires 0 <= j < |os| => if j == i then turned else Shifted(os[j], delta, os[i].x))
  }

  /** The transform Ash wants for an output, if it has placed it. */
  function Wanted(layout: Layout, o: Output): Option<Transform> {
    if o.destroying then None else
    var e := LayoutFor(layout, o.name);
    if e.None? then None else Some(TransformFor(e.value.rotation))
  }

  function Settle(os: Outputs, layout: Layout, i: nat): (r: Outputs)
    requires i < |os|
    ensures |r| == |os|
  {
    var t := Wanted(layout, os[i]);
    if t.Some? && t.value != os[i].transform then TurnOne(os, i, t.value) else os
  }

  predicate IndexesOf(order: seq<nat>, n: nat) {
    forall k :: 0 <= k < |order| ==> order[k] < n
  }

  /** One pass over the outputs, in the shell's order. */
  function TurnAll(os: Outputs, layout: Layout, order: seq<nat>): (r: Outputs)
    requires IndexesOf(order, |os|)
    ensures |r| == |os|
    decreases |order|
  {
    if order == [] then os
    else
      TurnAll(Settle(os, layout, order[0]), layout, order[1..])
  }

  // ---------------------------------------------------------------------
  // The line.

  predicate Live(os: Outputs, i: nat) {
    i < |os| && !os[i].destroying
  }

  ghost predicate LeftOf(os: Outputs, i: nat, j: nat)
    requires i < |os| && j < |os|
  {
    os[i].x < os[j].x
  }

  /** Outputs that are not going away have a size and stand apart, in some order. */
  ghost predicate InLine(os: Outputs) {
    && (forall i :: 0 <= i < |os| ==> os[i].HasSize())
    && forall i: nat, j: nat :: Live(os, i) && Live(os, j) && i != j ==>
         os[i].x + os[i].Width() <= os[j].x || os[j].x + os[j].Width() <= os[i].x
  }

  /** No output stands between `i` and `j`, and `j` is on the right. */
  ghost predicate NextTo(os: Outputs, i: nat, j: nat) {
    && Live(os, i) && Live(os, j) && LeftOf(os, i, j)
    && forall k: nat :: Live(os, k) ==> !(LeftOf(os, i, k) && LeftOf(os, k, j))
  }

  ghost function Gap(os: Outputs, i: nat, j: nat): int
    requires i < |os| && j < |os|
  {
    os[j].x - (os[i].x + os[i].Width())
  }

  /** The same output but for its place and transform. */
  predicate SameOutput(a: Output, b: Output) {
    b == a.(x := b.x, transform := b.transform)
  }

  /** `after` is the same line: same outputs in the same order, each gap as wide. */
  ghost predicate SameLine(before: Outputs, after: Outputs) {
    && |after| == |before|
    && (forall i :: 0 <= i < |before| ==> SameOutput(before[i], after[i]))
    && (forall i: nat, j: nat :: Live(before, i) && Live(before, j) ==> (LeftOf(before, i, j) <==> LeftOf(after, i, j)))
    && (forall i: nat, j: nat :: NextTo(before, i, j) ==> Gap(after, i, j) == Gap(before, i, j))
    && (forall i: nat :: Live(before, i) ==> Slack(after, i, |after|) == Slack(before, i, |before|))
  }

  /** The total width of the first `n` outputs of the list that stand left of `i`. */
  ghost function WidthLeft(os: Outputs, i: nat, n: nat): int
    requires i < |os| && n <= |os|
  {
    if n == 0 then 0
    else WidthLeft(os, i, n - 1) + (if Live(os, n - 1) && LeftOf(os, n - 1, i) then os[n - 1].Width() else 0)
  }

  /** Where `i` would stand if every output left of it had no width: what the gaps
      and the start of the line add up to. */
  ghost function Slack(os: Outputs, i: nat, n: nat): int
    requires i < |os| && n <= |os|
  {
    os[i].x - WidthLeft(os, i, n)
  }

  lemma TurnOneOrder(os: Outputs, t: nat, to: Transform, i: nat, j: nat)
    requires InLine(os) && Live(os, t) && Live(os, i) && Live(os, j)
    ensures LeftOf(os, i, j) <==> LeftOf(TurnOne(os, t, to), i, j)
  {
  }

  lemma {:induction false} TurnOneWidthLeft(os: Outputs, t: nat, to: Transform, i: nat, n: nat)
    requires InLine(os) && Live(os, t) && Live(os, i) && n <= |os|
    ensures var after := TurnOne(os, t, to);
      WidthLeft(after, i, n) ==
        WidthLeft(os, i, n) + (if t < n && LeftOf(os, t, i) then after[t].Width() - os[t].Width() else 0)
  {
    if n > 0 {
      TurnOneWidthLeft(os, t, to, i, n - 1);
      if Live(os, n - 1) {
        TurnOneOrder(os, t, to, n - 1, i);
      }
    }
  }

  lemma TurnOneStaysApart(os: Outputs, t: nat, to: Transform, i: nat, j: nat)
    requires InLine(os) && Live(os, t) && Live(os, i) && Live(os, j) && LeftOf(os, i, j)
    ensures var after := TurnOne(os, t, to); after[i].x + after[i].Width() <= after[j].x
  {
    assert os[i].x + os[i].Width() <= os[j].x;
    assert t != i && t != j && LeftOf(os, i, t) ==> os[i].x + os[i].Width() <= os[t].x;
    assert t != j && LeftOf(os, t, j) ==> os[t].x + os[t].Width() <= os[j].x;
  }

  lemma TurnOneGap(os: Outputs, t: nat, to: Transform, i: nat, j: nat)
    requires InLine(os) && Live(os, t) && NextTo(os, i, j)
    ensures Gap(TurnOne(os, t, to), i, j) == Gap(os, i, j)
  {
    assert !(LeftOf(os, i, t) && LeftOf(os, t, j));
  }

  lemma TurnOneKeepsLine(os: Outputs, t: nat, to: Transform)
    requires InLine(os) && Live(os, t)
    ensures InLine(TurnOne(os, t, to)) && SameLine(os, TurnOne(os, t, to))
  {
    var after := TurnOne(os, t, to);
    forall i: nat, j: nat | Live(os, i) && Live(os, j)
      ensures LeftOf(os, i, j) <==> LeftOf(after, i, j)
      ensures LeftOf(os, i, j) ==> after[i].x + after[i].Width() <= after[j].x
    {
      TurnOneOrder(os, t, to, i, j);
      if LeftOf(os, i, j) {
        TurnOneStaysApart(os, t, to, i, j);
      }
    }
    forall i: nat, j: nat | NextTo(os, i, j)
      ensures Gap(after, i, j) == Gap(os, i, j)
    {
      TurnOneGap(os, t, to, i, j);
    }
    forall i: nat | Live(os, i)
      ensures Slack(after, i, |after|) == Slack(os, i, |os|)
    {
      TurnOneWidthLeft(os, t, to, i, |os|);
    }
    LinedUp(os, after);
  }

  lemma LinedUp(os: Outputs, after: Outputs)
    requires InLine(os) && |after| == |os| && forall i :: 0 <= i < |os| ==> SameOutput(os[i], after[i])
    requires forall i: nat, j: nat :: Live(os, i) && Live(os, j) && LeftOf(os, i, j) ==>
      after[i].x + after[i].Width() <= after[j].x
    ensures InLine(after)
  {
    forall i: nat, j: nat | Live(after, i) && Live(after, j) && i != j
      ensures after[i].x + after[i].Width() <= after[j].x || after[j].x + after[j].Width() <= after[i].x
    {
      assert Live(os, i) && Live(os, j);
      assert LeftOf(os, i, j) || LeftOf(os, j, i);
    }
  }

  lemma SameLineTrans(a: Outputs, b: Outputs, c: Outputs)
    requires SameLine(a, b) && SameLine(b, c)
    ensures SameLine(a, c)
  {
    forall i: nat, j: nat | NextTo(a, i, j)
      ensures NextTo(b, i, j)
    {
      assert forall k: nat :: Live(b, k) ==> Live(a, k);
    }
  }

  lemma SettleKeepsLine(os: Outputs, layout: Layout, i: nat)
    requires InLine(os) && i < |os|
    ensures InLine(Settle(os, layout, i)) && SameLine(os, Settle(os, layout, i))
  {
    var t := Wanted(layout, os[i]);
    if t.Some? && t.value != os[i].transform {
      TurnOneKeepsLine(os, i, t.value);
    }
  }

  /** A pass keeps the line, and afterwards every placed output that is not going
      away has the transform Ash wants. */
  lemma {:induction false} TurnAllKeepsLine(os: Outputs, layout: Layout, order: seq<nat>)
    requires InLine(os) && IndexesOf(order, |os|)
    ensures InLine(TurnAll(os, layout, order)) && SameLine(os, TurnAll(os, layout, order))
    ensures forall i: nat :: i in order && Live(os, i) && Wanted(layout, os[i]).Some? ==>
      TurnAll(os, layout, order)[i].transform == Wanted(layout, os[i]).value
    ensures forall i: nat :: i < |os| && i !in order ==> TurnAll(os, layout, order)[i].transform == os[i].transform
    decreases |order|
  {
    if order != [] {
      var next, rest := Settle(os, layout, order[0]), order[1..];
      SettleKeepsLine(os, layout, order[0]);
      TurnAllKeepsLine(next, layout, rest);
      SameLineTrans(os, next, TurnAll(next, layout, rest));
      assert forall i: nat :: i < |os| ==> Wanted(layout, next[i]) == Wanted(layout, os[i]);
    }
  }

  /** So every output that Ash has placed and that is not going away is upright after a pass,
      and as wide as it then is. */
  lemma StandsUpright(os: Outputs, layout: Layout, order: seq<nat>, i: nat, k: nat)
    requires InLine(os) && IndexesOf(order, |os|) && i in order && Live(os, i)
    requires IsEntry(layout, os[i].name, k) && layout[k].rotation in {0, 90, 180, 270}
    ensures var after := TurnAll(os, layout, order)[i];
      && (Degrees(after.transform.turn) + layout[k].rotation) % 360 == 0 && !after.transform.flipped
      && after.Width() == if layout[k].rotation in {90, 270} then os[i].nativeHeight else os[i].nativeWidth
  {
    LayoutForIs(layout, os[i].name);
    PassSettles(os, layout, order, i, TransformFor(layout[k].rotation));
    UprightAgain(os[i], TurnAll(os, layout, order)[i], layout[k].rotation);
  }

  lemma PassSettles(os: Outputs, layout: Layout, order: seq<nat>, i: nat, t: Transform)
    requires InLine(os) && IndexesOf(order, |os|) && i in order && Live(os, i) && Wanted(layout, os[i]) == Some(t)
    ensures TurnAll(os, layout, order)[i].transform == t
    ensures SameOutput(os[i], TurnAll(os, layout, order)[i])
  {
    TurnAllKeepsLine(os, layout, order);
  }

  lemma UprightAgain(o: Output, after: Output, rotation: int)
    requires rotation in {0, 90, 180, 270} && SameOutput(o, after) && after.transform == TransformFor(rotation)
    ensures (Degrees(after.transform.turn) + rotation) % 360 == 0 && !after.transform.flipped
    ensures after.Width() == if rotation in {90, 270} then o.nativeHeight else o.nativeWidth
  {
  }

  /** One that Ash has not placed keeps its transform. */
  lemma {:induction false} UnplacedStays(os: Outputs, layout: Layout, order: seq<nat>, i: nat)
    requires IndexesOf(order, |os|) && i < |os| && forall k: nat :: !IsEntry(layout, os[i].name, k)
    ensures TurnAll(os, layout, order)[i].transform == os[i].transform
    decreases |order|
  {
    if order != [] {
      LayoutForIs(layout, os[i].name);
      UnplacedStays(Settle(os, layout, order[0]), layout, order[1..], i);
    }
  }

  /** And one that is going away is left where it is. */
  lemma {:induction false} GoingIsLeft(os: Outputs, layout: Layout, order: seq<nat>, i: nat)
    requires IndexesOf(order, |os|) && i < |os| && os[i].destroying
    ensures TurnAll(os, layout, order)[i] == os[i]
    decreases |order|
  {
    if order != [] {
      GoingIsLeft(Settle(os, layout, order[0]), layout, order[1..], i);
    }
  }

  predicate AllIndexesOf(passes: seq<(Layout, seq<nat>)>, n: nat) {
    forall k :: 0 <= k < |passes| ==> IndexesOf(passes[k].1, n)
  }

  /** Any number of passes, each with its own layout and order. */
  function TurnMany(os: Outputs, passes: seq<(Layout, seq<nat>)>): (r: Outputs)
    requires AllIndexesOf(passes, |os|)
    ensures |r| == |os|
    decreases |passes|
  {
    if passes == [] then os
    else
      TurnMany(TurnAll(os, passes[0].0, passes[0].1), passes[1..])
  }

  lemma {:induction false} TurnManyKeepsLine(os: Outputs, passes: seq<(Layout, seq<nat>)>)
    requires InLine(os) && AllIndexesOf(passes, |os|)
    ensures InLine(TurnMany(os, passes)) && SameLine(os, TurnMany(os, passes))
    decreases |passes|
  {
    if passes != [] {
      var next := TurnAll(os, passes[0].0, passes[0].1);
      TurnAllKeepsLine(os, passes[0].0, passes[0].1);
      TurnManyKeepsLine(next, passes[1..]);
      SameLineTrans(os, next, TurnMany(next, passes[1..]));
    }
  }

  lemma {:induction false} SameWidthsSameLeft(a: Outputs, b: Outputs, i: nat, n: nat)
    requires SameLine(a, b) && Live(a, i) && n <= |a|
    requires forall j: nat :: Live(a, j) ==> b[j].Width() == a[j].Width()
    ensures WidthLeft(b, i, n) == WidthLeft(a, i, n)
  {
    if n > 0 {
      SameWidthsSameLeft(a, b, i, n - 1);
      assert Live(a, n - 1) ==> Live(b, n - 1);
    }
  }

  /** Turning back: after any number of passes, once every output has its first
      width again it is where it first was. */
  lemma TurningBackRestores(os: Outputs, passes: seq<(Layout, seq<nat>)>, i: nat)
    requires InLine(os) && Live(os, i) && AllIndexesOf(passes, |os|)
    requires forall j: nat :: Live(os, j) ==> TurnMany(os, passes)[j].Width() == os[j].Width()
    ensures TurnMany(os, passes)[i].x == os[i].x
  {
    TurnManyKeepsLine(os, passes);
    SameWidthsSameLeft(os, TurnMany(os, passes), i, |os|);
  }

  // ---------------------------------------------------------------------
  // The compositor's outputs, changed in place.

  class Monitor {
    const name: Option<string>
    const nativeWidth: int
    const nativeHeight: int
    var width: int
    var height: int
    var x: int
    var transform: Transform
    var destroying: bool

    constructor (o: Output)
      ensures View() == o && Sized()
    {
      name, nativeWidth, nativeHeight := o.name, o.nativeWidth, o.nativeHeight;
      x, transform, destroying := o.x, o.transform, o.destroying;
      width := o.Width();
      height := if o.transform.turn in {T90, T270} then o.nativeWidth else o.nativeHeight;
    }

    function View(): Output
      reads this
    {
      Output(name, nativeWidth, nativeHeight, x, transform, destroying)
    }

    predicate Sized()
      reads this
    {
      width == View().Width() && height == if transform.turn in {T90, T270} then nativeWidth else nativeHeight
    }

    /** What weston does: the size follows the transform. */
    method SetTransform(t: Transform)
      modifies `transform, `width, `height
      ensures transform == t && Sized()
    {
      transform := t;
      width := if t.turn in {T90, T270} then nativeHeight else nativeWidth;
      height := if t.turn in {T90, T270} then nativeWidth else nativeHeight;
    }
  }

  class Compositor {
    const monitors: seq<Monitor>

    constructor (monitors: seq<Monitor>)
      ensures this.monitors == monitors
    {
      this.monitors := monitors;
    }

    ghost predicate Valid()
      reads this, monitors
    {
      && (forall i, j :: 0 <= i < j < |monitors| ==> monitors[i] != monitors[j])
      && forall m :: m in monitors ==> m.Sized()
    }

    function View(): Outputs
      reads this, monitors
    {
      seq(|monitors|, i requires 0 <= i < |monitors| reads this, monitors => monitors[i].View())
    }

    method TurnOutput(t: nat, to: Transform)
      requires Valid() && t < |monitors|
      modifies monitors
      ensures Valid()
      ensures View() == TurnOne(old(View()), t, to)
    {
      var m := monitors[t];
      var oldWidth := m.width;
      ghost var before := View();
      assert m in monitors && m.View() == before[t];
      m.SetTransform(to);
      var delta := m.width - oldWidth;
      if delta != 0 {
        ShiftOthers(t, delta);
      }
      assert delta == before[t].(transform := to).Width() - before[t].Width();
      forall k | 0 <= k < |monitors|
        ensures View()[k] == TurnOne(before, t, to)[k]
      {
        assert View()[k] == monitors[k].View() && before[k] == old(monitors[k].View());
        if k != t {
          assert monitors[k].View() == Shifted(before[k], delta, before[t].x);
        }
      }
    }

    /** Moves every output right of `t` that is not going away. */
    method ShiftOthers(t: nat, delta: int)
      requires Valid() && t < |monitors|
      modifies monitors`x
      ensures Valid()
      ensures forall k :: 0 <= k < |monitors| ==>
        monitors[k].View() ==
          if k == t then old(monitors[k].View()) else Shifted(old(monitors[k].View()), delta, old(monitors[t].x))
    {
      var m := monitors[t];
      var j := 0;
      while j < |monitors|
        invariant 0 <= j <= |monitors| && Valid() && m.x == old(m.x)
        invariant forall k :: 0 <= k < |monitors| ==>
          monitors[k].View() ==
            if k < j && k != t then Shifted(old(monitors[k].View()), delta, old(m.x)) else old(monitors[k].View())
      {
        var other := monitors[j];
        if other != m && !other.destroying && other.x > m.x {
          other.x := other.x + delta;
        }
        j := j + 1;
      }
    }

    method SettleOutput(layout: Layout, i: nat)
      requires Valid() && i < |monitors|
      modifies monitors
      ensures Valid()
      ensures View() == Settle(old(View()), layout, i)
    {
      var m := monitors[i];
      assert m.View() == View()[i];
      if m.destroying {
        return;
      }
      var e := LayoutFor(layout, m.name);
      if e.None? {
        return;
      }
      var t := TransformFor(e.value.rotation);
      if m.transform != t {
        TurnOutput(i, t);
      }
    }

    /** `order` is the shell's own list of the outputs. */
    method TurnOutputs(layout: Layout, order: seq<nat>)
      requires Valid() && IndexesOf(order, |monitors|)
      modifies monitors
      ensures Valid()
      ensures View() == TurnAll(old(View()), layout, order)
    {
      ghost var before := View();
      var n := 0;
      while n < |order|
        invariant 0 <= n <= |order| && Valid()
        invariant TurnAll(before, layout, order) == TurnAll(View(), layout, order[n..])
      {
        assert order[n..][1..] == order[n + 1..];
        SettleOutput(layout, order[n]);
        n := n + 1;
      }
    }
  }
}
