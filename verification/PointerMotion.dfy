/**
 The pointer in Ash's arrangement of the displays
 (chromiumos-ash/aurade-weston-shell.c:697-813). Positions are reals; an output's
 box is half-open, and its pixels run from its corner to one less than its size.
 */
module PointerMotion {
  import opened Wrappers
  import opened OutputLine

  datatype Point = Point(x: real, y: real)

  datatype Box = Box(x: real, y: real, width: real, height: real)
  {
    predicate Has(p: Point) {
      x <= p.x < x + width && y <= p.y < y + height
    }

    predicate Empty() {
      width <= 0.0 || height <= 0.0
    }
  }

  /** An output as the pointer sees it: its box in weston's pixels. */
  datatype Screen = Screen(name: Option<string>, x: int, y: int, width: int, height: int, destroying: bool)
  {
    function Pixels(): Box {
      Box(x as real, y as real, width as real, height as real)
    }

    predicate HasSize() {
      width > 0 && height > 0
    }
  }

  type Screens = seq<Screen>

  /** Where Ash has an output, in its logical pixels. */
  function AshBox(layout: Layout, s: Screen): Option<Box> {
    var e :- LayoutFor(layout, s.name);
    Some(Box(e.x, e.y, e.width, e.height))
  }

  function Clamp(v: real, low: real, high: real): real {
    if v < low then low else if v > high then high else v
  }

  /** One axis: from a stretch at `o` of length `a` to one at `to` of length `b`. */
  function MapAxis(v: real, o: real, a: real, to: real, b: real): real
    requires a > 0.0
  {
    to + (v - o) * b / a
  }

  /** Takes a point from one box to the same place in another. */
  function Map(p: Point, from: Box, to: Box): Point
    requires !from.Empty()
  {
    Point(MapAxis(p.x, from.x, from.width, to.x, to.width), MapAxis(p.y, from.y, from.height, to.y, to.height))
  }

  /** The output the pointer is on. */
  function ScreenAt(screens: Screens, p: Point): (r: Option<Screen>)
    ensures r.Some? ==> r.value in screens && !r.value.destroying && r.value.Pixels().Has(p)
    ensures r.None? ==> forall s :: s in screens ==> s.destroying || !s.Pixels().Has(p)
  {
    if screens == [] then None
    else if !screens[0].destroying && screens[0].Pixels().Has(p) then Some(screens[0])
    else ScreenAt(screens[1..], p)
  }

  predicate PlacedAt(layout: Layout, s: Screen, p: Point) {
    AshBox(layout, s).Some? && AshBox(layout, s).value.Has(p)
  }

  /** Whether Ash has this output, other than the one left, at the logical point. */
  predicate Reached(layout: Layout, from: Screen, s: Screen, at: Point) {
    && s != from && !s.destroying && s.HasSize()
    && AshBox(layout, s).Some? && !AshBox(layout, s).value.Empty() && PlacedAt(layout, s, at)
  }

  function TargetAt(layout: Layout, screens: Screens, from: Screen, at: Point): (r: Option<Screen>)
    ensures r.Some? ==> r.value in screens && Reached(layout, from, r.value, at)
    ensures r.None? ==> forall s :: s in screens ==> !Reached(layout, from, s, at)
  {
    if screens == [] then None
    else if Reached(layout, from, screens[0], at) then Some(screens[0])
    else TargetAt(layout, screens[1..], from, at)
  }

  function ClampTo(s: Screen, p: Point): Point {
    Point(Clamp(p.x, s.x as real, (s.x + s.width - 1) as real), Clamp(p.y, s.y as real, (s.y + s.height - 1) as real))
  }

  /** A relative motion that leaves its output: the output left, where the motion
      ends, and Ash's logical point there. None means the motion is weston's own. */
  datatype Crossing = Crossing(from: Screen, to: Point, at: Point)

  function Leaving(layout: Layout, screens: Screens, pos: Point, rel: Point): Option<Crossing> {
    if layout == [] then None else
    var from :- ScreenAt(screens, pos);
    var to := Point(pos.x + rel.x, pos.y + rel.y);
    if !from.HasSize() || from.Pixels().Has(to) then None else
    var ash :- AshBox(layout, from);
    if ash.Empty() then None else Some(Crossing(from, to, Map(to, from.Pixels(), ash)))
  }

  /** The point before the clamp, and the output it is clamped to. */
  function Landing(layout: Layout, screens: Screens, c: Crossing): (Screen, Point) {
    var target := TargetAt(layout, screens, c.from, c.at);
    if target.Some? then (target.value, Map(c.at, AshBox(layout, target.value).value, target.value.Pixels()))
    else (c.from, c.to)
  }

  function MapMotion(layout: Layout, screens: Screens, pos: Point, rel: Point): Option<Point> {
    var c :- Leaving(layout, screens, pos, rel);
    var (s, p) := Landing(layout, screens, c);
    Some(ClampTo(s, p))
  }

  // ---------------------------------------------------------------------
  // The search as the source runs it.

  method FindScreenAt(screens: Screens, p: Point) returns (r: Option<Screen>)
    ensures r == ScreenAt(screens, p)
  {
    var i := 0;
    while i < |screens|
      invariant 0 <= i <= |screens| && ScreenAt(screens, p) == ScreenAt(screens[i..], p)
    {
      assert screens[i..][1..] == screens[i + 1..];
      if !screens[i].destroying && screens[i].Pixels().Has(p) {
        return Some(screens[i]);
      }
      i := i + 1;
    }
    return None;
  }

  /** `relative` and `absolute` are the event's mask. */
  method MapPointerMotion(layout: Layout, screens: Screens, pos: Point, rel: Point, relative: bool, absolute: bool)
    returns (mapped: Option<Point>)
    ensures mapped == if relative && !absolute then MapMotion(layout, screens, pos, rel) else None
  {
    if layout == [] || !relative || absolute {
      return None;
    }
    var from := FindScreenAt(screens, pos);
    if from.None? || !from.value.HasSize() {
      return None;
    }
    var to := Point(pos.x + rel.x, pos.y + rel.y);
    if from.value.Pixels().Has(to) {
      return None;
    }
    var ash := AshBox(layout, from.value);
    if ash.None? || ash.value.Empty() {
      return None;
    }
    var at := Map(to, from.value.Pixels(), ash.value);
    var landing, target := to, from.value;
    var i := 0;
    while i < |screens|
      invariant 0 <= i <= |screens|
      invariant landing == to && target == from.value
      invariant TargetAt(layout, screens, from.value, at) == TargetAt(layout, screens[i..], from.value, at)
    {
      assert screens[i..][1..] == screens[i + 1..];
      if Reached(layout, from.value, screens[i], at) {
        landing, target := Map(at, AshBox(layout, screens[i]).value, screens[i].Pixels()), screens[i];
        break;
      }
      i := i + 1;
    }
    return Some(ClampTo(target, landing));
  }

  // ---------------------------------------------------------------------
  // Promises.

  /** Wherever a motion is remapped to, some output that is not going away has that
      pixel, and no pixel outside every output is ever given. */
  lemma LandsOnAnOutput(layout: Layout, screens: Screens, pos: Point, rel: Point)
    requires MapMotion(layout, screens, pos, rel).Some?
    ensures var p := MapMotion(layout, screens, pos, rel).value;
      exists s :: s in screens && !s.destroying && s.Pixels().Has(p)
        && p.x <= (s.x + s.width - 1) as real && p.y <= (s.y + s.height - 1) as real
  {
    var c := Leaving(layout, screens, pos, rel).value;
    var (s, p) := Landing(layout, screens, c);
    var q := ClampTo(s, p);
    assert s in screens && s.HasSize();
    assert s.Pixels().Has(q);
  }

  lemma Cancel(q: real, a: real, b: real)
    requires a > 0.0
    ensures q * a < b * a ==> q < b
    ensures q * a >= 0.0 ==> q >= 0.0
  {
  }

  /** One axis: scaling and scaling back is where it started, and stays inside. */
  lemma ScaleRoundTrips(v: real, a: real, b: real)
    requires a > 0.0 && b > 0.0
    ensures v * b / a * a / b == v
    ensures 0.0 <= v < a ==> 0.0 <= v * b / a < b
  {
    var q := v * b / a;
    assert q * a == v * b;
    Cancel(q, a, b);
    if 0.0 <= v < a {
      assert 0.0 <= v * b;
      assert v * b < a * b;
      assert a * b == b * a;
    }
  }

  lemma AxisRoundTrips(v: real, o: real, a: real, to: real, b: real)
    requires a > 0.0 && b > 0.0
    ensures MapAxis(MapAxis(v, o, a, to, b), to, b, o, a) == v
    ensures o <= v < o + a ==> to <= MapAxis(v, o, a, to, b) < to + b
  {
    ScaleRoundTrips(v - o, a, b);
    var q, w := (v - o) * b / a, MapAxis(v, o, a, to, b);
    assert w - to == q;
    assert MapAxis(w, to, b, o, a) == o + q * a / b;
  }

  /** Mapping to another box and back is where it started, and stays inside. */
  lemma MapRoundTrips(p: Point, from: Box, to: Box)
    requires !from.Empty() && !to.Empty()
    ensures Map(Map(p, from, to), to, from) == p
    ensures from.Has(p) ==> to.Has(Map(p, from, to))
  {
    AxisRoundTrips(p.x, from.x, from.width, to.x, to.width);
    AxisRoundTrips(p.y, from.y, from.height, to.y, to.height);
  }

  /** On a crossing, the point before the clamp is, in the target's own map, the very
      logical point the motion ended at, and the clamp moves it by less than a pixel
      each way. */
  lemma CrossingKeepsThePoint(layout: Layout, screens: Screens, c: Crossing)
    requires TargetAt(layout, screens, c.from, c.at).Some?
    ensures var (s, p) := Landing(layout, screens, c);
      && s != c.from && AshBox(layout, s).Some? && !s.Pixels().Empty()
      && Map(p, s.Pixels(), AshBox(layout, s).value) == c.at
      && s.Pixels().Has(p)
      && -1.0 < ClampTo(s, p).x - p.x <= 0.0 && -1.0 < ClampTo(s, p).y - p.y <= 0.0
  {
    var (s, p) := Landing(layout, screens, c);
    MapRoundTrips(c.at, AshBox(layout, s).value, s.Pixels());
  }

  /** Off Ash's desktop the pointer stays at the edge of its output it was pushed
      over, and is otherwise where the motion took it. */
  lemma OffTheDesktopStaysAtTheEdge(layout: Layout, screens: Screens, pos: Point, rel: Point)
    requires Leaving(layout, screens, pos, rel).Some?
    requires var c := Leaving(layout, screens, pos, rel).value; TargetAt(layout, screens, c.from, c.at).None?
    ensures var c, p := Leaving(layout, screens, pos, rel).value, MapMotion(layout, screens, pos, rel).value;
      var left, right, top, bottom := c.from.x as real, (c.from.x + c.from.width - 1) as real,
        c.from.y as real, (c.from.y + c.from.height - 1) as real;
      && (c.to.x < left ==> p.x == left) && (c.to.x > right ==> p.x == right)
      && (left <= c.to.x <= right ==> p.x == c.to.x)
      && (c.to.y < top ==> p.y == top) && (c.to.y > bottom ==> p.y == bottom)
      && (top <= c.to.y <= bottom ==> p.y == c.to.y)
      && (p.x in {left, right} || p.y in {top, bottom})
  {
  }

  // ---------------------------------------------------------------------
  // From the request alone.

  ghost predicate Covers(b: Box, p: Point) {
    b.x <= p.x < b.x + b.width && b.y <= p.y < b.y + b.height
  }

  /** The first output that is not going away and has the point. */
  ghost predicate IsUnder(screens: Screens, p: Point, i: nat) {
    && i < |screens| && !screens[i].destroying && Covers(screens[i].Pixels(), p)
    && forall j :: 0 <= j < i ==> screens[j].destroying || !Covers(screens[j].Pixels(), p)
  }

  function BoxOf(e: Entry): Box {
    Box(e.x, e.y, e.width, e.height)
  }

  /** Ash has the output, in a box with a size. */
  ghost predicate AshHas(layout: Layout, s: Screen, b: Box) {
    && b.width > 0.0 && b.height > 0.0
    && exists i: nat :: IsEntry(layout, s.name, i) && BoxOf(layout[i]) == b
  }

  /** Two values are as far into their stretches, in proportion. */
  ghost predicate SameShare(v: real, o: real, a: real, w: real, to: real, b: real) {
    (w - to) * a == (v - o) * b
  }

  /** A point is as far into its box, in proportion, as another into its own. */
  ghost predicate SamePlace(p: Point, from: Box, q: Point, to: Box) {
    && SameShare(p.x, from.x, from.width, q.x, to.x, to.width)
    && SameShare(p.y, from.y, from.height, q.y, to.y, to.height)
  }

  lemma MapIsSamePlace(p: Point, from: Box, to: Box)
    requires !from.Empty()
    ensures SamePlace(p, from, Map(p, from, to), to)
  {
    SharesTheSame(p.x, from.x, from.width, to.x, to.width);
    SharesTheSame(p.y, from.y, from.height, to.y, to.height);
  }

  lemma SharesTheSame(v: real, o: real, a: real, to: real, b: real)
    requires a > 0.0
    ensures SameShare(v, o, a, MapAxis(v, o, a, to, b), to, b)
  {
    var q := (v - o) * b / a;
    assert q * a == (v - o) * b;
    assert MapAxis(v, o, a, to, b) - to == q;
  }

  lemma AshBoxIs(layout: Layout, s: Screen, b: Box)
    ensures AshHas(layout, s, b) <==> AshBox(layout, s) == Some(b) && !b.Empty()
  {
    LayoutForIs(layout, s.name);
  }

  lemma {:induction false} ScreenAtIs(screens: Screens, p: Point, i: nat)
    requires IsUnder(screens, p, i)
    ensures ScreenAt(screens, p) == Some(screens[i])
  {
    if i > 0 {
      assert forall j :: 0 <= j < i ==> screens[1..][j] == screens[j + 1];
      ScreenAtIs(screens[1..], p, i - 1);
    }
  }

  lemma {:induction false} NoScreenAt(screens: Screens, p: Point)
    requires ScreenAt(screens, p).Some?
    ensures exists i: nat :: IsUnder(screens, p, i)
  {
    if !screens[0].destroying && screens[0].Pixels().Has(p) {
      assert IsUnder(screens, p, 0);
    } else {
      NoScreenAt(screens[1..], p);
      var i: nat :| IsUnder(screens[1..], p, i);
      assert forall j :: 0 < j < |screens| ==> screens[j] == screens[1..][j - 1];
      assert IsUnder(screens, p, i + 1);
    }
  }

  /** A motion is remapped exactly when Ash has a layout, the pointer is on an output with a
      size which the motion takes it off, and Ash has that output. */
  lemma RemapsWhen(layout: Layout, screens: Screens, pos: Point, rel: Point, i: nat)
    requires IsUnder(screens, pos, i)
    ensures MapMotion(layout, screens, pos, rel).Some? <==>
      && layout != [] && screens[i].width > 0 && screens[i].height > 0
      && !Covers(screens[i].Pixels(), Point(pos.x + rel.x, pos.y + rel.y))
      && exists b :: AshHas(layout, screens[i], b)
  {
    ScreenAtIs(screens, pos, i);
    if AshBox(layout, screens[i]).Some? {
      AshBoxIs(layout, screens[i], AshBox(layout, screens[i]).value);
    }
    forall b | AshHas(layout, screens[i], b)
      ensures AshBox(layout, screens[i]) == Some(b) && !b.Empty()
    {
      AshBoxIs(layout, screens[i], b);
    }
  }

  lemma OffEveryOutput(layout: Layout, screens: Screens, pos: Point, rel: Point)
    requires forall i: nat :: !IsUnder(screens, pos, i)
    ensures MapMotion(layout, screens, pos, rel).None?
  {
    if ScreenAt(screens, pos).Some? {
      NoScreenAt(screens, pos);
    }
  }

  /** Ash has this output, other than the one left, at a logical point. */
  ghost predicate AshHasAt(layout: Layout, screens: Screens, i: nat, k: nat, at: Point)
    requires i < |screens| && k < |screens|
  {
    && screens[k] != screens[i] && !screens[k].destroying && screens[k].width > 0 && screens[k].height > 0
    && exists b :: AshHas(layout, screens[k], b) && Covers(b, at)
  }

  lemma ReachedWhen(layout: Layout, screens: Screens, i: nat, k: nat, at: Point)
    requires i < |screens| && k < |screens|
    ensures AshHasAt(layout, screens, i, k, at) <==> Reached(layout, screens[i], screens[k], at)
  {
    if Reached(layout, screens[i], screens[k], at) {
      AshBoxIs(layout, screens[k], AshBox(layout, screens[k]).value);
    }
    forall b | AshHas(layout, screens[k], b) && Covers(b, at)
      ensures AshBox(layout, screens[k]) == Some(b) && !b.Empty()
    {
      AshBoxIs(layout, screens[k], b);
    }
  }

  lemma {:induction false} TargetIsFirst(layout: Layout, screens: Screens, from: Screen, at: Point) returns (k: nat)
    requires TargetAt(layout, screens, from, at).Some?
    ensures k < |screens| && TargetAt(layout, screens, from, at) == Some(screens[k])
    ensures forall j :: 0 <= j < k ==> !Reached(layout, from, screens[j], at)
  {
    if Reached(layout, from, screens[0], at) {
      k := 0;
    } else {
      var n := TargetIsFirst(layout, screens[1..], from, at);
      k := n + 1;
      assert forall j :: 0 < j < |screens| ==> screens[j] == screens[1..][j - 1];
    }
  }

  /** The pixel of an output nearest to a point. */
  ghost predicate IsNearest(s: Screen, p: Point, q: Point) {
    NearestOn(s.x, s.width, p.x, q.x) && NearestOn(s.y, s.height, p.y, q.y)
  }

  ghost predicate NearestOn(first: int, size: int, v: real, w: real) {
    var last := (first + size - 1) as real;
    if v < first as real then w == first as real else if v > last then w == last else w == v
  }

  /** The logical point, for Ash, of where a motion from an output ends. */
  ghost predicate IsLogicalEnd(layout: Layout, from: Screen, end: Point, at: Point) {
    exists b :: AshHas(layout, from, b) && SamePlace(end, from.Pixels(), at, b)
  }

  lemma LogicalEnd(layout: Layout, from: Screen, end: Point)
    requires from.HasSize() && AshBox(layout, from).Some? && !AshBox(layout, from).value.Empty()
    ensures IsLogicalEnd(layout, from, end, Map(end, from.Pixels(), AshBox(layout, from).value))
  {
    MapIsSamePlace(end, from.Pixels(), AshBox(layout, from).value);
    AshBoxIs(layout, from, AshBox(layout, from).value);
  }

  /** The point of an output's pixels that is where Ash has a logical point. */
  ghost predicate IsPixelOf(layout: Layout, s: Screen, at: Point, p: Point) {
    exists b :: AshHas(layout, s, b) && Covers(b, at) && SamePlace(at, b, p, s.Pixels())
  }

  lemma TargetHasPixel(layout: Layout, from: Screen, s: Screen, at: Point)
    requires Reached(layout, from, s, at)
    ensures IsPixelOf(layout, s, at, Map(at, AshBox(layout, s).value, s.Pixels()))
  {
    MapIsSamePlace(at, AshBox(layout, s).value, s.Pixels());
    AshBoxIs(layout, s, AshBox(layout, s).value);
  }

  /** The first other output that Ash has at a point. */
  ghost predicate IsFirstAt(layout: Layout, screens: Screens, i: nat, at: Point, k: nat)
    requires i < |screens|
  {
    && k < |screens| && AshHasAt(layout, screens, i, k, at)
    && forall j: nat :: j < k ==> !AshHasAt(layout, screens, i, j, at)
  }

  lemma TargetWhen(layout: Layout, screens: Screens, i: nat, at: Point) returns (k: nat)
    requires i < |screens|
    ensures var target := TargetAt(layout, screens, screens[i], at);
      if target.Some? then IsFirstAt(layout, screens, i, at, k) && target == Some(screens[k])
      else k == i && forall j: nat :: !IsFirstAt(layout, screens, i, at, j)
  {
    forall j: nat | j < |screens|
      ensures AshHasAt(layout, screens, i, j, at) <==> Reached(layout, screens[i], screens[j], at)
    {
      ReachedWhen(layout, screens, i, j, at);
    }
    k := i;
    if TargetAt(layout, screens, screens[i], at).Some? {
      k := TargetIsFirst(layout, screens, screens[i], at);
    }
  }

  lemma LeavesFrom(layout: Layout, screens: Screens, pos: Point, rel: Point, i: nat) returns (c: Crossing)
    requires IsUnder(screens, pos, i) && MapMotion(layout, screens, pos, rel).Some?
    ensures Leaving(layout, screens, pos, rel) == Some(c) && c.from == screens[i] && c.from.HasSize()
    ensures c.to == Point(pos.x + rel.x, pos.y + rel.y) && IsLogicalEnd(layout, c.from, c.to, c.at)
  {
    ScreenAtIs(screens, pos, i);
    c := Leaving(layout, screens, pos, rel).value;
    LogicalEnd(layout, c.from, c.to);
  }

  lemma LandsOnFirst(layout: Layout, screens: Screens, c: Crossing, i: nat) returns (k: nat, p: Point)
    requires i < |screens| && c.from == screens[i] && c.from.HasSize()
    ensures k < |screens| && Landing(layout, screens, c) == (screens[k], p) && screens[k].HasSize()
    ensures if exists j: nat :: IsFirstAt(layout, screens, i, c.at, j)
      then IsFirstAt(layout, screens, i, c.at, k) && IsPixelOf(layout, screens[k], c.at, p)
      else k == i && p == c.to
  {
    k := TargetWhen(layout, screens, i, c.at);
    p := Landing(layout, screens, c).1;
    if TargetAt(layout, screens, c.from, c.at).Some? {
      TargetHasPixel(layout, c.from, screens[k], c.at);
    }
  }

  /** Where a remapped motion ends. Ash's logical point of that end is as far into the box Ash
      has for the output left as the end is into its pixels. If Ash has another output there,
      the pointer lands on the first such, on the pixel nearest to the point that is as far
      into it; and if not, on the output left, on the pixel nearest to the end. */
  lemma MotionLands(layout: Layout, screens: Screens, pos: Point, rel: Point, i: nat)
    returns (at: Point, k: nat, p: Point)
    requires IsUnder(screens, pos, i) && MapMotion(layout, screens, pos, rel).Some?
    ensures IsLogicalEnd(layout, screens[i], Point(pos.x + rel.x, pos.y + rel.y), at)
    ensures k < |screens| && IsNearest(screens[k], p, MapMotion(layout, screens, pos, rel).value)
    ensures if exists j: nat :: IsFirstAt(layout, screens, i, at, j)
      then IsFirstAt(layout, screens, i, at, k) && IsPixelOf(layout, screens[k], at, p)
      else k == i && p == Point(pos.x + rel.x, pos.y + rel.y)
  {
    var c := LeavesFrom(layout, screens, pos, rel, i);
    at := c.at;
    k, p := LandsOnFirst(layout, screens, c, i);
    ClampIsNearest(screens[k], p);
  }

  lemma ClampIsNearest(s: Screen, p: Point)
    requires s.HasSize()
    ensures IsNearest(s, p, ClampTo(s, p))
  {
  }

  // ---------------------------------------------------------------------
  // The order of the output list does not matter.

  ghost predicate PixelsApart(screens: Screens) {
    forall s, t, p ::
      s in screens && t in screens && !s.destroying && !t.destroying && s.Pixels().Has(p) && t.Pixels().Has(p) ==>
        s == t
  }

  ghost predicate AshApart(layout: Layout, screens: Screens) {
    forall s, t, p :: s in screens && t in screens && PlacedAt(layout, s, p) && PlacedAt(layout, t, p) ==> s == t
  }

  lemma OrderDoesNotMatter(layout: Layout, a: Screens, b: Screens, pos: Point, rel: Point)
    requires forall s :: s in a <==> s in b
    requires PixelsApart(a) && AshApart(layout, a)
    ensures MapMotion(layout, a, pos, rel) == MapMotion(layout, b, pos, rel)
  {
    assert ScreenAt(a, pos) == ScreenAt(b, pos);
    var c := Leaving(layout, a, pos, rel);
    if c.Some? {
      var ta, tb := TargetAt(layout, a, c.value.from, c.value.at), TargetAt(layout, b, c.value.from, c.value.at);
      assert ta == tb;
    }
  }
}
