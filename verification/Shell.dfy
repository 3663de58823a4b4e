/**
 The shell of `chromiumos-ash/aurade-weston-shell.c`: the list surgery on surface
 trees of any shape, and the event handlers on runs of childless top-levels.
 */
module Shell {
  import opened Sequences
  import opened Stacking
  import opened ShellObjects
  import opened ShellDesk
  import opened SurfaceTrees
  import opened ShellRuns

  // ---------------------------------------------------------------------
  // Trees of any shape, over the live surfaces `all`.

  ghost function LinksOf(all: set<Surface>): Links
    reads all`parent, all`depth
  {
    Links(map s | s in all :: s.parent, map s | s in all :: s.depth)
  }

  ghost function ListsOf(all: set<Surface>): map<Surface, seq<Surface>>
    reads all`tree
  {
    map s | s in all :: s.tree
  }

  function TreeOf(root: Surface?): seq<Surface>
    reads root
  {
    if root == null then [] else root.tree
  }

  function WestonOutputOf(s: Surface): Output?
    reads s
  {
    if s.mapped then s.output else null
  }

  method FindRoot(s: Surface, ghost all: set<Surface>) returns (root: Surface)
    requires s in all && Forest(LinksOf(all))
    ensures root == RootOf(LinksOf(all), s)
  {
    root := s;
    while root.parent != null
      invariant root in all && RootOf(LinksOf(all), root) == RootOf(LinksOf(all), s)
      decreases root.depth
    {
      root := root.parent;
    }
  }

  method CheckDescendant(s: Surface, ancestor: Surface, ghost all: set<Surface>) returns (yes: bool)
    requires s in all && Forest(LinksOf(all))
    ensures yes == IsDescendant(LinksOf(all), s, ancestor)
  {
    var cursor: Surface? := s;
    while cursor != null
      invariant cursor != null ==>
        cursor in all && IsDescendant(LinksOf(all), s, ancestor) == IsDescendant(LinksOf(all), cursor, ancestor)
      invariant cursor == null ==> !IsDescendant(LinksOf(all), s, ancestor)
      decreases cursor != null, if cursor != null then cursor.depth else 0
    {
      if cursor == ancestor {
        return true;
      }
      cursor := cursor.parent;
    }
    return false;
  }

  /** Walks a tree list from the back and moves what descends from `s` onto a new
      list, so both parts keep their order. */
  method TakeSubtree(list: seq<Surface>, s: Surface, ghost all: set<Surface>)
    returns (taken: seq<Surface>, left: seq<Surface>)
    requires Forest(LinksOf(all)) && forall x :: x in list ==> x in all
    ensures taken == Filter(list, Descendants(LinksOf(all), s))
    ensures left == Filter(list, Others(LinksOf(all), s))
  {
    ghost var sub, rest := Descendants(LinksOf(all), s), Others(LinksOf(all), s);
    taken, left := [], list;
    var todo := list;
    ghost var done: seq<Surface> := [];
    while todo != []
      invariant list == todo + done
      invariant taken == Filter(done, sub)
      invariant left == todo + Filter(done, rest)
    {
      var x := todo[|todo| - 1];
      assert x in list;
      var descends := CheckDescendant(x, s, all);
      assert descends <==> x in sub;
      SplitStep(list, todo, done, sub, rest);
      if descends {
        taken := [x] + taken;
        left := todo[..|todo| - 1] + left[|todo|..];
      }
      todo, done := todo[..|todo| - 1], [x] + done;
    }
    assert list == done;
  }

  /** Puts the surfaces `xs` back on a list, last one first, so they keep their order. */
  method PutOnTop(root: Surface, xs: seq<Surface>)
    requires Distinct(xs)
    modifies root`tree
    ensures root.tree == xs + old(root.tree)
  {
    var todo := xs;
    ghost var done: seq<Surface> := [];
    while todo != []
      invariant xs == todo + done
      invariant root.tree == done + old(root.tree)
    {
      var x := todo[|todo| - 1];
      LastIsNew(xs, todo, done);
      root.tree := [x] + root.tree;
      todo, done := todo[..|todo| - 1], [x] + done;
    }
    assert xs == done;
  }

  lemma RootListIsDistinct(all: set<Surface>, root: Surface)
    requires ListsHoldTrees(LinksOf(all), ListsOf(all)) && root in all && root.parent == null
    ensures Distinct(root.tree)
    ensures forall x :: x in root.tree ==> x in all
  {
    assert HoldsOnly(LinksOf(all), ListsOf(all)[root], root);
  }

  method Unlink(s: Surface, ghost all: set<Surface>)
    requires s in all
    modifies s`parent
    ensures s.parent == null && LinksOf(all) == Cut(old(LinksOf(all)), s) && ListsOf(all) == old(ListsOf(all))
  {
    s.parent := null;
  }

  method StoreLists(s: Surface, root: Surface, taken: seq<Surface>, left: seq<Surface>, ghost all: set<Surface>)
    requires s in all && root in all
    modifies s`tree, root`tree
    ensures ListsOf(all) == old(ListsOf(all))[s := taken][root := left]
    ensures LinksOf(all) == old(LinksOf(all)) && s.parent == old(s.parent)
  {
    s.tree := taken;
    root.tree := left;
  }

  /** What hangs from a surface cut off, and what is left, of its old root's list. */
  method TakeCut(s: Surface, root: Surface, ghost links: Links, ghost all: set<Surface>)
    returns (taken: seq<Surface>, left: seq<Surface>)
    requires Forest(links) && s in links.parent && LinksOf(all) == Cut(links, s)
    requires forall x :: x in root.tree ==> x in all
    ensures taken == Filter(root.tree, Descendants(links, s)) && left == Filter(root.tree, Others(links, s))
  {
    CutKeepsDescendants(links, s);
    taken, left := TakeSubtree(root.tree, s, all);
  }

  method SplitLists(s: Surface, ghost all: set<Surface>)
    requires Forest(LinksOf(all)) && s in all && s.parent != null
    requires forall x :: x in RootOf(LinksOf(all), s).tree ==> x in all
    modifies s`parent, all`tree
    ensures s.parent == null
    ensures LinksOf(all) == Cut(old(LinksOf(all)), s)
    ensures ListsOf(all) == Split(old(LinksOf(all)), old(ListsOf(all)), s)
  {
    ghost var links, lists := LinksOf(all), ListsOf(all);
    var root := FindRoot(s, all);
    assert root in all && root.tree == lists[root];
    Unlink(s, all);
    var taken, left := TakeCut(s, root, links, all);
    StoreLists(s, root, taken, left, all);
  }

  /** Unlinks a child from its parent and splits its old root's list in two. */
  method CutTree(s: Surface, ghost all: set<Surface>)
    requires ListsHoldTrees(LinksOf(all), ListsOf(all)) && s in all && s.parent != null
    modifies s`parent, all`tree
    ensures s.parent == null
    ensures LinksOf(all) == Cut(old(LinksOf(all)), s)
    ensures ListsOf(all) == Split(old(LinksOf(all)), old(ListsOf(all)), s)
    ensures ListsHoldTrees(LinksOf(all), ListsOf(all))
  {
    ghost var links, lists := LinksOf(all), ListsOf(all);
    SplitHoldsTrees(links, lists, s);
    RootListIsDistinct(all, RootOf(links, s));
    SplitLists(s, all);
  }

  // ---------------------------------------------------------------------

  class ShellState {
    var outputs: seq<Output>
    var surfaces: set<Surface>
    var normal: seq<Surface>
    var inactive: seq<Surface>
    const seat: Seat

    constructor ()
      ensures fresh(seat) && outputs == [] && surfaces == {} && normal == [] && inactive == [] && seat.focused == null
    {
      outputs, surfaces, normal, inactive := [], {}, [], [];
      seat := new Seat();
    }

    /** Puts a view on top of the visible layer, whichever layer it was in. */
    method MoveToNormal(s: Surface)
      modifies `normal, `inactive
      ensures normal == [s] + Minus(old(normal), [s]) && inactive == Minus(old(inactive), [s])
      ensures View() == old(View()).(normal := normal, inactive := inactive)
      ensures old(Childless()) ==> Childless()
    {
      normal, inactive := [s] + Minus(normal, [s]), Minus(inactive, [s]);
      assert Actives() == old(Actives()) && OutputOf() == old(OutputOf());
      assert Mapped() == old(Mapped()) && FocusCounts() == old(FocusCounts());
    }

    method MoveToInactive(s: Surface)
      modifies `normal, `inactive
      ensures inactive == [s] + Minus(old(inactive), [s]) && normal == Minus(old(normal), [s])
      ensures View() == old(View()).(normal := normal, inactive := inactive)
      ensures old(Childless()) ==> Childless()
    {
      normal, inactive := Minus(normal, [s]), [s] + Minus(inactive, [s]);
      assert Actives() == old(Actives()) && OutputOf() == old(OutputOf());
      assert Mapped() == old(Mapped()) && FocusCounts() == old(FocusCounts());
    }

    /** A whole list goes on top of the hidden layer, in order. */
    method LowerAll(xs: seq<Surface>)
      requires Distinct(xs)
      modifies `normal, `inactive
      ensures inactive == Lift(xs, old(inactive)) && normal == Minus(old(normal), xs)
      ensures View() == old(View()).(normal := normal, inactive := inactive)
      ensures old(Childless()) ==> Childless()
    {
      var todo := xs;
      ghost var done: seq<Surface> := [];
      MinusNothing(normal);
      MinusNothing(inactive);
      while todo != []
        invariant xs == todo + done
        invariant inactive == Lift(done, old(inactive)) && normal == Minus(old(normal), done)
        invariant View() == old(View()).(normal := normal, inactive := inactive)
        invariant old(Childless()) ==> Childless()
      {
        var s := todo[|todo| - 1];
        LastIsNew(xs, todo, done);
        LiftOne(s, done, old(inactive));
        LiftOne(s, done, old(normal));
        MoveToInactive(s);
        todo, done := todo[..|todo| - 1], [s] + done;
      }
      assert xs == done;
    }

    /** A whole list goes on top of the visible layer, in order. */
    method RaiseAll(xs: seq<Surface>)
      requires Distinct(xs)
      modifies `normal, `inactive
      ensures normal == Lift(xs, old(normal)) && inactive == Minus(old(inactive), xs)
      ensures View() == old(View()).(normal := normal, inactive := inactive)
      ensures old(Childless()) ==> Childless()
    {
      var todo := xs;
      ghost var done: seq<Surface> := [];
      MinusNothing(normal);
      MinusNothing(inactive);
      while todo != []
        invariant xs == todo + done
        invariant normal == Lift(done, old(normal)) && inactive == Minus(old(inactive), done)
        invariant View() == old(View()).(normal := normal, inactive := inactive)
        invariant old(Childless()) ==> Childless()
      {
        var s := todo[|todo| - 1];
        LastIsNew(xs, todo, done);
        LiftOne(s, done, old(inactive));
        LiftOne(s, done, old(normal));
        MoveToNormal(s);
        todo, done := todo[..|todo| - 1], [s] + done;
      }
      assert xs == done;
    }

    /** The output's old tree goes under, whole and in order, and the new one comes up. */
    method SetActiveTree(o: Output, root: Surface?)
      requires Distinct(TreeOf(o.active)) && Distinct(TreeOf(root))
      modifies `normal, `inactive, o`active
      ensures o.active == root
      ensures normal == Lift(TreeOf(root), Minus(old(normal), old(TreeOf(o.active))))
      ensures inactive == Minus(Lift(old(TreeOf(o.active)), old(inactive)), TreeOf(root))
    {
      LowerAll(TreeOf(o.active));
      RaiseAll(TreeOf(root));
      o.active := root;
    }

    /** The subtree of `s` comes to the top of the output's active list and of the
        visible layer; both keep the order within it and around it. */
    method RaiseSubtree(o: Output, s: Surface, ghost all: set<Surface>)
      requires Forest(LinksOf(all))
      requires o.active != null ==>
        o.active in all && Distinct(o.active.tree) && forall x :: x in o.active.tree ==> x in all
      modifies `normal, `inactive, all`tree
      ensures o.active == null ==> normal == old(normal) && inactive == old(inactive)
      ensures forall x :: x in all && x != o.active ==> x.tree == old(x.tree)
      ensures o.active != null ==>
        var sub := old(Filter(o.active.tree, Descendants(LinksOf(all), s)));
        && o.active.tree == old(Raised(LinksOf(all), o.active.tree, s))
        && normal == Lift(sub, old(normal)) && inactive == Minus(old(inactive), sub)
    {
      if o.active == null {
        return;
      }
      var root: Surface := o.active;
      var moved, rest := TakeSubtree(root.tree, s, all);
      RaiseAll(moved);
      root.tree := rest;
      PutOnTop(root, moved);
    }

    /** An output shows a root's whole tree on top. */
    method ShowOn(o: Output, s: Surface, ghost all: set<Surface>)
      requires ListsHoldTrees(LinksOf(all), ListsOf(all)) && s in all && s.parent == null
      requires o.active != null ==> o.active in all && o.active.parent == null
      modifies `normal, `inactive, o
      ensures LinksOf(all) == old(LinksOf(all)) && ListsOf(all) == old(ListsOf(all))
      ensures o.active == s
      ensures normal == Lift(s.tree, Minus(old(normal), TreeOf(old(o.active))))
      ensures inactive == Minus(Lift(TreeOf(old(o.active)), old(inactive)), s.tree)
    {
      RootListIsDistinct(all, s);
      if o.active != null {
        RootListIsDistinct(all, o.active);
      }
      SetActiveTree(o, s);
    }

    /** A root's output, if it has one, shows the root's whole tree on top. */
    method ShowOnOwnOutput(s: Surface, ghost all: set<Surface>)
      requires ListsHoldTrees(LinksOf(all), ListsOf(all)) && s in all && s.parent == null
      requires s.output != null && s.output.active != null ==> s.output.active in all && s.output.active.parent == null
      modifies `normal, `inactive, s.output
      ensures LinksOf(all) == old(LinksOf(all)) && ListsOf(all) == old(ListsOf(all))
      ensures s.output == null ==> normal == old(normal) && inactive == old(inactive)
      ensures s.output != null ==> s.output.active == s
      ensures s.output != null ==> normal == Lift(s.tree, Minus(old(normal), TreeOf(old(s.output.active))))
      ensures s.output != null ==> inactive == Minus(Lift(TreeOf(old(s.output.active)), old(inactive)), s.tree)
    {
      if s.output != null {
        ShowOn(s.output, s, all);
      }
    }

    /** A child becomes a root: every list still holds exactly its tree, and its
        output shows it. */
    method Unparent(s: Surface, ghost all: set<Surface>)
      requires ListsHoldTrees(LinksOf(all), ListsOf(all)) && s in all && s.parent != null
      requires s.output != null && s.output.active != null ==> s.output.active in all && s.output.active.parent == null
      modifies `normal, `inactive, s`parent, all`tree, s.output
      ensures LinksOf(all) == Cut(old(LinksOf(all)), s)
      ensures ListsOf(all) == Split(old(LinksOf(all)), old(ListsOf(all)), s)
      ensures ListsHoldTrees(LinksOf(all), ListsOf(all))
      ensures s.output == null ==> normal == old(normal) && inactive == old(inactive)
      ensures s.output != null ==> s.output.active == s
      ensures s.output != null ==> normal == Lift(s.tree, Minus(old(normal), TreeOf(old(s.output.active))))
      ensures s.output != null ==> inactive == Minus(Lift(TreeOf(old(s.output.active)), old(inactive)), s.tree)
    {
      CutTree(s, all);
      ShowOnOwnOutput(s, all);
    }

    // -------------------------------------------------------------------
    // Runs of childless top-levels.

    ghost function Actives(): map<Output, Surface?>
      reads `outputs, outputs`active
    {
      map o | o in outputs :: o.active
    }

    ghost function OutputOf(): map<Surface, Output?>
      reads `surfaces, surfaces`output
    {
      map s | s in surfaces :: s.output
    }

    ghost function Mapped(): set<Surface>
      reads `surfaces, surfaces`mapped
    {
      set s | s in surfaces && s.mapped
    }

    ghost function FocusCounts(): map<Surface, int>
      reads `surfaces, surfaces`focusCount
    {
      map s | s in surfaces :: s.focusCount
    }

    /** The state as a value. */
    ghost function View(): Desk
      reads this, seat, outputs`active, surfaces`output, surfaces`mapped, surfaces`focusCount
    {
      Desk(outputs, Actives(), surfaces, OutputOf(), Mapped(), normal, inactive, seat.focused, FocusCounts())
    }

    /** Nothing has a parent, and every list is its root alone. */
    ghost predicate Childless()
      reads `surfaces, surfaces`parent, surfaces`tree
    {
      forall s :: s in surfaces ==> s.parent == null && s.tree == [s]
    }

    ghost predicate Valid()
      reads this, seat, outputs`active, surfaces
    {
      Childless() && Inv(View())
    }

    lemma ValidAs(d: Desk)
      requires Childless() && View() == d && Inv(d)
      ensures Valid()
    {
    }

    method Place(s: Surface, o: Output?)
      requires s in surfaces
      modifies s`output
      ensures View() == ShellDesk.Place(old(View()), s, o)
      ensures old(Childless()) ==> Childless()
    {
      s.output := o;
    }

    method Release(o: Output)
      requires o in outputs
      modifies o`active
      ensures View() == ShellDesk.Release(old(View()), o)
      ensures old(Childless()) ==> Childless()
    {
      o.active := null;
    }

    method MarkMapped(s: Surface)
      requires s in surfaces
      modifies s`mapped
      ensures View() == ShellDesk.Map(old(View()), s)
      ensures old(Childless()) ==> Childless()
    {
      s.mapped := true;
    }

    method PointAt(o: Output, root: Surface?)
      requires o in outputs
      modifies o`active
      ensures View() == old(View()).(active := old(View()).active[o := root])
      ensures old(Childless()) ==> Childless()
    {
      o.active := root;
    }

    method SetActive(o: Output, root: Surface?)
      requires o in outputs && TreeOf(o.active) == Alone(o.active) && TreeOf(root) == Alone(root)
      modifies `normal, `inactive, o`active
      ensures View() == ShellDesk.SetActive(old(View()), o, root)
      ensures old(Childless()) ==> Childless()
    {
      ghost var before := View();
      ghost var after := ShellDesk.SetActive(before, o, root);
      SetActiveLayers(before, o, root);
      LowerAll(TreeOf(o.active));
      RaiseAll(TreeOf(root));
      assert normal == after.normal;
      assert inactive == after.inactive;
      PointAt(o, root);
    }

    method AddToCount(s: Surface, n: int)
      requires s in surfaces
      modifies s`focusCount
      ensures View() == old(View()).(focusCount := old(View()).focusCount[s := old(View()).focusCount[s] + n])
      ensures old(Childless()) ==> Childless()
    {
      s.focusCount := s.focusCount + n;
    }

    method Refocus(s: Surface)
      requires s in surfaces && (seat.focused != null ==> seat.focused in surfaces)
      modifies seat, surfaces`focusCount
      ensures View() == ShellDesk.Refocus(old(View()), s)
      ensures old(Childless()) ==> Childless()
    {
      ghost var before := View();
      Recount(s);
      seat.focused := s;
      assert View() == before.(focused := s, focusCount := FocusCounts());
    }

    method Recount(s: Surface)
      requires s in surfaces && (seat.focused != null ==> seat.focused in surfaces)
      modifies surfaces`focusCount
      ensures View() == old(View()).(focusCount := ShellDesk.Refocus(old(View()), s).focusCount)
      ensures old(Childless()) ==> Childless()
    {
      if seat.focused != null {
        AddToCount(seat.focused, -1);
      }
      AddToCount(s, 1);
    }

    method FindEmptyOutput() returns (o: Output?)
      ensures o == FirstEmpty(View().active, outputs)
    {
      ghost var active := Actives();
      var i := 0;
      while i < |outputs|
        invariant 0 <= i <= |outputs|
        invariant FirstEmpty(active, outputs) == FirstEmpty(active, outputs[i..])
      {
        if outputs[i].active == null {
          return outputs[i];
        }
        assert outputs[i..][1..] == outputs[i + 1..];
        i := i + 1;
      }
      return null;
    }

    method FindBestOutput(s: Surface, h: Hint) returns (o: Output?)
      requires WellFormed(View()) && s in surfaces && HintFits(View(), h)
      ensures o == BestOutput(View(), s, h)
    {
      if s.output != null {
        return s.output;
      }
      o := FindEmptyOutput();
      if o != null {
        return;
      }
      return if h.focused != null then h.focused else h.default;
    }

    method FindOther(o: Output, except: Surface) returns (r: Surface?)
      requires WellFormed(View())
      ensures r == Other(View(), o, except)
    {
      var views := normal + inactive;
      ghost var output := View().output;
      var i := 0;
      while i < |views|
        invariant 0 <= i <= |views|
        invariant FirstOn(views, output, o, except) == FirstOn(views[i..], output, o, except)
      {
        assert views[i] in normal || views[i] in inactive;
        if views[i] != except && views[i].output == o {
          return views[i];
        }
        assert views[i..][1..] == views[i + 1..];
        i := i + 1;
      }
      return null;
    }

    /** On its own output a childless surface comes to the top if it is the one shown. */
    method RaiseOn(o: Output, s: Surface)
      requires Childless() && s in surfaces && o in outputs && (o.active != null ==> o.active in surfaces)
      modifies `normal, `inactive, surfaces`tree
      ensures Childless()
      ensures View() == ShellDesk.Raise(old(View()), o, s)
    {
      ghost var before := View();
      RaiseAlone(o, s);
      assert View() == before.(normal := normal, inactive := inactive);
    }

    method RaiseAlone(o: Output, s: Surface)
      requires Childless() && s in surfaces && (o.active != null ==> o.active in surfaces)
      modifies `normal, `inactive, surfaces`tree
      ensures Childless()
      ensures normal == if o.active == s then Lift([s], old(normal)) else old(normal)
      ensures inactive == if o.active == s then Minus(old(inactive), [s]) else old(inactive)
    {
      FlatForest(LinksOf(surfaces));
      if o.active != null {
        FlatRaise(LinksOf(surfaces), o.active, s);
      }
      MinusNothing<Surface>(normal);
      MinusNothing<Surface>(inactive);
      RaiseSubtree(o, s, surfaces);
    }

    /** An output lets its tree go and shows another root that lives there, if any. */
    method Leave(o: Output, s: Surface)
      requires Childless() && WellFormed(View()) && o in outputs
      modifies `normal, `inactive, o`active
      ensures Childless()
      ensures View() == ShellDesk.SetActive(ShellDesk.Release(old(View()), o), o, Other(old(View()), o, s))
    {
      var other := FindOther(o, s);
      Release(o);
      SetActive(o, other);
    }

    /** Whatever shows `s` on its output shows something else. */
    method Vacate(s: Surface)
      requires Childless() && WellFormed(View()) && s in surfaces
      modifies `normal, `inactive, outputs`active
      ensures Childless()
      ensures forall p :: p in outputs && p != s.output ==> p.active == old(p.active)
      ensures var d, from := old(View()), s.output;
        View() ==
          if from != null && d.active[from] == s then
            ShellDesk.SetActive(ShellDesk.Release(d, from), from, Other(d, from, s))
          else d
    {
      if s.output != null && s.output.active == s {
        Leave(s.output, s);
      }
    }

    /** The state a move leaves, layer by layer. */
    method Move(s: Surface, o: Output?)
      requires Childless() && WellFormed(View()) && s in surfaces && (o != null ==> o in outputs)
      requires o != null && o.active != null ==> o.active in surfaces
      modifies `normal, `inactive, outputs`active, s`output
      ensures Childless()
      ensures View() == ShellDesk.MoveToOutput(old(View()), s, o)
    {
      var from := s.output;
      if from == o {
        return;
      }
      Vacate(s);
      Arrive(s, o);
    }

    method Arrive(s: Surface, o: Output?)
      requires Childless() && s in surfaces && (o != null ==> o in outputs) &&
        (o != null && o.active != null ==> o.active in surfaces)
      modifies `normal, `inactive, outputs`active, s`output
      ensures Childless()
      ensures var placed := ShellDesk.Place(old(View()), s, o);
        View() == if o != null && s in placed.mapped then ShellDesk.SetActive(placed, o, s) else placed
    {
      Place(s, o);
      if o != null && s.mapped {
        SetActive(o, s);
      }
    }

    // -------------------------------------------------------------------
    // The event handlers.

    method Enlist(s: Surface)
      requires s !in surfaces && s.parent == null && s.tree == [s] && s.output == null && !s.mapped && s.focusCount == 0
      modifies `surfaces
      ensures surfaces == old(surfaces) + {s}
      ensures View() == Create(old(View()), s)
      ensures old(Childless()) ==> Childless()
    {
      surfaces := surfaces + {s};
    }

    method MoveToBest(s: Surface, h: Hint)
      requires Childless() && WellFormed(View()) && s in surfaces && HintFits(View(), h)
      requires forall o :: o in outputs && o.active != null ==> o.active in surfaces
      modifies `normal, `inactive, outputs`active, s`output
      ensures Childless()
      ensures View() == ShellDesk.MoveToOutput(old(View()), s, BestOutput(old(View()), s, h))
    {
      var best := FindBestOutput(s, h);
      Move(s, best);
    }

    method Settle(s: Surface, h: Hint)
      requires Childless() && WellFormed(View()) && HintFits(View(), h)
      requires s !in surfaces && s.parent == null && s.tree == [s] && s.output == null && !s.mapped && s.focusCount == 0
      requires forall o :: o in outputs && o.active != null ==> o.active in surfaces
      modifies this, outputs`active, s`output
      ensures Childless()
      ensures View() == Added(old(View()), s, h)
    {
      Enlist(s);
      MoveToBest(s, h);
    }

    method SurfaceAdded(h: Hint) returns (s: Surface)
      requires Valid() && HintFits(View(), h)
      modifies this, outputs`active
      ensures fresh(s) && Valid()
      ensures View() == Added(old(View()), s, h)
    {
      s := new Surface();
      ghost var before := View();
      assert before == old(View()) && Valid();
      AddedKeeps(before, s, h);
      Settle(s, h);
      ValidAs(Added(before, s, h));
    }

    /** The first showing: maps the surface, makes it the one its output shows, and
        gives it the focus. */
    method ShowFirst(s: Surface, o: Output)
      requires Childless() && WellFormed(View()) && s in surfaces && o in outputs &&
        (o.active != null ==> o.active in surfaces)
      modifies `normal, `inactive, o`active, seat, surfaces`mapped, surfaces`focusCount, surfaces`tree
      ensures Childless()
      ensures var shown := ShellDesk.SetActive(Map(old(View()), s), o, s);
        View() == Raise(ShellDesk.Refocus(shown, s), o, s)
    {
      MarkMapped(s);
      SetActive(o, s);
      Refocus(s);
      RaiseOn(o, s);
    }

    method MapFirst(s: Surface, o: Output)
      requires Childless() && WellFormed(View()) && s in surfaces && o in outputs &&
        (o.active != null ==> o.active in surfaces)
      modifies `normal, `inactive, o`active, seat, surfaces`mapped, surfaces`focusCount, surfaces`tree
      ensures Childless()
      ensures View() == if old(s.mapped) then old(View())
        else Raise(ShellDesk.Refocus(ShellDesk.SetActive(Map(old(View()), s), o, s), s), o, s)
    {
      if !s.mapped {
        ShowFirst(s, o);
      }
    }

    method MoveWhole(s: Surface, o: Output?)
      requires Valid() && s in surfaces && (o != null ==> o in outputs)
      modifies `normal, `inactive, outputs`active, s`output
      ensures Valid() && View() == ShellDesk.MoveToOutput(old(View()), s, o)
    {
      MoveKeeps(View(), s, o);
      Move(s, o);
    }

    method CommitOn(s: Surface, o: Output, ghost h: Hint)
      requires Valid() && s in surfaces && o in outputs && HintFits(View(), h) && BestOutput(View(), s, h) == o
      modifies `normal, `inactive, outputs`active, s`output, seat, surfaces`mapped, surfaces`focusCount, surfaces`tree
      ensures Valid() && View() == Committed(old(View()), s, true, h)
    {
      ghost var before := View();
      CommittedKeeps(before, s, true, h);
      MoveWhole(s, o);
      MapFirst(s, o);
      ValidAs(CommittedOn(before, s, o));
    }

    method SurfaceCommitted(s: Surface, sized: bool, h: Hint)
      requires Valid() && s in surfaces && HintFits(View(), h)
      modifies this, seat, outputs`active, surfaces
      ensures Valid()
      ensures View() == Committed(old(View()), s, sized, h)
    {
      if !sized {
        return;
      }
      var best := FindBestOutput(s, h);
      if best == null {
        return;
      }
      CommitOn(s, best, h);
    }

    method ChooseOutput(s: Surface, o: Output?, h: Hint) returns (target: Output?)
      requires WellFormed(View()) && s in surfaces && (o != null ==> o in outputs) && HintFits(View(), h)
      ensures target == if o != null then o else BestOutput(View(), s, h)
      ensures target != null ==> target in outputs
    {
      target := o;
      if target == null {
        target := FindBestOutput(s, h);
      }
    }

    method FullscreenRequested(s: Surface, o: Output?, h: Hint)
      requires Valid() && s in surfaces && (o != null ==> o in outputs) && HintFits(View(), h)
      modifies `normal, `inactive, outputs`active, s`output
      ensures Valid()
      ensures View() == MoveRequested(old(View()), s, o, h)
    {
      var target := ChooseOutput(s, o, h);
      MoveWhole(s, target);
    }

    method ClickedToActivate(s: Surface)
      requires Valid() && s in surfaces && s.mapped
      modifies this, seat, surfaces
      ensures Valid()
      ensures View() == Activate(old(View()), s)
    {
      NextKeeps(View(), ClickedEvent(s));
      Refocus(s);
      if s.output != null {
        RaiseOn(s.output, s);
      }
    }

    method ClearFocus()
      modifies seat
      ensures View() == old(View()).(focused := null)
      ensures old(Childless()) ==> Childless()
    {
      seat.focused := null;
    }

    /** The focus passes to `next`, which is shown if it was hidden. */
    method PassFocus(next: Surface, o: Output)
      requires Childless() && WellFormed(View()) && next in surfaces && o in outputs &&
        (o.active != null ==> o.active in surfaces)
      modifies `normal, `inactive, o`active, seat, surfaces`focusCount, surfaces`tree
      ensures Childless()
      ensures var shown := if next in old(inactive) then ShellDesk.SetActive(old(View()), o, next) else old(View());
        View() == Raise(ShellDesk.Refocus(shown, next), o, next)
    {
      if next in inactive {
        SetActive(o, next);
      }
      Refocus(next);
      RaiseOn(o, next);
    }

    /** The output's last surface goes. */
    method LastLeaves(s: Surface)
      requires Childless() && WellFormed(View()) && s in surfaces
      modifies `normal, `inactive, outputs`active, seat
      ensures Childless()
      ensures var o, cleared := s.output, if old(View()).focused == s then old(View()).(focused := null)
        else old(View());
        View() == if o != null && old(View()).active[o] == s then ShellDesk.SetActive(cleared, o, null) else cleared
    {
      if seat.focused == s {
        ClearFocus();
      }
      if s.output != null && s.output.active == s {
        SetActive(s.output, null);
      }
    }

    method Forget(s: Surface)
      requires s in surfaces
      modifies this
      ensures View() == Destroy(old(View()), s)
      ensures old(Childless()) ==> Childless()
    {
      ghost var before := View();
      surfaces, normal, inactive := surfaces - {s}, Minus(normal, [s]), Minus(inactive, [s]);
      assert OutputOf() == before.output - {s};
      assert FocusCounts() == before.focusCount - {s};
      assert Mapped() == before.mapped - {s};
    }

    method FindSuccessor(s: Surface) returns (next: Surface?)
      requires WellFormed(View()) && s in surfaces
      ensures next == Successor(View(), s)
    {
      next := null;
      if s.output != null {
        next := FindOther(s.output, s);
      }
    }

    /** The focus was on `s`, or is on another output: it goes to the topmost view
        left on the output of `s`, if there is one. */
    method HandOver(s: Surface)
      requires Childless() && WellFormed(View()) && s in surfaces
      requires s.output != null && s.output.active != null ==> s.output.active in surfaces
      requires FocusMoves(View(), s)
      modifies `normal, `inactive, outputs`active, seat, surfaces`focusCount, surfaces`tree
      ensures Childless()
      ensures View() == LetGo(old(View()), s)
    {
      var next := FindSuccessor(s);
      if s.output != null && next != null {
        HandTo(next, s);
      } else {
        LeaveLast(s);
      }
    }

    method HandTo(next: Surface, s: Surface)
      requires Childless() && WellFormed(View()) && s in surfaces && s.output != null && next == Successor(View(), s)
      requires s.output.active != null ==> s.output.active in surfaces
      requires FocusMoves(View(), s)
      modifies `normal, `inactive, outputs`active, seat, surfaces`focusCount, surfaces`tree
      ensures Childless()
      ensures View() == LetGo(old(View()), s)
    {
      PassFocus(next, s.output);
    }

    method LeaveLast(s: Surface)
      requires Childless() && WellFormed(View()) && s in surfaces && Successor(View(), s) == null
      requires FocusMoves(View(), s)
      modifies `normal, `inactive, outputs`active, seat
      ensures Childless()
      ensures View() == LetGo(old(View()), s)
    {
      LastLeaves(s);
    }

    method LetGoOf(s: Surface)
      requires Childless() && WellFormed(View()) && s in surfaces
      requires s.output != null && s.output.active != null ==> s.output.active in surfaces
      modifies `normal, `inactive, outputs`active, seat, surfaces`focusCount, surfaces`tree
      ensures Childless()
      ensures View() == LetGo(old(View()), s)
    {
      if seat.focused != null && (seat.focused == s || WestonOutputOf(s) != WestonOutputOf(seat.focused)) {
        HandOver(s);
      } else if s.output != null && s.output.active == s {
        Leave(s.output, s);
      }
    }

    method SurfaceRemoved(s: Surface)
      requires Valid() && s in surfaces
      modifies this, seat, outputs`active, surfaces
      ensures Valid()
      ensures View() == Removed(old(View()), s)
    {
      ghost var before := View();
      RemovedKeeps(before, s);
      LetGoOf(s);
      Forget(s);
      ValidAs(Removed(before, s));
    }

    method AddOutput(o: Output)
      requires o !in outputs && o.active == null
      modifies `outputs
      ensures View() == Plugged(old(View()), o)
      ensures old(Childless()) ==> Childless()
    {
      ghost var before := View();
      outputs := outputs + [o];
      assert Actives() == before.active[o := null] && OutputOf() == before.output;
      assert Mapped() == before.mapped && FocusCounts() == before.focusCount;
    }

    method OutputCreated() returns (o: Output)
      requires Valid()
      modifies `outputs
      ensures fresh(o) && Valid()
      ensures View() == Plugged(old(View()), o)
    {
      o := new Output();
      ghost var before := View();
      assert before == old(View());
      PluggedKeeps(before, o);
      AddOutput(o);
      ValidAs(Plugged(before, o));
    }

    method Withdraw(o: Output)
      requires o in outputs
      modifies `outputs
      ensures View() == old(View()).(outputs := Minus(old(outputs), [o]), active := old(View()).active - {o})
      ensures surfaces == old(surfaces)
      ensures old(Childless()) ==> Childless()
    {
      ghost var before := View();
      outputs := Minus(outputs, [o]);
      assert Actives() == before.active - {o} && OutputOf() == before.output;
      assert Mapped() == before.mapped && FocusCounts() == before.focusCount;
    }

    /** Every surface on a destroyed output is left without one. */
    method OrphanSurfaces(o: Output)
      modifies surfaces`output
      ensures View() == old(View()).(output := Orphaned(old(View()).output, o))
      ensures old(Childless()) ==> Childless()
    {
      var todo := surfaces;
      while todo != {}
        invariant todo <= surfaces
        invariant forall s :: s in surfaces && s !in todo ==>
          s.output == if old(s.output) == o then null else old(s.output)
        invariant forall s :: s in todo ==> s.output == old(s.output)
        decreases todo
      {
        var s :| s in todo;
        if s.output == o {
          s.output := null;
        }
        todo := todo - {s};
      }
    }

    method OutputDestroyed(o: Output)
      requires Valid() && o in outputs
      modifies this, surfaces`output
      ensures Valid()
      ensures View() == Unplugged(old(View()), o)
    {
      UnpluggedKeeps(View(), o);
      Withdraw(o);
      OrphanSurfaces(o);
    }
  }

  lemma FlatForest(l: Links)
    requires l.parent.Keys == l.depth.Keys && forall x :: x in l.parent ==> l.parent[x] == null
    ensures Forest(l)
  {
  }

  lemma FlatRaise(l: Links, root: Surface, s: Surface)
    requires Forest(l) && root in l.parent && s in l.parent && forall x :: x in l.parent ==> l.parent[x] == null
    ensures Filter([root], Descendants(l, s)) == if root == s then [s] else []
    ensures Raised(l, [root], s) == [root]
  {
    assert Descendants(l, s) == {s};
    FilterCons(root, [], Descendants(l, s));
    FilterCons(root, [], Others(l, s));
  }
}
