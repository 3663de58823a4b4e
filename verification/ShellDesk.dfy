/**
 The state of `chromiumos-ash/aurade-weston-shell.c` on runs of childless
 top-level surfaces, the Ash host windows, as a value, and each event as a
 function on it. One seat lives for the run, and a view's output is its
 surface's. Layers hold their topmost view first.
 */
module ShellDesk {
  import opened Stacking
  import opened ShellObjects

  datatype Desk = Desk(
    outputs: seq<Output>,
    active: map<Output, Surface?>,
    surfaces: set<Surface>,
    output: map<Surface, Output?>,
    mapped: set<Surface>,
    normal: seq<Surface>,
    inactive: seq<Surface>,
    focused: Surface?,
    focusCount: map<Surface, int>)

  /** Every reference the state holds is to something in it. */
  ghost predicate WellFormed(d: Desk) {
    && d.output.Keys == d.surfaces && d.focusCount.Keys == d.surfaces && d.mapped <= d.surfaces
    && (forall o :: o in d.outputs ==> o in d.active)
    && (forall o :: o in d.active ==> o in d.outputs)
    && (forall s :: s in d.surfaces && d.output[s] != null ==> d.output[s] in d.active)
    && (forall s :: s in d.normal ==> s in d.surfaces)
    && (forall s :: s in d.inactive ==> s in d.surfaces)
    && (d.focused != null ==> d.focused in d.surfaces)
  }

  // ---------------------------------------------------------------------
  // What an output shows.

  function Hide(d: Desk, s: Surface?): Desk {
    if s == null then d else d.(normal := Minus<Surface>(d.normal, [s]), inactive := Lift<Surface>([s], d.inactive))
  }

  function Show(d: Desk, s: Surface?): Desk {
    if s == null then d else d.(normal := Lift<Surface>([s], d.normal), inactive := Minus<Surface>(d.inactive, [s]))
  }

  function SetActive(d: Desk, o: Output, root: Surface?): Desk
    requires o in d.active
  {
    Show(Hide(d, d.active[o]), root).(active := d.active[o := root])
  }

  /** A childless surface's tree. */
  function Alone(s: Surface?): seq<Surface> {
    if s == null then [] else [s]
  }

  /** Hiding and showing move whole trees, here of one surface or none. */
  lemma SetActiveLayers(d: Desk, o: Output, root: Surface?)
    requires o in d.active
    ensures SetActive(d, o, root).normal == Lift<Surface>(Alone(root), Minus<Surface>(d.normal, Alone(d.active[o])))
    ensures SetActive(d, o, root).inactive == Minus<Surface>(Lift<Surface>(Alone(d.active[o]), d.inactive), Alone(root))
  {
    MinusNothing<Surface>(d.normal);
    MinusNothing<Surface>(d.inactive);
    var h := Hide(d, d.active[o]);
    MinusNothing<Surface>(h.normal);
    MinusNothing<Surface>(h.inactive);
    assert h.normal == Minus<Surface>(d.normal, Alone(d.active[o]));
    assert h.inactive == Lift<Surface>(Alone(d.active[o]), d.inactive);
  }

  /** Lets go of the tree without hiding it. */
  function Release(d: Desk, o: Output): Desk {
    d.(active := d.active[o := null])
  }

  function Place(d: Desk, s: Surface, o: Output?): Desk {
    d.(output := d.output[s := o])
  }

  /** The topmost view on `o`, other than `except`'s. */
  function FirstOn(views: seq<Surface>, output: map<Surface, Output?>, o: Output, except: Surface): (r: Surface?)
    requires forall v :: v in views ==> v in output
    ensures r != null ==> r in views && r != except && output[r] == o
    ensures r == null ==> forall v :: v in views && v != except ==> output[v] != o
  {
    if views == [] then null
    else if views[0] != except && output[views[0]] == o then views[0]
    else FirstOn(views[1..], output, o, except)
  }

  /** What `o` shows when its surface goes: the topmost view of the visible layer,
      then of the hidden one, that lives there. */
  ghost function Other(d: Desk, o: Output, s: Surface): (r: Surface?)
    requires WellFormed(d)
    ensures r != null ==> (r in d.normal || r in d.inactive) && r != s && d.output[r] == o
    ensures r == null ==> forall v :: v in d.normal && v != s ==> d.output[v] != o
    ensures r == null ==> forall v :: v in d.inactive && v != s ==> d.output[v] != o
  {
    FirstOn(d.normal + d.inactive, d.output, o, s)
  }

  ghost function MoveToOutput(d: Desk, s: Surface, o: Output?): Desk
    requires WellFormed(d) && s in d.surfaces && (o != null ==> o in d.active)
  {
    var from := d.output[s];
    if from == o then d else
    var left := if from != null && d.active[from] == s then SetActive(Release(d, from), from, Other(d, from, s)) else d;
    var placed := Place(left, s, o);
    if o != null && s in d.mapped then SetActive(placed, o, s) else placed
  }

  // ---------------------------------------------------------------------
  // Focus.

  /** On its own output a childless surface is raised when it is the one shown. */
  function Raise(d: Desk, o: Output, s: Surface): Desk
    requires o in d.active
  {
    if d.active[o] == s then Show(d, s) else d
  }

  function Refocus(d: Desk, s: Surface): Desk
    requires s in d.focusCount && (d.focused != null ==> d.focused in d.focusCount)
  {
    var less := if d.focused != null then d.focusCount[d.focused := d.focusCount[d.focused] - 1] else d.focusCount;
    d.(focused := s, focusCount := less[s := less[s] + 1])
  }

  ghost function Activate(d: Desk, s: Surface): Desk
    requires WellFormed(d) && s in d.surfaces
  {
    var focused := Refocus(d, s);
    if d.output[s] != null then Raise(focused, d.output[s], s) else focused
  }

  // ---------------------------------------------------------------------
  // The events.

  /** What weston answers, at the time of an event, for the output with the focus
      and for the default one. */
  datatype Hint = Hint(focused: Output?, default: Output?)

  ghost predicate HintFits(d: Desk, h: Hint) {
    && (h.focused != null ==> h.focused in d.active)
    && (h.default != null ==> h.default in d.active)
  }

  function FirstEmpty(active: map<Output, Surface?>, outputs: seq<Output>): (r: Output?)
    requires forall o :: o in outputs ==> o in active
    ensures r != null ==> r in outputs && active[r] == null
    ensures r == null ==> forall o :: o in outputs ==> active[o] != null
  {
    if outputs == [] then null
    else if active[outputs[0]] == null then outputs[0]
    else FirstEmpty(active, outputs[1..])
  }

  ghost function BestOutput(d: Desk, s: Surface, h: Hint): (r: Output?)
    requires WellFormed(d) && s in d.surfaces && HintFits(d, h)
    ensures r != null ==> r in d.active
  {
    if d.output[s] != null then d.output[s]
    else if FirstEmpty(d.active, d.outputs) != null then FirstEmpty(d.active, d.outputs)
    else if h.focused != null then h.focused
    else h.default
  }

  function Create(d: Desk, s: Surface): Desk {
    d.(surfaces := d.surfaces + {s}, output := d.output[s := null], focusCount := d.focusCount[s := 0])
  }

  ghost function Added(d: Desk, s: Surface, h: Hint): Desk
    requires WellFormed(d) && s !in d.surfaces && HintFits(d, h)
  {
    var created := Create(d, s);
    MoveToOutput(created, s, BestOutput(created, s, h))
  }

  function Map(d: Desk, s: Surface): Desk {
    d.(mapped := d.mapped + {s})
  }

  ghost function CommittedOn(d: Desk, s: Surface, o: Output): Desk
    requires WellFormed(d) && s in d.surfaces && o in d.active
  {
    var placed := MoveToOutput(d, s, o);
    if s in d.mapped then placed
    else
      var shown := SetActive(Map(placed, s), o, s);
      Raise(Refocus(shown, s), o, s)
  }

  /** The first commit with a width maps the surface, shows it and focuses it.
      `sized` is false while it has none. */
  ghost function Committed(d: Desk, s: Surface, sized: bool, h: Hint): Desk
    requires WellFormed(d) && s in d.surfaces && HintFits(d, h)
  {
    var best := BestOutput(d, s, h);
    if !sized || best == null then d else CommittedOn(d, s, best)
  }

  ghost function MoveRequested(d: Desk, s: Surface, o: Output?, h: Hint): Desk
    requires WellFormed(d) && s in d.surfaces && (o != null ==> o in d.active) && HintFits(d, h)
  {
    MoveToOutput(d, s, if o != null then o else BestOutput(d, s, h))
  }

  /** The surface that takes the focus when `s` goes: the topmost other view on
      its output. */
  ghost function Successor(d: Desk, s: Surface): (r: Surface?)
    requires WellFormed(d) && s in d.surfaces
    ensures r != null ==> r in d.surfaces
  {
    if d.output[s] == null then null else Other(d, d.output[s], s)
  }

  function Destroy(d: Desk, s: Surface): Desk {
    d.(surfaces := d.surfaces - {s}, normal := Minus(d.normal, [s]), inactive := Minus(d.inactive, [s]),
       output := d.output - {s}, mapped := d.mapped - {s}, focusCount := d.focusCount - {s})
  }

  /** The output weston itself has for a surface: none before the surface is mapped. */
  function WestonOutput(d: Desk, s: Surface): Output?
    requires s in d.output
  {
    if s in d.mapped then d.output[s] else null
  }

  /** The focus is on the surface, or on another output. */
  ghost predicate FocusMoves(d: Desk, s: Surface)
    requires WellFormed(d) && s in d.surfaces
  {
    d.focused != null && (d.focused == s || WestonOutput(d, s) != WestonOutput(d, d.focused))
  }

  /** The state a removal leaves just before the surface itself is destroyed. */
  ghost function LetGo(d: Desk, s: Surface): Desk
    requires WellFormed(d) && s in d.surfaces
  {
    var o, next := d.output[s], Successor(d, s);
    if FocusMoves(d, s) then
      if next != null then
        var shown := if next in d.inactive then SetActive(d, o, next) else d;
        Raise(Refocus(shown, next), o, next)
      else
        var cleared := if d.focused == s then d.(focused := null) else d;
        if o != null && d.active[o] == s then SetActive(cleared, o, null) else cleared
    else if o != null && d.active[o] == s then
      SetActive(Release(d, o), o, Other(d, o, s))
    else d
  }

  ghost function Removed(d: Desk, s: Surface): Desk
    requires WellFormed(d) && s in d.surfaces
  {
    Destroy(LetGo(d, s), s)
  }

  function Plugged(d: Desk, o: Output): Desk {
    d.(outputs := d.outputs + [o], active := d.active[o := null])
  }

  function Orphaned(output: map<Surface, Output?>, o: Output): map<Surface, Output?> {
    map s | s in output :: if output[s] == o then null else output[s]
  }

  /** The output goes, and every surface on it is left without one. Nothing is
      hidden. */
  function Unplugged(d: Desk, o: Output): Desk {
    d.(outputs := Minus(d.outputs, [o]), active := d.active - {o}, output := Orphaned(d.output, o))
  }
}

/** What every run of events keeps. */
module ShellRuns {
  import opened Sequences
  import opened ShellObjects
  import opened ShellDesk

  /** An output's active tree is that of a surface which is on the output and visible. */
  ghost predicate ActiveLivesHere(d: Desk)
    requires WellFormed(d)
  {
    forall o :: o in d.active && d.active[o] != null ==> d.active[o] in d.normal && d.output[d.active[o]] == o
  }

  /** A visible surface on an output is the one the output shows. */
  ghost predicate VisibleIsActive(d: Desk)
    requires WellFormed(d)
  {
    forall s :: s in d.normal && d.output[s] != null ==> d.active[d.output[s]] == s
  }

  /** An output where a mapped surface lives shows one. */
  ghost predicate NeverDark(d: Desk)
    requires WellFormed(d)
  {
    forall s :: s in d.mapped && d.output[s] != null ==> d.active[d.output[s]] != null
  }

  /** The mapped surfaces are exactly those in the two layers, each in one of them, once. */
  ghost predicate Layered(d: Desk) {
    && Distinct(d.normal) && Distinct(d.inactive)
    && (forall s :: s in d.normal ==> s in d.mapped && s !in d.inactive)
    && (forall s :: s in d.inactive ==> s in d.mapped)
    && (forall s :: s in d.mapped ==> s in d.normal || s in d.inactive)
  }

  /** Exactly the focused surface is counted as such, once. */
  ghost predicate FocusCounted(d: Desk)
    requires WellFormed(d)
  {
    && (d.focused != null ==> d.focused in d.mapped)
    && forall s :: s in d.surfaces ==> d.focusCount[s] == if s == d.focused then 1 else 0
  }

  ghost predicate Inv(d: Desk) {
    && WellFormed(d)
    && ActiveLivesHere(d)
    && VisibleIsActive(d)
    && NeverDark(d)
    && Layered(d)
    && FocusCounted(d)
  }

  lemma RefocusKeeps(d: Desk, s: Surface)
    requires Inv(d) && s in d.mapped
    ensures Inv(Refocus(d, s))
  {
  }

  lemma RaiseKeeps(d: Desk, s: Surface, o: Output)
    requires Inv(d) && s in d.mapped && o in d.active
    ensures Inv(Raise(d, o, s))
  {
  }

  /** Showing a surface on its own output. */
  lemma SetActiveKeeps(d: Desk, s: Surface, o: Output)
    requires Inv(d) && s in d.mapped && d.output[s] == o && o in d.active
    ensures Inv(SetActive(d, o, s))
  {
  }

  ghost predicate NotShown(d: Desk, s: Surface) {
    forall o :: o in d.active ==> d.active[o] != s
  }

  ghost predicate VisibleIsActiveBut(d: Desk, s: Surface)
    requires WellFormed(d)
  {
    forall t :: t in d.normal && t != s && d.output[t] != null ==> d.active[d.output[t]] == t
  }

  ghost predicate NeverDarkBut(d: Desk, s: Surface)
    requires WellFormed(d)
  {
    forall t :: t in d.mapped && t != s && d.output[t] != null ==> d.active[d.output[t]] != null
  }

  /** The invariant for every surface but one, which no output shows. */
  ghost predicate InvBut(d: Desk, s: Surface) {
    && WellFormed(d)
    && ActiveLivesHere(d)
    && Layered(d)
    && NotShown(d, s)
    && VisibleIsActiveBut(d, s)
    && NeverDarkBut(d, s)
  }

  /** Hiding one mapped surface and showing another keeps the layers. */
  lemma LayersKept(d: Desk, o: Output, root: Surface?)
    requires WellFormed(d) && Layered(d) && o in d.active
    requires (root != null ==> root in d.mapped) && (d.active[o] != null ==> d.active[o] in d.mapped)
    ensures WellFormed(SetActive(d, o, root)) && Layered(SetActive(d, o, root))
  {
  }

  /** An output lets its surface go and shows another that lives there, if any. */
  lemma ReleaseKeeps(d: Desk, s: Surface, o: Output)
    requires Inv(d) && s in d.surfaces && o in d.active && d.active[o] == s
    ensures InvBut(SetActive(Release(d, o), o, Other(d, o, s)), s)
    ensures FocusCounted(SetActive(Release(d, o), o, Other(d, o, s)))
  {
    LayersKept(Release(d, o), o, Other(d, o, s));
    ReleaseShows(d, s, o);
    ReleaseHides(d, s, o);
    ReleaseLights(d, s, o);
  }

  lemma ReleaseShows(d: Desk, s: Surface, o: Output)
    requires Inv(d) && s in d.surfaces && o in d.active && d.active[o] == s
    ensures var left := SetActive(Release(d, o), o, Other(d, o, s));
      WellFormed(left) && ActiveLivesHere(left) && NotShown(left, s)
  {
    LayersKept(Release(d, o), o, Other(d, o, s));
  }

  lemma ReleaseHides(d: Desk, s: Surface, o: Output)
    requires Inv(d) && s in d.surfaces && o in d.active && d.active[o] == s
    ensures var left := SetActive(Release(d, o), o, Other(d, o, s)); WellFormed(left) && VisibleIsActiveBut(left, s)
  {
    LayersKept(Release(d, o), o, Other(d, o, s));
  }

  lemma ReleaseLights(d: Desk, s: Surface, o: Output)
    requires Inv(d) && s in d.surfaces && o in d.active && d.active[o] == s
    ensures var left := SetActive(Release(d, o), o, Other(d, o, s)); WellFormed(left) && NeverDarkBut(left, s)
  {
    LayersKept(Release(d, o), o, Other(d, o, s));
  }

  lemma PlaceKeepsRest(d: Desk, s: Surface, o: Output?)
    requires InvBut(d, s) && FocusCounted(d) && s in d.surfaces && (o != null ==> o in d.active)
    ensures InvBut(Place(d, s, o), s) && FocusCounted(Place(d, s, o))
  {
    PlaceFits(d, s, o);
  }

  lemma PlaceFits(d: Desk, s: Surface, o: Output?)
    requires WellFormed(d) && s in d.surfaces && (o != null ==> o in d.active)
    ensures WellFormed(Place(d, s, o))
  {
  }

  lemma UnshownKeeps(d: Desk, s: Surface)
    requires InvBut(d, s) && FocusCounted(d) && s in d.surfaces
    requires s !in d.mapped || d.output[s] == null
    ensures Inv(d)
  {
  }

  lemma ShowKeeps(d: Desk, s: Surface, o: Output)
    requires InvBut(d, s) && FocusCounted(d) && s in d.mapped && o in d.active && d.output[s] == o
    ensures Inv(SetActive(d, o, s))
  {
    LayersKept(d, o, s);
    ShowShows(d, s, o);
  }

  lemma ShowShows(d: Desk, s: Surface, o: Output)
    requires InvBut(d, s) && s in d.mapped && o in d.active && d.output[s] == o
    ensures var shown := SetActive(d, o, s);
      WellFormed(shown) && ActiveLivesHere(shown) && VisibleIsActive(shown) && NeverDark(shown)
  {
    LayersKept(d, o, s);
  }

  lemma MoveKeeps(d: Desk, s: Surface, o: Output?)
    requires Inv(d) && s in d.surfaces && (o != null ==> o in d.active)
    ensures Inv(MoveToOutput(d, s, o))
  {
    var from := d.output[s];
    if from != o {
      if from != null && d.active[from] == s {
        ReleaseKeeps(d, s, from);
      }
      var left :=
        if from != null && d.active[from] == s then SetActive(Release(d, from), from, Other(d, from, s)) else d;
      PlaceKeepsRest(left, s, o);
      if o != null && s in d.mapped {
        ShowKeeps(Place(left, s, o), s, o);
      } else {
        UnshownKeeps(Place(left, s, o), s);
      }
    }
  }

  lemma AddedKeeps(d: Desk, s: Surface, h: Hint)
    requires Inv(d) && s !in d.surfaces && HintFits(d, h)
    ensures Inv(Added(d, s, h))
  {
    var created := Create(d, s);
    assert Inv(created);
    MoveKeeps(created, s, BestOutput(created, s, h));
  }

  lemma CommittedKeeps(d: Desk, s: Surface, sized: bool, h: Hint)
    requires Inv(d) && s in d.surfaces && HintFits(d, h)
    ensures Inv(Committed(d, s, sized, h))
  {
    var best := BestOutput(d, s, h);
    if sized && best != null {
      MoveKeeps(d, s, best);
      if s !in d.mapped {
        var placed := MoveToOutput(d, s, best);
        MoveUnmapped(d, s, best);
        FirstShown(placed, s, best);
        var shown := SetActive(Map(placed, s), best, s);
        RefocusKeeps(shown, s);
        RaiseKeeps(Refocus(shown, s), s, best);
      }
    }
  }

  lemma MoveUnmapped(d: Desk, s: Surface, o: Output?)
    requires Inv(d) && s in d.surfaces && s !in d.mapped && (o != null ==> o in d.active)
    ensures MoveToOutput(d, s, o) == Place(d, s, o)
  {
    assert d.output[s] == o ==> d.output[s := o] == d.output;
  }

  lemma FirstShown(d: Desk, s: Surface, o: Output)
    requires Inv(d) && s in d.surfaces && s !in d.mapped && o in d.active && d.output[s] == o
    ensures Inv(SetActive(Map(d, s), o, s))
  {
    FirstIsLayered(d, s, o);
    FirstShows(d, s, o);
  }

  lemma FirstIsLayered(d: Desk, s: Surface, o: Output)
    requires Inv(d) && s in d.surfaces && s !in d.mapped && o in d.active
    ensures WellFormed(SetActive(Map(d, s), o, s)) && Layered(SetActive(Map(d, s), o, s))
    ensures FocusCounted(SetActive(Map(d, s), o, s))
  {
  }

  lemma FirstShows(d: Desk, s: Surface, o: Output)
    requires Inv(d) && s in d.surfaces && s !in d.mapped && o in d.active && d.output[s] == o
    ensures var shown := SetActive(Map(d, s), o, s);
      WellFormed(shown) && ActiveLivesHere(shown) && VisibleIsActive(shown) && NeverDark(shown)
  {
    FirstIsLayered(d, s, o);
  }

  /** The focus passes to another surface of the same output, shown if it was hidden. */
  lemma SuccessionKeeps(d: Desk, s: Surface, next: Surface, o: Output)
    requires Inv(d) && s in d.surfaces && o in d.active && d.output[s] == o
    requires next != s && next in d.surfaces && d.output[next] == o && (next in d.normal || next in d.inactive)
    ensures var shown := if next in d.inactive then SetActive(d, o, next) else d; Inv(shown) && shown.active[o] == next
  {
    if next in d.inactive {
      SetActiveKeeps(d, next, o);
    }
  }

  lemma RemovedKeeps(d: Desk, s: Surface)
    requires Inv(d) && s in d.surfaces
    ensures Inv(Removed(d, s))
  {
    var o, next := d.output[s], Successor(d, s);
    if FocusMoves(d, s) {
      if next != null {
        SuccessionKeeps(d, s, next, o);
        var shown := if next in d.inactive then SetActive(d, o, next) else d;
        RefocusKeeps(shown, next);
        RaiseKeeps(Refocus(shown, next), next, o);
        UnshownDestroyKeeps(Raise(Refocus(shown, next), o, next), s);
      } else {
        LastGoes(d, s, if d.focused == s then d.(focused := null) else d);
      }
    } else if o != null && d.active[o] == s {
      ReleaseKeeps(d, s, o);
      DestroyKeeps(LetGo(d, s), s);
    } else {
      UnshownDestroyKeeps(d, s);
    }
  }

  lemma UnshownDestroyKeeps(d: Desk, s: Surface)
    requires Inv(d) && s in d.surfaces && d.focused != s
    requires d.output[s] != null ==> d.active[d.output[s]] != s
    ensures Inv(Destroy(d, s))
  {
    DestroyKeeps(d, s);
  }

  /** The last surface of an output goes and leaves it showing nothing. */
  lemma LastGoes(d: Desk, s: Surface, cleared: Desk)
    requires Inv(d) && s in d.surfaces && Successor(d, s) == null
    requires cleared == if d.focused == s then d.(focused := null) else d
    ensures var o := d.output[s];
      Inv(Destroy(if o != null && d.active[o] == s then SetActive(cleared, o, null) else cleared, s))
  {
    var o := d.output[s];
    if o != null && d.active[o] == s {
      EmptyKeeps(d, s, o, cleared);
      DestroyKeeps(SetActive(cleared, o, null), s);
    } else {
      DestroyKeeps(cleared, s);
    }
  }

  /** An output whose last surface goes shows nothing. */
  lemma EmptyKeeps(d: Desk, s: Surface, o: Output, cleared: Desk)
    requires Inv(d) && s in d.surfaces && d.output[s] == o && o in d.active && d.active[o] == s &&
      Other(d, o, s) == null
    requires cleared == if d.focused == s then d.(focused := null) else d
    ensures InvBut(SetActive(cleared, o, null), s)
  {
    LayersKept(cleared, o, null);
  }

  /** Once nothing shows or focuses a surface it can go. */
  lemma DestroyKeeps(d: Desk, s: Surface)
    requires InvBut(d, s) && s in d.surfaces
    requires d.focused != s && (d.focused != null ==> d.focused in d.mapped)
    requires forall t :: t in d.surfaces && t != s ==> d.focusCount[t] == if t == d.focused then 1 else 0
    ensures Inv(Destroy(d, s))
  {
  }

  lemma PluggedKeeps(d: Desk, o: Output)
    requires Inv(d) && o !in d.active
    ensures Inv(Plugged(d, o))
  {
  }

  lemma UnpluggedKeeps(d: Desk, o: Output)
    requires Inv(d) && o in d.active
    ensures Inv(Unplugged(d, o))
  {
  }

  // ---------------------------------------------------------------------
  // Runs.

  datatype Event =
    | AddedEvent(s: Surface, h: Hint)
    | CommittedEvent(s: Surface, sized: bool, h: Hint)
    | MoveRequestedEvent(s: Surface, o: Output?, h: Hint)
    | ClickedEvent(s: Surface)
    | RemovedEvent(s: Surface)
    | PluggedEvent(output: Output)
    | UnpluggedEvent(output: Output)

  /** What weston sees to: an event names live objects, and a click lands on a mapped surface. */
  ghost predicate Enabled(d: Desk, e: Event)
    requires WellFormed(d)
  {
    match e
    case AddedEvent(s, h) => s !in d.surfaces && HintFits(d, h)
    case CommittedEvent(s, _, h) => s in d.surfaces && HintFits(d, h)
    case MoveRequestedEvent(s, o, h) => s in d.surfaces && (o != null ==> o in d.active) && HintFits(d, h)
    case ClickedEvent(s) => s in d.mapped
    case RemovedEvent(s) => s in d.surfaces
    case PluggedEvent(o) => o !in d.active
    case UnpluggedEvent(o) => o in d.active
  }

  ghost function Next(d: Desk, e: Event): Desk
    requires WellFormed(d) && Enabled(d, e)
  {
    match e
    case AddedEvent(s, h) => Added(d, s, h)
    case CommittedEvent(s, sized, h) => Committed(d, s, sized, h)
    case MoveRequestedEvent(s, o, h) => MoveRequested(d, s, o, h)
    case ClickedEvent(s) => Activate(d, s)
    case RemovedEvent(s) => Removed(d, s)
    case PluggedEvent(o) => Plugged(d, o)
    case UnpluggedEvent(o) => Unplugged(d, o)
  }

  lemma NextKeeps(d: Desk, e: Event)
    requires Inv(d) && Enabled(d, e)
    ensures Inv(Next(d, e))
  {
    match e {
      case AddedEvent(s, h) => AddedKeeps(d, s, h);
      case CommittedEvent(s, sized, h) => CommittedKeeps(d, s, sized, h);
      case MoveRequestedEvent(s, o, h) => MoveKeeps(d, s, if o != null then o else BestOutput(d, s, h));
      case ClickedEvent(s) =>
        RefocusKeeps(d, s);
        if d.output[s] != null {
          RaiseKeeps(Refocus(d, s), s, d.output[s]);
        }
      case RemovedEvent(s) => RemovedKeeps(d, s);
      case PluggedEvent(o) => PluggedKeeps(d, o);
      case UnpluggedEvent(o) => UnpluggedKeeps(d, o);
    }
  }

  /** `d` is reached from `from` by some run of events. */
  ghost predicate Reaches(from: Desk, events: seq<Event>, d: Desk)
    requires WellFormed(from)
    decreases |events|
  {
    if events == [] then from == d
    else Enabled(from, events[0]) && WellFormed(Next(from, events[0])) && Reaches(Next(from, events[0]), events[1..], d)
  }

  const EMPTY: Desk := Desk([], map[], {}, map[], {}, [], [], null, map[])

  lemma {:induction false} RunKeeps(from: Desk, events: seq<Event>, d: Desk)
    requires Inv(from) && Reaches(from, events, d)
    ensures Inv(d)
    decreases |events|
  {
    if events != [] {
      NextKeeps(from, events[0]);
      RunKeeps(Next(from, events[0]), events[1..], d);
    }
  }

  /** In every state of every run: an active tree belongs to a live, visible surface
      that lives on the output; no surface is active on two outputs; an output where
      a mapped surface lives shows one; and the focus is none, or a live surface
      counted once while every other is counted zero times. */
  lemma ShellIsSafe(events: seq<Event>, d: Desk)
    requires Reaches(EMPTY, events, d)
    ensures forall o :: o in d.active && d.active[o] != null ==>
      d.active[o] in d.surfaces && d.active[o] in d.output && d.output[d.active[o]] == o
    ensures forall o, p :: o in d.active && p in d.active && o != p && d.active[o] != null ==>
      d.active[o] != d.active[p]
    ensures forall s :: s in d.mapped ==>
      s in d.output && (d.output[s] != null ==> d.output[s] in d.active && d.active[d.output[s]] != null)
    ensures d.focused != null ==> d.focused in d.surfaces
    ensures forall s :: s in d.surfaces ==> s in d.focusCount && d.focusCount[s] == if s == d.focused then 1 else 0
  {
    RunKeeps(EMPTY, events, d);
  }
}
