/**
 What each event of the shell does, read from the state before and after it
 (chromiumos-ash/aurade-weston-shell.c:253-417, 657-691, 1376-1696).
 */
module ShellEvents {
  import opened ShellObjects
  import opened ShellDesk
  import opened ShellRuns

  /** The output shows the surface, on top of everything. */
  ghost predicate OnTop(d: Desk, s: Surface, o: Output) {
    && o in d.active && d.active[o] == s
    && d.normal != [] && d.normal[0] == s && s !in d.inactive
  }

  /** The first of some views on `o`, but for one. */
  ghost predicate IsFirstOn(views: seq<Surface>, output: map<Surface, Output?>, o: Output, except: Surface, i: nat)
    requires forall v :: v in views ==> v in output
    requires i < |views|
  {
    && views[i] != except && output[views[i]] == o
    && forall j :: 0 <= j < i ==> views[j] == except || output[views[j]] != o
  }

  /** The surface that lives on `o` and is uppermost of those, but for one: first of the
      visible views and then of the hidden ones. */
  ghost predicate Uppermost(d: Desk, o: Output, except: Surface, top: Surface?)
    requires WellFormed(d)
  {
    var views := d.normal + d.inactive;
    if top == null then forall v :: v in views && v != except ==> d.output[v] != o
    else exists i :: 0 <= i < |views| && views[i] == top && IsFirstOn(views, d.output, o, except, i)
  }

  ghost predicate IsFirstDark(active: map<Output, Surface?>, outputs: seq<Output>, i: nat)
    requires forall o :: o in outputs ==> o in active
    requires i < |outputs|
  {
    active[outputs[i]] == null && forall j :: 0 <= j < i ==> active[outputs[j]] != null
  }

  /** Where a surface without an output goes: to the first output that shows nothing, and
      when there is none to the one with the focus, or else to the default one. */
  ghost predicate Chosen(d: Desk, h: Hint, o: Output?)
    requires WellFormed(d)
  {
    if forall i :: 0 <= i < |d.outputs| ==> d.active[d.outputs[i]] != null
    then o == if h.focused != null then h.focused else h.default
    else exists i :: 0 <= i < |d.outputs| && o == d.outputs[i] && IsFirstDark(d.active, d.outputs, i)
  }

  /** Nothing but outputs and views has changed. */
  ghost predicate SameFocus(d: Desk, after: Desk) {
    && after.outputs == d.outputs && after.surfaces == d.surfaces && after.mapped == d.mapped
    && after.focused == d.focused && after.focusCount == d.focusCount
  }

  lemma {:induction false} FirstOnIsFirst(views: seq<Surface>, output: map<Surface, Output?>, o: Output,
    except: Surface)
    returns (i: nat)
    requires (forall v :: v in views ==> v in output) && FirstOn(views, output, o, except) != null
    ensures i < |views| && views[i] == FirstOn(views, output, o, except)
    ensures IsFirstOn(views, output, o, except, i)
  {
    if views[0] != except && output[views[0]] == o {
      i := 0;
    } else {
      var n := FirstOnIsFirst(views[1..], output, o, except);
      i := n + 1;
      assert forall j :: 0 < j < |views| ==> views[j] == views[1..][j - 1];
    }
  }

  lemma OtherIsUppermost(d: Desk, o: Output, s: Surface)
    requires WellFormed(d)
    ensures Uppermost(d, o, s, Other(d, o, s))
  {
    if Other(d, o, s) != null {
      var i := FirstOnIsFirst(d.normal + d.inactive, d.output, o, s);
    }
  }

  lemma {:induction false} FirstEmptyIsFirst(active: map<Output, Surface?>, outputs: seq<Output>) returns (i: nat)
    requires (forall o :: o in outputs ==> o in active) && FirstEmpty(active, outputs) != null
    ensures i < |outputs| && outputs[i] == FirstEmpty(active, outputs) && IsFirstDark(active, outputs, i)
  {
    if active[outputs[0]] == null {
      i := 0;
    } else {
      var n := FirstEmptyIsFirst(active, outputs[1..]);
      i := n + 1;
      assert forall j :: 0 < j < |outputs| ==> outputs[j] == outputs[1..][j - 1];
    }
  }

  lemma BestIsChosen(d: Desk, s: Surface, h: Hint)
    requires WellFormed(d) && s in d.surfaces && HintFits(d, h)
    ensures if d.output[s] != null then BestOutput(d, s, h) == d.output[s] else Chosen(d, h, BestOutput(d, s, h))
  {
    assert forall i :: 0 <= i < |d.outputs| ==> d.outputs[i] in d.outputs;
    if d.output[s] == null && FirstEmpty(d.active, d.outputs) != null {
      var i := FirstEmptyIsFirst(d.active, d.outputs);
    }
  }

  // ---------------------------------------------------------------------
  // Moving.

  /** The outputs other than two show what they showed. */
  ghost predicate SameElsewhere(d: Desk, after: Desk, o: Output?, from: Output?) {
    && after.active.Keys == d.active.Keys
    && forall p :: p in d.active && p != o && p != from ==> after.active[p] == d.active[p]
  }

  /** What is true after a surface has moved to another output, if it is mapped: that
      output shows it on top, and what it showed is hidden, uppermost of the hidden views. */
  ghost predicate Arrives(d: Desk, s: Surface, o: Output, after: Desk)
    requires o in d.active
  {
    && OnTop(after, s, o)
    && (d.active[o] != null ==> after.inactive != [] && after.inactive[0] == d.active[o])
  }

  /** What is true of the output left: it shows the uppermost of the others that live
      there, if the surface was the one it showed. */
  ghost predicate Leaves(d: Desk, s: Surface, from: Output, after: Desk)
    requires WellFormed(d) && from in d.active
  {
    && from in after.active
    && if d.active[from] == s then Uppermost(d, from, s, after.active[from]) else after.active[from] == d.active[from]
  }

  /** Showing a surface puts it on top and what was shown under it, uppermost of the hidden. */
  lemma ShowPutsOnTop(d: Desk, s: Surface, o: Output)
    requires o in d.active && d.active[o] != s
    ensures Arrives(d, s, o, SetActive(d, o, s))
  {
    var hidden := Hide(d, d.active[o]);
    if d.active[o] != null {
      assert hidden.inactive[0] == d.active[o];
    }
  }

  /** The state once a surface has left its output. */
  ghost function Left(d: Desk, s: Surface): Desk
    requires WellFormed(d) && s in d.surfaces
  {
    var from := d.output[s];
    if from != null && d.active[from] == s then SetActive(Release(d, from), from, Other(d, from, s)) else d
  }

  lemma LeavingLeaves(d: Desk, s: Surface)
    requires Inv(d) && s in d.surfaces
    ensures var left := Left(d, s);
      && SameFocus(d, left) && left.output == d.output && SameElsewhere(d, left, d.output[s], null)
      && (s !in d.mapped ==> left == d)
      && (forall p :: p in left.active ==> left.active[p] != s)
      && (d.output[s] != null ==> Leaves(d, s, d.output[s], left))
  {
    if d.output[s] != null {
      OtherIsUppermost(d, d.output[s], s);
    }
  }

  lemma MoveMoves(d: Desk, s: Surface, o: Output)
    requires Inv(d) && s in d.surfaces && o in d.active && o != d.output[s]
    ensures var after := MoveToOutput(d, s, o);
      && SameFocus(d, after) && after.output == d.output[s := o] && SameElsewhere(d, after, o, d.output[s])
      && (s in d.mapped ==> Arrives(d, s, o, after))
      && (s !in d.mapped ==> after.active == d.active && after.normal == d.normal && after.inactive == d.inactive)
      && (d.output[s] != null ==> Leaves(d, s, d.output[s], after))
  {
    LeavingLeaves(d, s);
    var placed := Place(Left(d, s), s, o);
    assert placed.active[o] == d.active[o];
    if s in d.mapped {
      ShowPutsOnTop(placed, s, o);
      assert MoveToOutput(d, s, o) == SetActive(placed, o, s);
    } else {
      assert MoveToOutput(d, s, o) == placed;
    }
  }

  /** A request that names another output moves the surface there and nothing else but the
      two outputs' views. One that names its own output changes nothing. */
  lemma RequestMoves(d: Desk, s: Surface, o: Output, h: Hint)
    requires Inv(d) && Enabled(d, MoveRequestedEvent(s, o, h))
    ensures var after := Next(d, MoveRequestedEvent(s, o, h));
      && after.output[s] == o && after.output == d.output[s := o] && SameFocus(d, after)
      && SameElsewhere(d, after, o, d.output[s])
      && (d.output[s] == o ==> after == d)
      && (d.output[s] != o && s in d.mapped ==> Arrives(d, s, o, after))
      && (d.output[s] != o && s !in d.mapped ==> after.active[o] == d.active[o])
      && (d.output[s] != o && d.output[s] != null ==> Leaves(d, s, d.output[s], after))
  {
    if d.output[s] == o {
      assert d.output[s := o] == d.output;
    } else {
      MoveMoves(d, s, o);
    }
  }

  /** The surface has gone to an output it did not have; if mapped, it is shown there. */
  ghost predicate Settles(d: Desk, s: Surface, o: Output?, after: Desk)
    requires WellFormed(d) && s in d.surfaces && (o != null ==> o in d.active)
  {
    && SameFocus(d, after) && after.output == d.output[s := o] && SameElsewhere(d, after, o, null)
    && (o != null && s in d.mapped ==> Arrives(d, s, o, after))
    && (o == null || s !in d.mapped ==> after == d.(output := d.output[s := o]))
  }

  lemma HomelessSettles(d: Desk, s: Surface, o: Output?)
    requires Inv(d) && s in d.surfaces && d.output[s] == null && (o != null ==> o in d.active)
    ensures Settles(d, s, o, MoveToOutput(d, s, o))
  {
    if o != null {
      MoveMoves(d, s, o);
    } else {
      assert d.output[s := o] == d.output;
    }
  }

  /** A request that names no output leaves a placed surface where it was and finds an output
      for one without. */
  lemma UnnamedRequestStays(d: Desk, s: Surface, h: Hint) returns (o: Output?)
    requires Inv(d) && Enabled(d, MoveRequestedEvent(s, null, h))
    ensures d.output[s] != null ==> Next(d, MoveRequestedEvent(s, null, h)) == d
    ensures d.output[s] == null ==> Chosen(d, h, o) && (o != null ==> o in d.active)
    ensures d.output[s] == null ==> Settles(d, s, o, Next(d, MoveRequestedEvent(s, null, h)))
  {
    o := BestOutput(d, s, h);
    BestIsChosen(d, s, h);
    if d.output[s] == null {
      HomelessSettles(d, s, o);
    }
  }

  // ---------------------------------------------------------------------
  // Arrivals and commits.

  lemma CreatedIsGood(d: Desk, s: Surface)
    requires Inv(d) && s !in d.surfaces
    ensures Inv(Create(d, s))
  {
  }

  lemma ChosenAlike(d: Desk, created: Desk, h: Hint, o: Output?)
    requires WellFormed(d) && WellFormed(created) && Chosen(created, h, o)
    requires created.outputs == d.outputs && created.active == d.active
    ensures Chosen(d, h, o)
  {
  }

  /** A new surface has the output found for it and is not shown yet; all else is as it was. */
  lemma NewcomerIsPlaced(d: Desk, s: Surface, h: Hint) returns (o: Output?)
    requires Inv(d) && Enabled(d, AddedEvent(s, h))
    ensures Chosen(d, h, o)
    ensures Next(d, AddedEvent(s, h)) ==
      d.(surfaces := d.surfaces + {s}, output := d.output[s := o], focusCount := d.focusCount[s := 0])
  {
    var created := Create(d, s);
    CreatedIsGood(d, s);
    o := BestOutput(created, s, h);
    BestIsChosen(created, s, h);
    ChosenAlike(d, created, h, o);
    assert created.output[s := o] == d.output[s := o];
    MoveUnmapped(created, s, o);
  }

  /** A commit without a size changes nothing, nor does one of a mapped surface that has an
      output. */
  lemma IdleCommit(d: Desk, s: Surface, sized: bool, h: Hint)
    requires Inv(d) && Enabled(d, CommittedEvent(s, sized, h))
    requires !sized || (s in d.mapped && d.output[s] != null)
    ensures Next(d, CommittedEvent(s, sized, h)) == d
  {
  }

  /** A sized commit of a mapped surface without an output finds it one and shows it there. */
  lemma CommitFindsOutput(d: Desk, s: Surface, h: Hint) returns (o: Output?)
    requires Inv(d) && Enabled(d, CommittedEvent(s, true, h)) && s in d.mapped && d.output[s] == null
    ensures Chosen(d, h, o) && (o != null ==> o in d.active)
    ensures Settles(d, s, o, Next(d, CommittedEvent(s, true, h)))
  {
    o := BestOutput(d, s, h);
    BestIsChosen(d, s, h);
    HomelessSettles(d, s, o);
    assert o == null ==> d.output[s := o] == d.output;
  }

  /** The surface is mapped, shown on top of its output and focused, and nothing else but the
      view it covers has changed. */
  ghost predicate Opens(d: Desk, s: Surface, o: Output, after: Desk)
    requires o in d.active
  {
    && Arrives(d, s, o, after) && after.focused == s && s in after.focusCount && after.focusCount[s] == 1
    && after.outputs == d.outputs && after.surfaces == d.surfaces && after.mapped == d.mapped + {s}
    && after.output == d.output[s := o] && SameElsewhere(d, after, o, null)
  }

  lemma ShownOpens(d: Desk, s: Surface, o: Output)
    requires Inv(d) && s in d.surfaces && s !in d.mapped && o in d.active
    ensures Opens(d, s, o, Refocus(SetActive(Map(Place(d, s, o), s), o, s), s))
  {
    ShowPutsOnTop(Map(Place(d, s, o), s), s, o);
    assert d.focusCount[s] == 0;
  }

  lemma RaisedOpens(d: Desk, s: Surface, o: Output, shown: Desk)
    requires o in d.active && Opens(d, s, o, shown)
    ensures Opens(d, s, o, Raise(shown, o, s))
  {
  }

  /** The first sized commit opens the surface on its output or the one found for it; with no
      output at all it waits. */
  lemma FirstCommitShows(d: Desk, s: Surface, h: Hint) returns (o: Output?)
    requires Inv(d) && Enabled(d, CommittedEvent(s, true, h)) && s !in d.mapped
    ensures if d.output[s] != null then o == d.output[s] else Chosen(d, h, o)
    ensures o != null ==> o in d.active && Opens(d, s, o, Next(d, CommittedEvent(s, true, h)))
    ensures o == null ==> Next(d, CommittedEvent(s, true, h)) == d
  {
    o := BestOutput(d, s, h);
    BestIsChosen(d, s, h);
    if o != null {
      MoveUnmapped(d, s, o);
      ShownOpens(d, s, o);
      RaisedOpens(d, s, o, Refocus(SetActive(Map(Place(d, s, o), s), o, s), s));
    }
  }

  // ---------------------------------------------------------------------
  // Clicks, removals and monitors.

  /** A click gives the surface the focus; if its output shows it, it comes to the top. */
  lemma ClickFocuses(d: Desk, s: Surface)
    requires Inv(d) && Enabled(d, ClickedEvent(s))
    ensures var after := Next(d, ClickedEvent(s));
      && after.focused == s && after.focusCount[s] == 1
      && after.outputs == d.outputs && after.active == d.active && after.surfaces == d.surfaces
      && after.output == d.output && after.mapped == d.mapped
      && (if d.output[s] != null && d.active[d.output[s]] == s then OnTop(after, s, d.output[s])
          else after.normal == d.normal && after.inactive == d.inactive)
  {
    RefocusKeeps(d, s);
  }

  /** Who has the focus once a surface is gone, when `top` is uppermost of the others on its
      output. It stays where it was unless it was on the surface or, as weston sees it, on
      another output; then it goes to `top`, or if there is none leaves the surface alone. */
  ghost predicate PassesOn(d: Desk, s: Surface, top: Surface?, focused: Surface?)
    requires WellFormed(d) && s in d.surfaces
  {
    var own := if s in d.mapped then d.output[s] else null;
    if d.focused == s then focused == top
    else if d.focused == null then focused == null
    else if d.focused in d.mapped && d.output[d.focused] != own && top != null then focused == top
    else focused == d.focused
  }

  /** An output that does not show a surface shows the uppermost of the others there. */
  lemma TopIsShown(d: Desk, s: Surface, o: Output)
    requires Inv(d) && s in d.surfaces && o in d.active && d.output[s] == o && d.active[o] != s
    ensures Other(d, o, s) == d.active[o] && (d.active[o] != null ==> d.active[o] !in d.inactive)
  {
    var shown, views := d.active[o], d.normal + d.inactive;
    if shown != null {
      var j :| 0 <= j < |d.normal| && d.normal[j] == shown;
      assert views[j] == shown;
      var i := FirstOnIsFirst(views, d.output, o, s);
      assert i <= j && views[i] == d.normal[i];
    }
  }

  /** What a removal leaves of the outputs: the one that showed the surface shows `top`. */
  ghost predicate HandsOver(d: Desk, s: Surface, top: Surface?, after: Desk)
    requires WellFormed(d) && s in d.surfaces
  {
    && after.outputs == d.outputs && SameElsewhere(d, after, d.output[s], null)
    && (d.output[s] != null ==>
         after.active[d.output[s]] == if d.active[d.output[s]] == s then top else d.active[d.output[s]])
    && (d.output[s] != null && d.active[d.output[s]] == s && top != null ==> OnTop(after, top, d.output[s]))
  }

  lemma SuccessorIsShown(d: Desk, s: Surface, o: Output, top: Surface)
    requires Inv(d) && s in d.surfaces && d.output[s] == o && o in d.active && top == Other(d, o, s)
    ensures var shown := if top in d.inactive then SetActive(d, o, top) else d;
      && HandsOver(d, s, top, shown)
      && shown == d.(active := shown.active, normal := shown.normal, inactive := shown.inactive)
  {
    if d.active[o] != s {
      TopIsShown(d, s, o);
    }
  }

  lemma ReleaseHandsOver(d: Desk, s: Surface, o: Output)
    requires Inv(d) && s in d.surfaces && o in d.active && d.output[s] == o && d.active[o] == s
    ensures var top, after := Other(d, o, s), SetActive(Release(d, o), o, Other(d, o, s));
      && after == d.(active := after.active, normal := after.normal, inactive := after.inactive)
      && HandsOver(d, s, top, after)
  {
  }

  lemma EmptyHandsOver(d: Desk, s: Surface, o: Output, cleared: Desk)
    requires Inv(d) && s in d.surfaces && o in d.active && d.output[s] == o && d.active[o] == s
    requires cleared == d.(focused := cleared.focused)
    ensures var after := SetActive(cleared, o, null);
      && after == cleared.(active := after.active, normal := after.normal, inactive := after.inactive)
      && HandsOver(d, s, null, after)
  {
  }

  /** Without a change of focus, or with no one to pass it to. */
  lemma LetGoShowsTop(d: Desk, s: Surface)
    requires Inv(d) && s in d.surfaces && !(FocusMoves(d, s) && Successor(d, s) != null)
    ensures var top, after := Successor(d, s), LetGo(d, s);
      && after.surfaces == d.surfaces && after.mapped == d.mapped && after.output == d.output
      && HandsOver(d, s, top, after) && PassesOn(d, s, top, after.focused)
  {
    var o := d.output[s];
    if o != null && d.active[o] == s {
      if FocusMoves(d, s) {
        EmptyHandsOver(d, s, o, if d.focused == s then d.(focused := null) else d);
      } else {
        ReleaseHandsOver(d, s, o);
      }
    }
  }

  lemma LetGoHandsOver(d: Desk, s: Surface)
    requires Inv(d) && s in d.surfaces
    ensures var top, after := Successor(d, s), LetGo(d, s);
      && after.surfaces == d.surfaces && after.mapped == d.mapped && after.output == d.output
      && HandsOver(d, s, top, after) && PassesOn(d, s, top, after.focused)
  {
    var o, top := d.output[s], Successor(d, s);
    if FocusMoves(d, s) && top != null {
      SuccessorIsShown(d, s, o, top);
      FocusPasses(d, s, o, top, if top in d.inactive then SetActive(d, o, top) else d);
    } else {
      LetGoShowsTop(d, s);
    }
  }

  lemma FocusPasses(d: Desk, s: Surface, o: Output, top: Surface, shown: Desk)
    requires Inv(d) && s in d.surfaces && o in d.active && d.output[s] == o && top in d.surfaces
    requires FocusMoves(d, s) && HandsOver(d, s, top, shown)
    requires shown == d.(active := shown.active, normal := shown.normal, inactive := shown.inactive)
    ensures var after := Raise(Refocus(shown, top), o, top);
      && after.surfaces == d.surfaces && after.mapped == d.mapped && after.output == d.output
      && HandsOver(d, s, top, after) && PassesOn(d, s, top, after.focused)
  {
  }

  /** A removal takes the surface out of everything, passes the focus on, and lets the output
      that showed it show the uppermost of the others there. All else is as it was. */
  lemma RemovalHandsOver(d: Desk, s: Surface) returns (top: Surface?)
    requires Inv(d) && Enabled(d, RemovedEvent(s))
    ensures if d.output[s] == null then top == null else Uppermost(d, d.output[s], s, top)
    ensures var after := Next(d, RemovedEvent(s));
      && after.surfaces == d.surfaces - {s} && after.mapped == d.mapped - {s}
      && after.output == d.output - {s} && HandsOver(d, s, top, after) && PassesOn(d, s, top, after.focused)
  {
    top := Successor(d, s);
    if d.output[s] != null {
      OtherIsUppermost(d, d.output[s], s);
    }
    LetGoHandsOver(d, s);
  }

  /** A monitor that is plugged in comes last and shows nothing; all else is as it was. */
  lemma PlugAddsDark(d: Desk, o: Output)
    requires Inv(d) && Enabled(d, PluggedEvent(o))
    ensures var after := Next(d, PluggedEvent(o));
      && after == d.(outputs := after.outputs, active := after.active)
      && |after.outputs| == |d.outputs| + 1 && d.outputs < after.outputs && after.outputs[|d.outputs|] == o
      && after.active.Keys == d.active.Keys + {o} && after.active[o] == null
      && forall p :: p in d.active ==> after.active[p] == d.active[p]
  {
  }

  /** A monitor that is unplugged leaves its surfaces without an output; all else is as it was. */
  lemma UnplugOrphans(d: Desk, o: Output)
    requires Inv(d) && Enabled(d, UnpluggedEvent(o))
    ensures var after := Next(d, UnpluggedEvent(o));
      && after == d.(outputs := after.outputs, active := after.active, output := after.output)
      && (forall p :: p in after.outputs <==> p in d.outputs && p != o)
      && after.active.Keys == d.active.Keys - {o} && (forall p :: p in after.active ==> after.active[p] == d.active[p])
      && forall s :: s in d.surfaces ==> after.output[s] == if d.output[s] == o then null else d.output[s]
  {
  }

  /** A surface whose monitor was unplugged is shown again at its next commit, on the output
      found for it, if there is one left. */
  lemma OrphanIsFoundOutput(d: Desk, s: Surface, o: Output, h: Hint) returns (to: Output?)
    requires Inv(d) && Enabled(d, UnpluggedEvent(o)) && s in d.mapped && d.output[s] == o
    requires HintFits(Next(d, UnpluggedEvent(o)), h)
    ensures var gone := Next(d, UnpluggedEvent(o));
      && Inv(gone) && Enabled(gone, CommittedEvent(s, true, h)) && Chosen(gone, h, to)
      && (to != null ==> to in gone.active && to != o && OnTop(Next(gone, CommittedEvent(s, true, h)), s, to))
  {
    UnpluggedKeeps(d, o);
    to := CommitFindsOutput(Next(d, UnpluggedEvent(o)), s, h);
  }
}
