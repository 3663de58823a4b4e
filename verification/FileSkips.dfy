/**
 Requests that leave what is there alone: `skip` and `fail-if-exists`
 (files-app/backend.py:213-226, 1588-1701), for copies and for moves.
 */
module FileSkips {
  import opened Sequences
  import opened Wrappers
  import opened FileTree
  import opened FileOps
  import opened FileOpsPromises
  import opened FileTraces

  function Asked(fs: FileMap, items: seq<Item>, dest: Path, conflict: Conflict, moved: bool): Outcome<seq<Path>> {
    if moved then MoveItems(fs, items, dest, conflict) else CopyItems(fs, items, dest, conflict)
  }

  function AskedOne(fs: FileMap, one: Landing, conflict: Conflict, moved: bool): Outcome<Option<Path>>
    requires one.out != []
  {
    if moved then MoveOne(fs, one.src, one.out, conflict) else CopyOne(fs, one.src, one.out, conflict)
  }

  lemma AskedFirst(fs: FileMap, items: seq<Item>, dest: Path, conflict: Conflict, moved: bool)
    requires items != []
    ensures var one := AskedOne(fs, Places(items, dest)[0], conflict, moved);
      Asked(fs, items, dest, conflict, moved) ==
      if one.r.Err? then Outcome(one.fs, Err(one.r.error))
      else Prepend(Listed(one.r.value), Asked(one.fs, items[1..], dest, conflict, moved))
  {
  }

  // ---------------------------------------------------------------------
  // Any such request, traced.

  lemma LandsCopied(fs: FileMap, one: Landing)
    requires Closed(fs) && one.out != [] && IsFolder(fs, Parent(one.out)) && !(one.src <= Parent(one.out))
    requires one.out !in fs && one.src in fs
    ensures var after := CopyTree(fs, one.src, one.out);
      Traced(fs, [one], false, after) && Closed(after) && IsFolder(after, Parent(one.out))
  {
    AbsentIsFree(fs, one.out);
    FreshIsApart(fs, one.src, Parent(one.out), one.out);
    assert RemoveTree(fs, one.out) == fs;
    CopyLands(fs, one);
    CopyTreeClosed(fs, one.src, one.out);
    CopyTreeAdds(fs, one.src, one.out);
  }

  lemma LandsMoved(fs: FileMap, one: Landing)
    requires Closed(fs) && one.out != [] && IsFolder(fs, Parent(one.out)) && !(one.src <= Parent(one.out))
    requires one.out !in fs && one.src in fs && one.src != []
    ensures !(one.src <= one.out)
    ensures var after := RenameTree(fs, one.src, one.out);
      Traced(fs, [one], true, after) && Closed(after) && IsFolder(after, Parent(one.out))
  {
    AbsentIsFree(fs, one.out);
    FreshIsApart(fs, one.src, Parent(one.out), one.out);
    assert RemoveTree(fs, one.out) == fs;
    MoveLands(fs, one);
    RenameTreeClosed(fs, one.src, one.out);
    RenameTreeMoves(fs, one.src, one.out);
  }

  /** One source: left alone if its place is taken, gone, or landed there. */
  lemma SparingOne(fs: FileMap, one: Landing, conflict: Conflict, moved: bool)
    requires Closed(fs) && one.out != [] && one.src != [] && conflict in {Skip, FailIfExists}
    requires IsFolder(fs, Parent(one.out)) && !(one.src <= Parent(one.out))
    ensures var o := AskedOne(fs, one, conflict, moved);
      if one.out in fs then o == Outcome(fs, if conflict == Skip then Ok(None) else Err(Taken))
      else if one.src !in fs then o == Outcome(fs, Err(OsError))
      else
        && o.r == Ok(Some(one.out)) && Traced(fs, [one], moved, o.fs)
        && Closed(o.fs) && IsFolder(o.fs, Parent(one.out))
  {
    if one.out !in fs && one.src in fs {
      if moved {
        LandsMoved(fs, one);
      } else {
        LandsCopied(fs, one);
      }
    }
  }

  /** The landings of those sources that land. */
  function Picked(places: seq<Landing>, lands: seq<bool>): seq<Landing>
    requires |lands| <= |places|
  {
    if lands == [] then [] else (if lands[0] then [places[0]] else []) + Picked(places[1..], lands[1..])
  }

  /** At its turn a source lands exactly when its place is not taken, and then it is there. */
  ghost predicate InTurn(fs: FileMap, places: seq<Landing>, moved: bool, lands: seq<bool>, k: nat)
    requires k < |lands| <= |places|
  {
    var done := Picked(places, lands[..k]);
    && (lands[k] <==> !Was(fs, done, moved, places[k].out))
    && (lands[k] ==> Was(fs, done, moved, places[k].src))
  }

  /** The answer: all the places landed on, in order; or the failure at the first place taken,
      if that is one, or at the first source that went with an earlier one. */
  ghost predicate Answers(fs: FileMap, places: seq<Landing>, moved: bool, conflict: Conflict, lands: seq<bool>,
    r: Result<seq<Path>, Problem>)
    requires |lands| <= |places|
  {
    var n, done := |lands|, Picked(places, lands);
    if n == |places| then r == Ok(Outs(done))
    else if Was(fs, done, moved, places[n].out) then conflict == FailIfExists && r == Err(Taken)
    else !Was(fs, done, moved, places[n].src) && r == Err(OsError)
  }

  /** What a request leaves that touches nothing that is there: the sources that have had
      their turn landed exactly if their place was free, and nothing else has changed. */
  ghost predicate Spares(fs: FileMap, places: seq<Landing>, moved: bool, conflict: Conflict, lands: seq<bool>,
    o: Outcome<seq<Path>>)
  {
    && |lands| <= |places| && Traced(fs, Picked(places, lands), moved, o.fs)
    && (forall k :: 0 <= k < |lands| ==> InTurn(fs, places, moved, lands, k))
    && (conflict == FailIfExists ==> forall k :: 0 <= k < |lands| ==> lands[k])
    && Answers(fs, places, moved, conflict, lands, o.r)
  }

  lemma PickedFirst(places: seq<Landing>, first: bool, lands: seq<bool>, k: nat)
    requires places != [] && |lands| < |places| && k <= |lands|
    ensures var all := [first] + lands;
      Picked(places, all[..k + 1]) == (if first then [places[0]] else []) + Picked(places[1..], lands[..k])
  {
    var all := [first] + lands;
    assert all[..k + 1][0] == first && all[..k + 1][1..] == lands[..k];
  }

  /** After a source that landed or was left alone, a later turn is as it is on its own. */
  lemma TurnLater(fs: FileMap, places: seq<Landing>, moved: bool, first: bool, mid: FileMap, lands: seq<bool>, k: nat,
    p: Path)
    requires places != [] && |lands| < |places| && k <= |lands|
    requires if first then Traced(fs, [places[0]], moved, mid) else mid == fs
    ensures Was(mid, Picked(places[1..], lands[..k]), moved, p) <==>
      Was(fs, Picked(places, ([first] + lands)[..k + 1]), moved, p)
  {
    PickedFirst(places, first, lands, k);
    if first {
      WasJoins(fs, places[0], mid, Picked(places[1..], lands[..k]), moved, p);
    } else {
      assert [] + Picked(places[1..], lands[..k]) == Picked(places[1..], lands[..k]);
    }
  }

  /** The first source landed, or was skipped. */
  ghost predicate HadItsTurn(fs: FileMap, places: seq<Landing>, moved: bool, first: bool, mid: FileMap) {
    && places != [] && (first <==> places[0].out !in fs)
    && if first then places[0].src in fs && Traced(fs, [places[0]], moved, mid) else mid == fs
  }

  lemma TurnsOneMore(fs: FileMap, places: seq<Landing>, moved: bool, first: bool, mid: FileMap, lands: seq<bool>)
    requires HadItsTurn(fs, places, moved, first, mid) && |lands| < |places|
    requires forall k :: 0 <= k < |lands| ==> InTurn(mid, places[1..], moved, lands, k)
    ensures forall k :: 0 <= k < |[first] + lands| ==> InTurn(fs, places, moved, [first] + lands, k)
  {
    var tail, all := places[1..], [first] + lands;
    assert all[..0] == [];
    forall k | 0 < k < |all|
      ensures InTurn(fs, places, moved, all, k)
    {
      assert InTurn(mid, tail, moved, lands, k - 1);
      TurnLater(fs, places, moved, first, mid, lands, k - 1, places[k].out);
      TurnLater(fs, places, moved, first, mid, lands, k - 1, places[k].src);
    }
  }

  lemma AnswersOneMore(fs: FileMap, places: seq<Landing>, moved: bool, conflict: Conflict, first: bool, mid: FileMap,
    lands: seq<bool>, o: Outcome<seq<Path>>)
    requires HadItsTurn(fs, places, moved, first, mid) && |lands| < |places|
    requires Answers(mid, places[1..], moved, conflict, lands, o.r)
    ensures Answers(fs, places, moved, conflict, [first] + lands, Prepend(if first then [places[0].out] else [], o).r)
  {
    var tail, all, n := places[1..], [first] + lands, |lands|;
    assert lands[..n] == lands && all[..n + 1] == all;
    PickedFirst(places, first, lands, n);
    if first {
      assert Outs([places[0]] + Picked(tail, lands)) == [places[0].out] + Outs(Picked(tail, lands));
    } else {
      assert [] + Picked(tail, lands) == Picked(tail, lands);
      PrependNothing(o);
    }
    if n < |tail| {
      TurnLater(fs, places, moved, first, mid, lands, n, tail[n].out);
      TurnLater(fs, places, moved, first, mid, lands, n, tail[n].src);
    }
  }

  lemma SparesOneMore(fs: FileMap, places: seq<Landing>, moved: bool, conflict: Conflict, first: bool, mid: FileMap,
    lands: seq<bool>, o: Outcome<seq<Path>>)
    requires HadItsTurn(fs, places, moved, first, mid) && (first || conflict == Skip)
    requires Spares(mid, places[1..], moved, conflict, lands, o)
    ensures Spares(fs, places, moved, conflict, [first] + lands, Prepend(if first then [places[0].out] else [], o))
  {
    var tail, all := places[1..], [first] + lands;
    assert lands[..|lands|] == lands && all[..|lands| + 1] == all;
    PickedFirst(places, first, lands, |lands|);
    if first {
      TracesJoin(fs, places[0], mid, Picked(tail, lands), moved, o.fs);
    } else {
      assert [] + Picked(tail, lands) == Picked(tail, lands);
    }
    assert Prepend(if first then [places[0].out] else [], o).fs == o.fs;
    TurnsOneMore(fs, places, moved, first, mid, lands);
    AnswersOneMore(fs, places, moved, conflict, first, mid, lands, o);
  }

  lemma SparesAtOnce(fs: FileMap, places: seq<Landing>, moved: bool, conflict: Conflict, o: Outcome<seq<Path>>)
    requires o.fs == fs
    requires if places == [] then o.r == Ok([])
      else if places[0].out in fs then conflict == FailIfExists && o.r == Err(Taken)
      else places[0].src !in fs && o.r == Err(OsError)
    ensures Spares(fs, places, moved, conflict, [], o)
  {
    assert Outs([]) == [];
  }

  /** Every request that skips or refuses what is taken, to copy or to move, of nested or
      repeated sources too. */
  lemma {:induction false} SparingLeaves(fs: FileMap, items: seq<Item>, dest: Path, conflict: Conflict, moved: bool)
    returns (lands: seq<bool>)
    requires Closed(fs) && IsFolder(fs, dest) && conflict in {Skip, FailIfExists}
    requires forall i :: 0 <= i < |items| ==> items[i].src != [] && !(items[i].src <= dest)
    ensures Spares(fs, Places(items, dest), moved, conflict, lands, Asked(fs, items, dest, conflict, moved))
    decreases |items|
  {
    var places, o := Places(items, dest), Asked(fs, items, dest, conflict, moved);
    lands := [];
    if items == [] {
      SparesAtOnce(fs, places, moved, conflict, o);
    } else {
      var one, tail := places[0], items[1..];
      assert Parent(one.out) == dest && places[1..] == Places(tail, dest);
      AskedFirst(fs, items, dest, conflict, moved);
      SparingOne(fs, one, conflict, moved);
      var mid := AskedOne(fs, one, conflict, moved);
      if mid.r.Err? {
        SparesAtOnce(fs, places, moved, conflict, o);
      } else {
        lands := SparingLeaves(mid.fs, tail, dest, conflict, moved);
        SparesOneMore(fs, places, moved, conflict, mid.r.value.Some?, mid.fs, lands,
          Asked(mid.fs, tail, dest, conflict, moved));
        lands := [mid.r.value.Some?] + lands;
      }
    }
  }

  // ---------------------------------------------------------------------
  // Which sources land, read from the request.

  /** A source lands if its place is free, counting what landed there before and, for a move,
      what has been moved away. */
  ghost predicate Lands(fs: FileMap, items: seq<Item>, dest: Path, moved: bool, k: nat)
    requires k < |items|
    decreases k
  {
    && (forall j :: 0 <= j < k && items[j].leaf == items[k].leaf ==> !Lands(fs, items, dest, moved, j))
    && (dest + [items[k].leaf] in fs ==>
         moved && exists j :: 0 <= j < k && items[j].src == dest + [items[k].leaf] && Lands(fs, items, dest, moved, j))
  }

  /** For a copy: nothing is at its place, and no earlier source has the same place. */
  lemma {:induction false} CopyLandsWhen(fs: FileMap, items: seq<Item>, dest: Path, k: nat)
    requires k < |items|
    ensures Lands(fs, items, dest, false, k) <==>
      dest + [items[k].leaf] !in fs && forall j :: 0 <= j < k ==> items[j].leaf != items[k].leaf
    decreases k
  {
    if dest + [items[k].leaf] !in fs && exists j :: 0 <= j < k && items[j].leaf == items[k].leaf {
      var j :| 0 <= j < k && items[j].leaf == items[k].leaf;
      FirstLands(fs, items, dest, j);
    }
  }

  /** Of the sources for one free place the first lands. */
  lemma {:induction false} FirstLands(fs: FileMap, items: seq<Item>, dest: Path, k: nat)
    requires k < |items| && dest + [items[k].leaf] !in fs
    ensures exists j :: 0 <= j <= k && items[j].leaf == items[k].leaf && Lands(fs, items, dest, false, j)
    decreases k
  {
    if !Lands(fs, items, dest, false, k) {
      var j :| 0 <= j < k && items[j].leaf == items[k].leaf && Lands(fs, items, dest, false, j);
    }
  }

  /** Those of the first `n` sources that land, in order. */
  ghost function Chosen(fs: FileMap, items: seq<Item>, dest: Path, moved: bool, n: nat): (some: seq<Item>)
    requires n <= |items|
    ensures forall x :: x in some ==> x in items
  {
    if n == 0 then []
    else Chosen(fs, items, dest, moved, n - 1) + (if Lands(fs, items, dest, moved, n - 1) then [items[n - 1]] else [])
  }

  /** The sources are there, and none holds the folder; for a move, none holds another. */
  ghost predicate CanStart(fs: FileMap, items: seq<Item>, dest: Path, moved: bool) {
    && Closed(fs) && IsFolder(fs, dest) && (moved ==> NoneNested(items))
    && forall i :: 0 <= i < |items| ==> items[i].src in fs && !(items[i].src <= dest)
  }

  /** What is in the folder after the first source had its turn. */
  ghost predicate FirstTurn(fs: FileMap, items: seq<Item>, dest: Path, moved: bool, mid: FileMap)
    requires items != []
  {
    var one := Places(items, dest)[0];
    forall leaf {:trigger dest + [leaf]} :: dest + [leaf] in mid <==>
      if one.out in fs then dest + [leaf] in fs
      else leaf == items[0].leaf || (dest + [leaf] in fs && !(moved && one.src == dest + [leaf]))
  }

  lemma {:induction false} LandsLater(fs: FileMap, items: seq<Item>, dest: Path, moved: bool, mid: FileMap, k: nat)
    requires CanStart(fs, items, dest, moved) && k + 1 < |items| && FirstTurn(fs, items, dest, moved, mid)
    ensures Lands(mid, items[1..], dest, moved, k) <==> Lands(fs, items, dest, moved, k + 1)
    decreases k
  {
    var tail, place, first := items[1..], dest + [items[k + 1].leaf], dest + [items[0].leaf];
    assert tail[k] == items[k + 1] && (items[k + 1].leaf == items[0].leaf <==> place == first) by {
      assert place[|dest|] == items[k + 1].leaf && first[|dest|] == items[0].leaf;
    }
    assert Lands(fs, items, dest, moved, 0) <==> first !in fs;
    forall j | 0 <= j < k
      ensures tail[j] == items[j + 1]
      ensures Lands(mid, tail, dest, moved, j) <==> Lands(fs, items, dest, moved, j + 1)
    {
      LandsLater(fs, items, dest, moved, mid, j);
    }
    if Lands(fs, items, dest, moved, k + 1) {
      LandsOnItsOwn(fs, items, dest, moved, mid, k);
    }
    if Lands(mid, tail, dest, moved, k) {
      LandsAfter(fs, items, dest, moved, mid, k);
    }
  }

  lemma LandsOnItsOwn(fs: FileMap, items: seq<Item>, dest: Path, moved: bool, mid: FileMap, k: nat)
    requires CanStart(fs, items, dest, moved) && k + 1 < |items| && FirstTurn(fs, items, dest, moved, mid)
    requires forall j :: 0 <= j < k ==>
      (Lands(mid, items[1..], dest, moved, j) <==> Lands(fs, items, dest, moved, j + 1))
    requires Lands(fs, items, dest, moved, k + 1)
    ensures Lands(mid, items[1..], dest, moved, k)
  {
    var tail, place := items[1..], dest + [items[k + 1].leaf];
    assert tail[k] == items[k + 1];
    forall j | 0 <= j < k && tail[j].leaf == tail[k].leaf
      ensures !Lands(mid, tail, dest, moved, j)
    {
      assert tail[j] == items[j + 1];
    }
    if place in mid && place in fs {
      var j :| 0 <= j < k + 1 && items[j].src == place && Lands(fs, items, dest, moved, j);
      assert j > 0 ==> tail[j - 1] == items[j] && Lands(mid, tail, dest, moved, j - 1);
    }
  }

  lemma LandsAfter(fs: FileMap, items: seq<Item>, dest: Path, moved: bool, mid: FileMap, k: nat)
    requires CanStart(fs, items, dest, moved) && k + 1 < |items| && FirstTurn(fs, items, dest, moved, mid)
    requires forall j :: 0 <= j < k ==>
      (Lands(mid, items[1..], dest, moved, j) <==> Lands(fs, items, dest, moved, j + 1))
    requires Lands(mid, items[1..], dest, moved, k)
    ensures Lands(fs, items, dest, moved, k + 1)
  {
    var tail, place := items[1..], dest + [items[k + 1].leaf];
    assert tail[k] == items[k + 1];
    if place in mid {
      var j :| 0 <= j < k && tail[j].src == place && Lands(mid, tail, dest, moved, j);
      assert items[j + 1] == tail[j] && Lands(fs, items, dest, moved, j + 1);
    }
    forall j | 0 <= j < k + 1 && items[j].leaf == items[k + 1].leaf
      ensures !Lands(fs, items, dest, moved, j)
    {
      assert j > 0 ==> tail[j - 1] == items[j];
    }
  }

  lemma ChosenOneMore(fs: FileMap, items: seq<Item>, dest: Path, moved: bool, n: nat)
    requires n < |items|
    ensures Chosen(fs, items, dest, moved, n + 1) ==
      Chosen(fs, items, dest, moved, n) + (if Lands(fs, items, dest, moved, n) then [items[n]] else [])
  {
  }

  ghost predicate LandsAlike(fs: FileMap, items: seq<Item>, dest: Path, moved: bool, mid: FileMap, k: nat)
    requires k + 1 < |items|
  {
    Lands(mid, items[1..], dest, moved, k) <==> Lands(fs, items, dest, moved, k + 1)
  }

  /** What lands after the first source lands as if it were asked for on its own. */
  ghost predicate SameLater(fs: FileMap, items: seq<Item>, dest: Path, moved: bool, mid: FileMap)
    requires items != []
  {
    forall k: nat :: k + 1 < |items| ==> LandsAlike(fs, items, dest, moved, mid, k)
  }

  lemma AllLandLater(fs: FileMap, items: seq<Item>, dest: Path, moved: bool, mid: FileMap)
    requires CanStart(fs, items, dest, moved) && items != [] && FirstTurn(fs, items, dest, moved, mid)
    ensures SameLater(fs, items, dest, moved, mid)
  {
    forall k: nat | k + 1 < |items|
      ensures LandsAlike(fs, items, dest, moved, mid, k)
    {
      LandsLater(fs, items, dest, moved, mid, k);
    }
  }

  lemma {:induction false} ChosenLater(fs: FileMap, items: seq<Item>, dest: Path, moved: bool, mid: FileMap, n: nat)
    requires n < |items| && SameLater(fs, items, dest, moved, mid)
    ensures Chosen(fs, items, dest, moved, n + 1) ==
      (if Lands(fs, items, dest, moved, 0) then [items[0]] else []) + Chosen(mid, items[1..], dest, moved, n)
  {
    var first := if Lands(fs, items, dest, moved, 0) then [items[0]] else [];
    ChosenOneMore(fs, items, dest, moved, n);
    if n > 0 {
      ChosenLater(fs, items, dest, moved, mid, n - 1);
      ChosenOneMore(mid, items[1..], dest, moved, n - 1);
      assert items[1..][n - 1] == items[n] && LandsAlike(fs, items, dest, moved, mid, n - 1);
      Grouped(first, Chosen(mid, items[1..], dest, moved, n - 1),
        if Lands(fs, items, dest, moved, n) then [items[n]] else []);
    }
  }

  lemma Grouped(a: seq<Item>, b: seq<Item>, c: seq<Item>)
    ensures (a + b) + c == a + (b + c)
  {
  }

  function PlacesOf(items: seq<Item>, dest: Path): seq<Path> {
    Outs(Places(items, dest))
  }

  lemma PlacesCons(one: Item, rest: seq<Item>, dest: Path)
    ensures PlacesOf([one] + rest, dest) == [dest + [one.leaf]] + PlacesOf(rest, dest)
  {
  }

  lemma TailStarts(fs: FileMap, items: seq<Item>, dest: Path, moved: bool)
    requires CanStart(fs, items, dest, moved) && items != []
    ensures CanStart(fs, items[1..], dest, moved)
  {
    assert forall i :: 0 <= i < |items[1..]| ==> items[1..][i] == items[i + 1];
  }

  lemma FirstIsSkipped(fs: FileMap, items: seq<Item>, dest: Path, moved: bool)
    requires items != [] && dest + [items[0].leaf] in fs && SameLater(fs, items, dest, moved, fs)
    ensures Asked(fs, items, dest, Skip, moved) == Asked(fs, items[1..], dest, Skip, moved)
    ensures Chosen(fs, items, dest, moved, |items|) == Chosen(fs, items[1..], dest, moved, |items[1..]|)
  {
    AskedFirst(fs, items, dest, Skip, moved);
    PrependNothing(Asked(fs, items[1..], dest, Skip, moved));
    ChosenLater(fs, items, dest, moved, fs, |items| - 1);
    var rest := Chosen(fs, items[1..], dest, moved, |items[1..]|);
    assert [] + rest == rest;
  }

  /** A taken place is passed over. */
  lemma TakenIsSkipped(fs: FileMap, items: seq<Item>, dest: Path, moved: bool)
    requires CanStart(fs, items, dest, moved) && items != [] && dest + [items[0].leaf] in fs
    ensures Asked(fs, items, dest, Skip, moved) == Asked(fs, items[1..], dest, Skip, moved)
    ensures Chosen(fs, items, dest, moved, |items|) == Chosen(fs, items[1..], dest, moved, |items[1..]|)
  {
    AllLandLater(fs, items, dest, moved, fs);
    FirstIsSkipped(fs, items, dest, moved);
  }

  // ---------------------------------------------------------------------
  // Copies.

  /** A free place is taken as it is: no other name is looked for. */
  lemma CopyOneLands(fs: FileMap, items: seq<Item>, dest: Path, conflict: Conflict) returns (mid: FileMap)
    requires CanStart(fs, items, dest, false) && items != [] && conflict in {Skip, FailIfExists}
    requires dest + [items[0].leaf] !in fs
    ensures mid == CopyOne(fs, items[0].src, dest + [items[0].leaf], KeepBoth).fs
    ensures var out := dest + [items[0].leaf];
      && Asked(fs, items, dest, conflict, false) == Prepend([out], Asked(mid, items[1..], dest, conflict, false))
      && CanStart(mid, items[1..], dest, false) && FirstTurn(fs, items, dest, false, mid)
      && out in mid && SameTree(fs, items[0].src, mid, out)
      && (forall p :: p in fs ==> p in mid && mid[p] == fs[p]) && (forall p :: p in mid && p !in fs ==> out <= p)
  {
    var out := dest + [items[0].leaf];
    AskedFirst(fs, items, dest, conflict, false);
    assert CopyOne(fs, items[0].src, out, conflict) == CopyOne(fs, items[0].src, out, KeepBoth);
    CopyOneKeepsBoth(fs, items[0].src, dest, items[0].leaf);
    mid := CopyOne(fs, items[0].src, out, conflict).fs;
    TailStarts(fs, items, dest, false);
    forall leaf {:trigger dest + [leaf]} | dest + [leaf] in mid && dest + [leaf] !in fs
      ensures leaf == items[0].leaf
    {
      assert out[|dest|] == items[0].leaf && (dest + [leaf])[|dest|] == leaf;
    }
  }

  /** A copy that skips: the sources whose place is free land whole at exactly that place, all
      that was there is as it was, and nothing else has appeared. */
  lemma {:induction false} CopySkips(fs: FileMap, items: seq<Item>, dest: Path)
    requires CanStart(fs, items, dest, false)
    ensures var some, o := Chosen(fs, items, dest, false, |items|), CopyItems(fs, items, dest, Skip);
      o.r == Ok(PlacesOf(some, dest)) && CopiesAdded(fs, some, dest, o.fs, PlacesOf(some, dest))
    decreases |items|
  {
    if items == [] {
    } else if dest + [items[0].leaf] in fs {
      TakenIsSkipped(fs, items, dest, false);
      TailStarts(fs, items, dest, false);
      CopySkips(fs, items[1..], dest);
    } else {
      var mid := CopyOneLands(fs, items, dest, Skip);
      CopySkips(mid, items[1..], dest);
      AllLandLater(fs, items, dest, false, mid);
      ChosenLater(fs, items, dest, false, mid, |items| - 1);
      var rest, o := Chosen(mid, items[1..], dest, false, |items| - 1), CopyItems(mid, items[1..], dest, Skip);
      PlacesCons(items[0], rest, dest);
      CopyJoins(fs, items, dest, mid, rest, o.fs);
    }
  }

  /** The first source with some of the others. */
  lemma FirstAndRest(fs: FileMap, items: seq<Item>, dest: Path, moved: bool, rest: seq<Item>)
    requires CanStart(fs, items, dest, moved) && items != [] && (moved ==> NoneNested(rest))
    requires forall x :: x in rest ==> x in items[1..]
    ensures CanStart(fs, [items[0]] + rest, dest, moved)
  {
    var some := [items[0]] + rest;
    forall i | 0 < i < |some|
      ensures some[i].src in fs && !(some[i].src <= dest)
      ensures moved ==> AreApart(some[0].src, some[i].src)
    {
      assert some[i] == rest[i - 1] && rest[i - 1] in rest;
      var j :| 0 <= j < |items[1..]| && items[1..][j] == some[i];
      assert items[j + 1] == some[i];
    }
    if moved {
      forall j, k | 0 <= j < |some| && 0 <= k < |some| && j != k
        ensures !(some[j].src <= some[k].src)
      {
        assert j > 0 && k > 0 ==> some[j] == rest[j - 1] && some[k] == rest[k - 1];
      }
    }
  }

  lemma CopyJoins(fs: FileMap, items: seq<Item>, dest: Path, mid: FileMap, rest: seq<Item>, after: FileMap)
    requires CanStart(fs, items, dest, false) && items != [] && (forall x :: x in rest ==> x in items[1..])
    requires dest + [items[0].leaf] !in fs && dest + [items[0].leaf] in mid
    requires SameTree(fs, items[0].src, mid, dest + [items[0].leaf])
    requires forall p :: p in fs ==> p in mid && mid[p] == fs[p]
    requires forall p :: p in mid && p !in fs ==> dest + [items[0].leaf] <= p
    requires CopiesAdded(mid, rest, dest, after, PlacesOf(rest, dest))
    ensures CopiesAdded(fs, [items[0]] + rest, dest, after, [dest + [items[0].leaf]] + PlacesOf(rest, dest))
  {
    var some := [items[0]] + rest;
    assert some[1..] == rest;
    FirstAndRest(fs, items, dest, false, rest);
    CopyStep(fs, some, dest, dest + [items[0].leaf], mid, after, PlacesOf(rest, dest));
  }

  // ---------------------------------------------------------------------
  // Moves.

  /** What is at or above a child of a folder, and not of the folder, is the child. */
  lemma AboveChild(dest: Path, leaf: string, p: Path)
    requires !(p <= dest)
    ensures p <= dest + [leaf] <==> p == dest + [leaf]
  {
    var child := dest + [leaf];
    assert |p| <= |dest| ==> child[..|p|] == dest[..|p|];
  }

  lemma MoveOneLandsHere(fs: FileMap, items: seq<Item>, dest: Path, conflict: Conflict) returns (mid: FileMap)
    requires CanStart(fs, items, dest, true) && items != [] && conflict in {Skip, FailIfExists}
    requires dest + [items[0].leaf] !in fs
    ensures mid == MoveOne(fs, items[0].src, dest + [items[0].leaf], KeepBoth).fs
    ensures var out := dest + [items[0].leaf];
      && Asked(fs, items, dest, conflict, true) == Prepend([out], Asked(mid, items[1..], dest, conflict, true))
      && CanStart(mid, items[1..], dest, true) && FirstTurn(fs, items, dest, true, mid)
      && out in mid && SameTree(fs, items[0].src, mid, out)
      && (forall p :: p in fs && !(items[0].src <= p) ==> p in mid && mid[p] == fs[p])
      && (forall p :: p in mid ==> !(items[0].src <= p) && (p in fs || out <= p))
  {
    var out := dest + [items[0].leaf];
    AskedFirst(fs, items, dest, conflict, true);
    assert MoveOne(fs, items[0].src, out, conflict) == MoveOne(fs, items[0].src, out, KeepBoth);
    MoveOneKeepsBoth(fs, items[0].src, dest, items[0].leaf);
    mid := MoveOne(fs, items[0].src, out, conflict).fs;
    TailStarts(fs, items, dest, true);
    forall i | 0 <= i < |items[1..]|
      ensures items[1..][i].src in mid
    {
      assert items[1..][i] == items[i + 1];
    }
    forall leaf {:trigger dest + [leaf]}
      ensures dest + [leaf] in mid && dest + [leaf] !in fs ==> leaf == items[0].leaf
      ensures items[0].src <= dest + [leaf] <==> items[0].src == dest + [leaf]
    {
      assert out[|dest|] == items[0].leaf && (dest + [leaf])[|dest|] == leaf;
      AboveChild(dest, leaf, items[0].src);
    }
  }

  /** A move that skips, of sources none of which holds another: those whose place is free at
      their turn land whole at exactly that place, and all else is as it was. */
  lemma {:induction false} MoveSkips(fs: FileMap, items: seq<Item>, dest: Path)
    requires CanStart(fs, items, dest, true)
    ensures var some, o := Chosen(fs, items, dest, true, |items|), MoveItems(fs, items, dest, Skip);
      && NoneNested(some)
      && o.r == Ok(PlacesOf(some, dest)) && TreesMoved(fs, some, dest, o.fs, PlacesOf(some, dest))
    decreases |items|
  {
    if items == [] {
    } else if dest + [items[0].leaf] in fs {
      TakenIsSkipped(fs, items, dest, true);
      TailStarts(fs, items, dest, true);
      MoveSkips(fs, items[1..], dest);
    } else {
      var mid := MoveOneLandsHere(fs, items, dest, Skip);
      MoveSkips(mid, items[1..], dest);
      AllLandLater(fs, items, dest, true, mid);
      ChosenLater(fs, items, dest, true, mid, |items| - 1);
      var rest, o := Chosen(mid, items[1..], dest, true, |items| - 1), MoveItems(mid, items[1..], dest, Skip);
      PlacesCons(items[0], rest, dest);
      MoveJoins(fs, items, dest, mid, rest, o.fs);
    }
  }

  lemma MoveJoins(fs: FileMap, items: seq<Item>, dest: Path, mid: FileMap, rest: seq<Item>, after: FileMap)
    requires CanStart(fs, items, dest, true) && items != [] && NoneNested(rest)
    requires forall x :: x in rest ==> x in items[1..]
    requires dest + [items[0].leaf] !in fs && dest + [items[0].leaf] in mid
    requires SameTree(fs, items[0].src, mid, dest + [items[0].leaf])
    requires forall p :: p in fs && !(items[0].src <= p) ==> p in mid && mid[p] == fs[p]
    requires forall p :: p in mid ==> !(items[0].src <= p) && (p in fs || dest + [items[0].leaf] <= p)
    requires TreesMoved(mid, rest, dest, after, PlacesOf(rest, dest))
    ensures NoneNested([items[0]] + rest)
    ensures TreesMoved(fs, [items[0]] + rest, dest, after, [dest + [items[0].leaf]] + PlacesOf(rest, dest))
  {
    var some := [items[0]] + rest;
    assert some[1..] == rest;
    FirstAndRest(fs, items, dest, true, rest);
    MoveStep(fs, some, dest, dest + [items[0].leaf], mid, after, PlacesOf(rest, dest));
  }

  /** What is skipped is left where it is, tree and all. */
  lemma SkippedStays(fs: FileMap, items: seq<Item>, dest: Path, k: nat)
    requires CanStart(fs, items, dest, true) && k < |items| && !Lands(fs, items, dest, true, k)
    ensures SameTree(fs, items[k].src, MoveItems(fs, items, dest, Skip).fs, items[k].src)
  {
    var some, after := Chosen(fs, items, dest, true, |items|), MoveItems(fs, items, dest, Skip).fs;
    MoveSkips(fs, items, dest);
    NotChosen(fs, items, dest, |items|, k);
    ApartStays(fs, some, dest, after, items[k].src);
  }

  lemma ApartStays(fs: FileMap, some: seq<Item>, dest: Path, after: FileMap, src: Path)
    requires TreesMoved(fs, some, dest, after, PlacesOf(some, dest)) && src in fs && !(src <= dest)
    requires forall x :: x in some ==> AreApart(x.src, src)
    ensures SameTree(fs, src, after, src)
  {
    forall r
      ensures Outside(some, src + r)
    {
      forall m | 0 <= m < |some|
        ensures !(some[m].src <= src + r)
      {
        assert some[m] in some;
        NotBelow(some[m].src, src, r);
      }
    }
    assert src + [] == src;
    forall r | src + r in after
      ensures src + r in fs
    {
      forall m | 0 <= m < |some|
        ensures !(dest + [some[m].leaf] <= src + r)
      {
        assert PlacesOf(some, dest)[m] == dest + [some[m].leaf];
        OutIsApart(Landing(some[m].src, dest + [some[m].leaf]), dest, src, r);
      }
    }
  }

  /** A source that does not land is apart from all that do. */
  lemma {:induction false} NotChosen(fs: FileMap, items: seq<Item>, dest: Path, n: nat, k: nat)
    requires CanStart(fs, items, dest, true) && n <= |items| && k < |items| && !Lands(fs, items, dest, true, k)
    ensures forall x :: x in Chosen(fs, items, dest, true, n) ==> AreApart(x.src, items[k].src)
  {
    if n > 0 {
      NotChosen(fs, items, dest, n - 1, k);
    }
  }

  // ---------------------------------------------------------------------
  // Refusing.

  lemma LandsHere(fs: FileMap, items: seq<Item>, dest: Path, conflict: Conflict, moved: bool) returns (mid: FileMap)
    requires CanStart(fs, items, dest, moved) && items != [] && conflict in {Skip, FailIfExists}
    requires dest + [items[0].leaf] !in fs
    ensures mid == AskedOne(fs, Places(items, dest)[0], KeepBoth, moved).fs
    ensures Asked(fs, items, dest, conflict, moved) ==
      Prepend([dest + [items[0].leaf]], Asked(mid, items[1..], dest, conflict, moved))
    ensures CanStart(mid, items[1..], dest, moved) && FirstTurn(fs, items, dest, moved, mid)
  {
    if moved {
      mid := MoveOneLandsHere(fs, items, dest, conflict);
    } else {
      mid := CopyOneLands(fs, items, dest, conflict);
    }
  }

  lemma FrontStarts(fs: FileMap, items: seq<Item>, dest: Path, moved: bool, n: nat)
    requires CanStart(fs, items, dest, moved) && n <= |items|
    ensures CanStart(fs, items[..n], dest, moved)
  {
    assert forall i :: 0 <= i < n ==> items[..n][i] == items[i];
  }

  lemma FirstLandsToo(fs: FileMap, items: seq<Item>, dest: Path, moved: bool, mid: FileMap, m: nat)
    requires m < |items| && SameLater(fs, items, dest, moved, mid) && Lands(fs, items, dest, moved, 0)
    requires FirstLand(mid, items[1..], dest, moved, m)
    ensures FirstLand(fs, items, dest, moved, m + 1)
    ensures m + 1 < |items| ==> (Lands(fs, items, dest, moved, m + 1) <==> Lands(mid, items[1..], dest, moved, m))
  {
    forall k | 0 < k <= m
      ensures Lands(fs, items, dest, moved, k)
    {
      assert Lands(mid, items[1..], dest, moved, k - 1) && LandsAlike(fs, items, dest, moved, mid, k - 1);
    }
    assert m + 1 < |items| ==> LandsAlike(fs, items, dest, moved, mid, m);
  }

  /** The first `n` sources land. */
  ghost predicate FirstLand(fs: FileMap, items: seq<Item>, dest: Path, moved: bool, n: nat)
    requires n <= |items|
  {
    forall k :: 0 <= k < n ==> Lands(fs, items, dest, moved, k)
  }

  lemma {:induction false} AllChosen(fs: FileMap, items: seq<Item>, dest: Path, moved: bool, n: nat)
    requires n <= |items| && FirstLand(fs, items, dest, moved, n)
    ensures Chosen(fs, items, dest, moved, n) == items[..n]
  {
    if n > 0 {
      AllChosen(fs, items, dest, moved, n - 1);
    }
  }

  /** What a turn comes to depends on the turns before it alone. */
  lemma {:induction false} LandsInPrefix(fs: FileMap, items: seq<Item>, dest: Path, moved: bool, n: nat, k: nat)
    requires k < n <= |items|
    ensures Lands(fs, items[..n], dest, moved, k) <==> Lands(fs, items, dest, moved, k)
    decreases k
  {
    forall j | 0 <= j < k
      ensures Lands(fs, items[..n], dest, moved, j) <==> Lands(fs, items, dest, moved, j)
    {
      LandsInPrefix(fs, items, dest, moved, n, j);
    }
    assert forall j :: 0 <= j <= k ==> items[..n][j] == items[j];
  }

  /** What a request that refuses comes to when the first `n` sources land. */
  ghost predicate RefusedAt(fs: FileMap, items: seq<Item>, dest: Path, moved: bool, n: nat) {
    n <= |items| && Asked(fs, items, dest, FailIfExists, moved) ==
      if n == |items| then Asked(fs, items, dest, Skip, moved)
      else Outcome(Asked(fs, items[..n], dest, Skip, moved).fs, Err(Taken))
  }

  lemma RefusedLater(fs: FileMap, items: seq<Item>, dest: Path, moved: bool, mid: FileMap, m: nat)
    requires CanStart(fs, items, dest, moved) && items != [] && dest + [items[0].leaf] !in fs
    requires mid == AskedOne(fs, Places(items, dest)[0], KeepBoth, moved).fs
    requires RefusedAt(mid, items[1..], dest, moved, m)
    ensures RefusedAt(fs, items, dest, moved, m + 1)
  {
    var front := items[..m + 1];
    assert front[1..] == items[1..][..m] && front[0] == items[0] && (m + 1 == |items| ==> front == items);
    FrontStarts(fs, items, dest, moved, m + 1);
    var refused := LandsHere(fs, items, dest, FailIfExists, moved);
    var skipped := LandsHere(fs, front, dest, Skip, moved);
  }

  /** A request that refuses is one that skips, as far as the first source that does not
      land, which it fails at. */
  lemma {:induction false} RefusesLikeSkip(fs: FileMap, items: seq<Item>, dest: Path, moved: bool) returns (n: nat)
    requires CanStart(fs, items, dest, moved)
    ensures RefusedAt(fs, items, dest, moved, n) && FirstLand(fs, items, dest, moved, n)
    ensures n < |items| ==> !Lands(fs, items, dest, moved, n)
    decreases |items|
  {
    n := 0;
    if items == [] {
    } else if dest + [items[0].leaf] in fs {
      AskedFirst(fs, items, dest, FailIfExists, moved);
      assert items[..0] == [];
    } else {
      var mid := LandsHere(fs, items, dest, FailIfExists, moved);
      var m := RefusesLikeSkip(mid, items[1..], dest, moved);
      n := m + 1;
      AllLandLater(fs, items, dest, moved, mid);
      FirstLandsToo(fs, items, dest, moved, mid, m);
      RefusedLater(fs, items, dest, moved, mid, m);
    }
  }

  // ---------------------------------------------------------------------
  // Whole requests.

  lemma RequestStarts(fs: FileMap, items: seq<Item>, dest: Path, moved: bool)
    requires Closed(fs) && Check(fs, items, dest, true).None? && (moved ==> NoneNested(items))
    requires forall i :: 0 <= i < |items| ==> items[i].src != []
    ensures CanStart(fs, items, dest, moved)
  {
    ChecksSuffice(fs, items, dest);
  }

  /** A copy past the checks that skips. A source lands exactly when nothing is at its place
      and no earlier source has it; it lands whole, at that place and no other. The answer
      lists these in order. All that was there is as it was, and nothing else has appeared. */
  lemma SkippingCopyPromise(fs: FileMap, items: seq<Item>, dest: Path)
    requires Closed(fs) && Check(fs, items, dest, true).None?
    requires forall i :: 0 <= i < |items| ==> items[i].src != []
    ensures var some, o := Chosen(fs, items, dest, false, |items|), CopyItems(fs, items, dest, Skip);
      o.r == Ok(PlacesOf(some, dest)) && CopiesAdded(fs, some, dest, o.fs, PlacesOf(some, dest))
    ensures forall k :: 0 <= k < |items| ==> (Lands(fs, items, dest, false, k) <==>
      dest + [items[k].leaf] !in fs && forall j :: 0 <= j < k ==> items[j].leaf != items[k].leaf)
  {
    RequestStarts(fs, items, dest, false);
    CopySkips(fs, items, dest);
    forall k | 0 <= k < |items|
      ensures Lands(fs, items, dest, false, k) <==>
        dest + [items[k].leaf] !in fs && forall j :: 0 <= j < k ==> items[j].leaf != items[k].leaf
    {
      CopyLandsWhen(fs, items, dest, k);
    }
  }

  /** A move past the checks that skips, of sources none of which holds another: those whose
      place is free at their turn land whole at that place, the others are left where they
      are, and all else is as it was. */
  lemma SkippingMovePromise(fs: FileMap, items: seq<Item>, dest: Path)
    requires Closed(fs) && Check(fs, items, dest, true).None? && NoneNested(items)
    requires forall i :: 0 <= i < |items| ==> items[i].src != []
    ensures var some, o := Chosen(fs, items, dest, true, |items|), MoveItems(fs, items, dest, Skip);
      && o.r == Ok(PlacesOf(some, dest)) && TreesMoved(fs, some, dest, o.fs, PlacesOf(some, dest))
      && forall k :: 0 <= k < |items| && !Lands(fs, items, dest, true, k) ==>
           SameTree(fs, items[k].src, o.fs, items[k].src)
  {
    RequestStarts(fs, items, dest, true);
    MoveSkips(fs, items, dest);
    forall k | 0 <= k < |items| && !Lands(fs, items, dest, true, k)
      ensures SameTree(fs, items[k].src, MoveItems(fs, items, dest, Skip).fs, items[k].src)
    {
      SkippedStays(fs, items, dest, k);
    }
  }

  /** A request past the checks that refuses what is taken: the sources before the first whose
      place is taken at its turn have landed whole, at exactly their places, that one fails,
      and all else is as it was. For a move, of sources none of which holds another. */
  lemma RefusingPromise(fs: FileMap, items: seq<Item>, dest: Path, moved: bool) returns (n: nat)
    requires Closed(fs) && Check(fs, items, dest, true).None? && (moved ==> NoneNested(items))
    requires forall i :: 0 <= i < |items| ==> items[i].src != []
    ensures n <= |items| && FirstLand(fs, items, dest, moved, n)
    ensures n < |items| ==> !Lands(fs, items, dest, moved, n)
    ensures var o, outs := Asked(fs, items, dest, FailIfExists, moved), PlacesOf(items[..n], dest);
      && o.r == (if n == |items| then Ok(outs) else Err(Taken))
      && if moved then TreesMoved(fs, items[..n], dest, o.fs, outs) else CopiesAdded(fs, items[..n], dest, o.fs, outs)
  {
    RequestStarts(fs, items, dest, moved);
    n := RefusesLikeSkip(fs, items, dest, moved);
    var front := items[..n];
    FrontStarts(fs, items, dest, moved, n);
    forall k | 0 <= k < n
      ensures Lands(fs, front, dest, moved, k)
    {
      LandsInPrefix(fs, items, dest, moved, n, k);
    }
    AllChosen(fs, front, dest, moved, n);
    assert front[..n] == front && (n == |items| ==> front == items);
    if moved {
      MoveSkips(fs, front, dest);
    } else {
      CopySkips(fs, front, dest);
    }
  }

  /** Any request past the checks that skips or refuses, of nested or repeated sources too:
      at its turn each lands if its place is free and is else left alone, and the request
      stops only at a place taken, where that is refused, or at a source that went with an
      earlier one. */
  lemma SparingPromise(fs: FileMap, items: seq<Item>, dest: Path, conflict: Conflict, moved: bool)
    returns (lands: seq<bool>)
    requires Closed(fs) && Check(fs, items, dest, true).None? && conflict in {Skip, FailIfExists}
    requires forall i :: 0 <= i < |items| ==> items[i].src != []
    ensures Spares(fs, Places(items, dest), moved, conflict, lands, Asked(fs, items, dest, conflict, moved))
  {
    ChecksSuffice(fs, items, dest);
    lands := SparingLeaves(fs, items, dest, conflict, moved);
  }
}
