/**
 What a whole request of copies or moves leaves behind (files-app/backend.py:1588-1701),
 traced path by path: where the content of each path was at the start.
 */
module FileTraces {
  import opened Sequences
  import opened Wrappers
  import opened FileTree
  import opened FileOps
  import opened FileOpsPromises

  /** A source and where it landed. */
  datatype Landing = Landing(src: Path, out: Path)

  /** Where the content of a path was before one landing. A move leaves nothing behind. */
  function Back(one: Landing, moved: bool, p: Path): Option<Path> {
    if one.out <= p then Some(one.src + p[|one.out|..])
    else if moved && one.src <= p then None
    else Some(p)
  }

  function Origin(done: seq<Landing>, moved: bool, p: Path): Option<Path> {
    if done == [] then Some(p)
    else
      var q :- Origin(done[1..], moved, p);
      Back(done[0], moved, q)
  }

  ghost predicate Was(fs: FileMap, done: seq<Landing>, moved: bool, p: Path) {
    Origin(done, moved, p).Some? && Origin(done, moved, p).value in fs
  }

  /** Every path holds what its origin held, and nothing else is there. */
  ghost predicate Traced(fs: FileMap, done: seq<Landing>, moved: bool, after: FileMap) {
    forall p :: (p in after <==> Was(fs, done, moved, p))
      && (p in after ==> after[p] == fs[Origin(done, moved, p).value])
  }

  function Outs(done: seq<Landing>): (outs: seq<Path>)
    ensures |outs| == |done| && forall k :: 0 <= k < |done| ==> outs[k] == done[k].out
  {
    seq(|done|, k requires 0 <= k < |done| => done[k].out)
  }

  ghost predicate AreApart(p: Path, q: Path) {
    !(p <= q) && !(q <= p)
  }

  lemma CopyLands(fs: FileMap, one: Landing)
    requires AreApart(one.src, one.out)
    ensures Traced(fs, [one], false, CopyTree(RemoveTree(fs, one.out), one.src, one.out))
  {
    var cleared := RemoveTree(fs, one.out);
    forall p
      ensures Origin([one], false, p) == Back(one, false, p)
      ensures one.out <= p ==> (one.src + p[|one.out|..] in cleared <==> one.src + p[|one.out|..] in fs)
      ensures p in Targets(cleared, one.src, one.out) <==> one.out <= p && one.src + p[|one.out|..] in cleared
    {
      TargetsAre(cleared, one.src, one.out, p);
      if one.out <= p {
        NotBelow(one.out, one.src, p[|one.out|..]);
      }
    }
  }

  lemma MoveLands(fs: FileMap, one: Landing)
    requires AreApart(one.src, one.out)
    ensures Traced(fs, [one], true, RenameTree(RemoveTree(fs, one.out), one.src, one.out))
  {
    CopyLands(fs, one);
    forall p
      ensures Origin([one], true, p) == Back(one, true, p) && Origin([one], false, p) == Back(one, false, p)
      ensures one.out <= p ==> !(one.src <= p)
    {
      if one.out <= p {
        assert p == one.out + p[|one.out|..];
        NotBelow(one.src, one.out, p[|one.out|..]);
      }
    }
  }

  lemma TracesJoin(fs: FileMap, one: Landing, mid: FileMap, rest: seq<Landing>, moved: bool, after: FileMap)
    requires Traced(fs, [one], moved, mid) && Traced(mid, rest, moved, after)
    ensures Traced(fs, [one] + rest, moved, after)
  {
    forall p
      ensures Was(mid, rest, moved, p) <==> Was(fs, [one] + rest, moved, p)
      ensures Was(mid, rest, moved, p) ==>
        mid[Origin(rest, moved, p).value] == fs[Origin([one] + rest, moved, p).value]
    {
      WasJoins(fs, one, mid, rest, moved, p);
    }
  }

  lemma WasJoins(fs: FileMap, one: Landing, mid: FileMap, rest: seq<Landing>, moved: bool, p: Path)
    requires Traced(fs, [one], moved, mid)
    ensures Was(mid, rest, moved, p) <==> Was(fs, [one] + rest, moved, p)
    ensures Was(mid, rest, moved, p) ==>
      mid[Origin(rest, moved, p).value] == fs[Origin([one] + rest, moved, p).value]
  {
    assert ([one] + rest)[1..] == rest && [one][1..] == [];
    if Origin(rest, moved, p).Some? {
      var q := Origin(rest, moved, p).value;
      assert Origin([one], moved, q) == Back(one, moved, q) == Origin([one] + rest, moved, p);
      assert q in mid <==> Was(fs, [one], moved, q);
    }
  }

  /** A path that nothing landed on or above keeps its content, unless it was moved away. */
  lemma {:induction false} Untouched(done: seq<Landing>, moved: bool, p: Path)
    requires forall m :: 0 <= m < |done| ==> !(done[m].out <= p)
    ensures Origin(done, moved, p) ==
      if moved && exists m :: 0 <= m < |done| && done[m].src <= p then None else Some(p)
  {
    if done != [] {
      var rest := done[1..];
      assert forall m :: 0 <= m < |rest| ==> rest[m] == done[m + 1];
      Untouched(rest, moved, p);
      if moved && exists m :: 0 <= m < |done| && done[m].src <= p {
        var m :| 0 <= m < |done| && done[m].src <= p;
        assert m > 0 ==> rest[m - 1].src <= p;
      }
    }
  }

  /** What came last is undone first. */
  lemma {:induction false} OriginSplits(a: seq<Landing>, b: seq<Landing>, moved: bool, p: Path)
    ensures Origin(a + b, moved, p) ==
      if Origin(b, moved, p).None? then None else Origin(a, moved, Origin(b, moved, p).value)
  {
    if a == [] {
      assert a + b == b;
    } else {
      assert (a + b)[1..] == a[1..] + b;
      OriginSplits(a[1..], b, moved, p);
    }
  }

  // ---------------------------------------------------------------------
  // Replacing.

  /** With `replace` every source lands under its own name. */
  function Places(items: seq<Item>, dest: Path): (places: seq<Landing>)
    ensures |places| == |items|
    ensures forall k :: 0 <= k < |items| ==> places[k] == Landing(items[k].src, dest + [items[k].leaf])
  {
    seq(|items|, k requires 0 <= k < |items| => Landing(items[k].src, dest + [items[k].leaf]))
  }

  function Replacing(fs: FileMap, items: seq<Item>, dest: Path, moved: bool): Outcome<seq<Path>> {
    if moved then MoveItems(fs, items, dest, Replace) else CopyItems(fs, items, dest, Replace)
  }

  /** At its turn a source is there and what is removed for it does not hold it. */
  ghost predicate ReadyAt(fs: FileMap, places: seq<Landing>, moved: bool, k: nat)
    requires k < |places|
  {
    !(places[k].out <= places[k].src) && Was(fs, places[..k], moved, places[k].src)
  }

  lemma ReadyLater(fs: FileMap, places: seq<Landing>, moved: bool, mid: FileMap, k: nat)
    requires k + 1 < |places| && Traced(fs, places[..1], moved, mid)
    ensures ReadyAt(mid, places[1..], moved, k) <==> ReadyAt(fs, places, moved, k + 1)
  {
    assert places[..1] == [places[0]] && places[..k + 1] == [places[0]] + places[1..][..k];
    WasJoins(fs, places[0], mid, places[1..][..k], moved, places[k + 1].src);
  }

  function ReplaceOne(fs: FileMap, one: Landing, moved: bool): Outcome<Option<Path>>
    requires one.out != []
  {
    if moved then MoveOne(fs, one.src, one.out, Replace) else CopyOne(fs, one.src, one.out, Replace)
  }

  lemma ReplaceOneLands(fs: FileMap, one: Landing, moved: bool)
    requires one.out != [] && !(one.src <= Parent(one.out))
    ensures if one.src in fs && !(one.out <= one.src)
      then var o := ReplaceOne(fs, one, moved); o.r == Ok(Some(one.out)) && Traced(fs, [one], moved, o.fs)
      else ReplaceOne(fs, one, moved) == Outcome(RemoveTree(fs, one.out), Err(OsError))
  {
    assert one.src <= one.out ==> one.src == one.out;
    if one.src in fs && !(one.out <= one.src) {
      CopyLands(fs, one);
      MoveLands(fs, one);
    }
  }

  lemma ReplacingFirst(fs: FileMap, items: seq<Item>, dest: Path, moved: bool)
    requires items != []
    ensures var one := ReplaceOne(fs, Places(items, dest)[0], moved);
      Replacing(fs, items, dest, moved) ==
      if one.r.Err? then Outcome(one.fs, Err(one.r.error))
      else Prepend(Listed(one.r.value), Replacing(one.fs, items[1..], dest, moved))
  {
  }

  /** What a request with `replace` leaves: the sources before the first that is not ready
      have landed; for that one the place has been emptied and the request fails. */
  ghost predicate Leaves(fs: FileMap, places: seq<Landing>, moved: bool, o: Outcome<seq<Path>>, n: nat, mid: FileMap) {
    && n <= |places| && Traced(fs, places[..n], moved, mid)
    && (forall k :: 0 <= k < n ==> ReadyAt(fs, places, moved, k))
    && if n == |places| then o == Outcome(mid, Ok(Outs(places)))
       else !ReadyAt(fs, places, moved, n) && o == Outcome(RemoveTree(mid, places[n].out), Err(OsError))
  }

  lemma LeavesLonger(fs: FileMap, places: seq<Landing>, moved: bool, first: FileMap,
    o: Outcome<seq<Path>>, n: nat, mid: FileMap)
    requires places != [] && ReadyAt(fs, places, moved, 0) && Traced(fs, places[..1], moved, first)
    requires Leaves(first, places[1..], moved, o, n, mid)
    ensures Leaves(fs, places, moved, Prepend([places[0].out], o), n + 1, mid)
  {
    var one, tail := places[0], places[1..];
    assert places[..1] == [one] && places[..n + 1] == [one] + tail[..n];
    TracesJoin(fs, one, first, tail[..n], moved, mid);
    forall k | 0 < k <= n && k < |places|
      ensures ReadyAt(first, tail, moved, k - 1) <==> ReadyAt(fs, places, moved, k)
    {
      ReadyLater(fs, places, moved, first, k - 1);
    }
    assert Outs(places) == [one.out] + Outs(tail);
  }

  lemma LeavesAtOnce(fs: FileMap, places: seq<Landing>, moved: bool, o: Outcome<seq<Path>>)
    requires if places == [] then o == Outcome(fs, Ok([]))
      else !ReadyAt(fs, places, moved, 0) && o == Outcome(RemoveTree(fs, places[0].out), Err(OsError))
    ensures Leaves(fs, places, moved, o, 0, fs)
  {
    assert places[..0] == [] && Outs([]) == [];
  }

  lemma ReplacingStops(fs: FileMap, items: seq<Item>, dest: Path, moved: bool)
    requires forall k :: 0 <= k < |items| ==> !(items[k].src <= dest)
    requires items == [] || !ReadyAt(fs, Places(items, dest), moved, 0)
    ensures Leaves(fs, Places(items, dest), moved, Replacing(fs, items, dest, moved), 0, fs)
  {
    var places := Places(items, dest);
    if items != [] {
      assert Parent(places[0].out) == dest && places[..0] == [];
      ReplacingFirst(fs, items, dest, moved);
      ReplaceOneLands(fs, places[0], moved);
    }
    LeavesAtOnce(fs, places, moved, Replacing(fs, items, dest, moved));
  }

  lemma {:induction false} ReplacingLeaves(fs: FileMap, items: seq<Item>, dest: Path, moved: bool)
    returns (n: nat, mid: FileMap)
    requires forall k :: 0 <= k < |items| ==> !(items[k].src <= dest)
    ensures Leaves(fs, Places(items, dest), moved, Replacing(fs, items, dest, moved), n, mid)
    decreases |items|
  {
    var places := Places(items, dest);
    if items == [] || !ReadyAt(fs, places, moved, 0) {
      n, mid := 0, fs;
      ReplacingStops(fs, items, dest, moved);
    } else {
      var one, tail := places[0], items[1..];
      assert Parent(one.out) == dest && places[..0] == [] && places[..1] == [one] && places[1..] == Places(tail, dest);
      ReplaceOneLands(fs, one, moved);
      var first := ReplaceOne(fs, one, moved).fs;
      n, mid := ReplacingLeaves(first, tail, dest, moved);
      LeavesLonger(fs, places, moved, first, Replacing(first, tail, dest, moved), n, mid);
      n := n + 1;
      ReplacingFirst(fs, items, dest, moved);
    }
  }

  /** Each source ends whole at a place of its own. */
  ghost predicate Faithful(fs: FileMap, places: seq<Landing>, o: Outcome<seq<Path>>) {
    && o.r == Ok(Outs(places)) && Distinct(Outs(places))
    && forall k :: 0 <= k < |places| ==> SameTree(fs, places[k].src, o.fs, places[k].out)
  }

  /** Everything lands in one folder, which no source holds. */
  ghost predicate LandIn(places: seq<Landing>, dest: Path) {
    forall k :: 0 <= k < |places| ==>
      places[k].out != [] && Parent(places[k].out) == dest && !(places[k].src <= dest)
  }

  lemma OutIsApart(one: Landing, dest: Path, p: Path, r: Path)
    requires one.out != [] && Parent(one.out) == dest && !(p <= dest)
    ensures one.out <= p + r <==> one.out <= p
  {
    if |p| < |one.out| {
      assert one.out[..|p|] == dest[..|p|] != p == (p + r)[..|p|];
      assert |one.out| <= |p + r| ==> (p + r)[..|one.out|][..|p|] == p;
    } else {
      assert (p + r)[..|one.out|] == p[..|one.out|];
    }
  }

  /** A copied tree comes from one tree. */
  lemma {:induction false} OriginBelow(done: seq<Landing>, dest: Path, p: Path, r: Path)
    requires LandIn(done, dest) && !(p <= dest)
    ensures Origin(done, false, p).Some? && !(Origin(done, false, p).value <= dest)
    ensures Origin(done, false, p + r) == Some(Origin(done, false, p).value + r)
  {
    if done != [] {
      var one, rest := done[0], done[1..];
      assert forall m :: 0 <= m < |rest| ==> rest[m] == done[m + 1];
      OriginBelow(rest, dest, p, r);
      var q := Origin(rest, false, p).value;
      OutIsApart(one, dest, q, r);
      if one.out <= q {
        assert (q + r)[|one.out|..] == q[|one.out|..] + r;
        assert one.src + (q[|one.out|..] + r) == one.src + q[|one.out|..] + r;
        assert (one.src + q[|one.out|..])[..|one.src|] == one.src;
      }
    }
  }

  /** What lands at different places is left alone by what lands after it. */
  lemma LaterApart(places: seq<Landing>, dest: Path, k: nat, r: Path)
    requires LandIn(places, dest) && Distinct(Outs(places)) && k < |places|
    ensures forall m :: k < m < |places| ==> !(places[m].out <= places[k].out + r)
  {
    forall m | k < m < |places|
      ensures !(places[m].out <= places[k].out + r)
    {
      assert Outs(places)[k] != Outs(places)[m];
      SiblingsApart(places[m].out, places[k].out, r);
    }
  }

  lemma OneBack(one: Landing, moved: bool, r: Path)
    ensures Origin([one], moved, one.out + r) == Some(one.src + r)
  {
    assert [one][1..] == [] && (one.out + r)[|one.out|..] == r;
  }

  /** What is at a place was at its source at its turn, unless it was moved away later. */
  lemma OriginOfPlace(places: seq<Landing>, dest: Path, moved: bool, k: nat, r: Path)
    requires LandIn(places, dest) && Distinct(Outs(places)) && k < |places|
    ensures Origin(places, moved, places[k].out + r) ==
      if Origin(places[k + 1..], moved, places[k].out + r).None? then None
      else Origin(places[..k], moved, places[k].src + r)
    ensures Origin(places[k + 1..], moved, places[k].out + r) ==
      if moved && exists m :: k < m < |places| && places[m].src <= places[k].out + r then None
      else Some(places[k].out + r)
  {
    var p, upto, later := places[k].out + r, places[..k + 1], places[k + 1..];
    LaterApart(places, dest, k, r);
    LaterUntouched(places, moved, k, p);
    assert places == upto + later && upto == places[..k] + [places[k]];
    OriginSplits(upto, later, moved, p);
    OriginSplits(places[..k], [places[k]], moved, p);
    OneBack(places[k], moved, r);
  }

  lemma LaterUntouched(places: seq<Landing>, moved: bool, k: nat, p: Path)
    requires k < |places| && forall m :: k < m < |places| ==> !(places[m].out <= p)
    ensures Origin(places[k + 1..], moved, p) ==
      if moved && exists m :: k < m < |places| && places[m].src <= p then None else Some(p)
  {
    var later := places[k + 1..];
    assert forall m :: 0 <= m < |later| ==> later[m] == places[k + 1 + m];
    Untouched(later, moved, p);
    if moved && exists m :: k < m < |places| && places[m].src <= p {
      var m :| k < m < |places| && places[m].src <= p;
      assert later[m - k - 1].src <= p;
    }
  }

  /** Where the tree that a copy finds at its source was at the start. */
  function ReadFrom(places: seq<Landing>, k: nat): Path
    requires k < |places|
  {
    var origin := Origin(places[..k], false, places[k].src);
    if origin.Some? then origin.value else places[k].src
  }

  lemma CopiedTree(fs: FileMap, places: seq<Landing>, dest: Path, after: FileMap, k: nat)
    requires LandIn(places, dest) && Distinct(Outs(places)) && k < |places| && Traced(fs, places, false, after)
    ensures SameTree(fs, places[k].src, after, places[k].out) <==> SameTree(fs, places[k].src, fs, ReadFrom(places, k))
    ensures Origin(places[..k], false, places[k].src) == Some(ReadFrom(places, k))
  {
    var out, origin := places[k].out, ReadFrom(places, k);
    OriginBelow(places[..k], dest, places[k].src, []);
    forall r
      ensures out + r in after <==> origin + r in fs
      ensures out + r in after ==> after[out + r] == fs[origin + r]
    {
      OriginOfPlace(places, dest, false, k, r);
      OriginBelow(places[..k], dest, places[k].src, r);
      assert out + r in after <==> Was(fs, places, false, out + r);
    }
  }

  /** No source is at or below the place of an earlier one, or of its own. */
  ghost predicate Clear(places: seq<Landing>) {
    forall j, k :: 0 <= j <= k < |places| ==> !(places[j].out <= places[k].src)
  }

  lemma RequestLands(fs: FileMap, items: seq<Item>, dest: Path)
    requires Closed(fs) && Check(fs, items, dest, true).None?
    requires forall i :: 0 <= i < |items| ==> items[i].src != []
    ensures forall i :: 0 <= i < |items| ==> items[i].src in fs && !(items[i].src <= dest)
    ensures LandIn(Places(items, dest), dest)
  {
    ChecksSuffice(fs, items, dest);
    forall k | 0 <= k < |items|
      ensures Parent(Places(items, dest)[k].out) == dest
    {
    }
  }

  /** The tree that a copy finds at a source is like the one that was there at the start. */
  ghost predicate ReadsItsOwn(fs: FileMap, places: seq<Landing>, k: nat)
    requires k < |places|
  {
    !(places[k].out <= places[k].src) && SameTree(fs, places[k].src, fs, ReadFrom(places, k))
  }

  lemma ReadIsThere(fs: FileMap, places: seq<Landing>, dest: Path, k: nat)
    requires LandIn(places, dest) && k < |places| && places[k].src in fs && ReadsItsOwn(fs, places, k)
    ensures ReadyAt(fs, places, false, k)
  {
    OriginBelow(places[..k], dest, places[k].src, []);
    assert places[k].src + [] == places[k].src;
    assert ReadFrom(places, k) + [] == ReadFrom(places, k);
  }

  lemma CopyFaithfulWhen(fs: FileMap, places: seq<Landing>, dest: Path, o: Outcome<seq<Path>>, n: nat, mid: FileMap)
    requires LandIn(places, dest) && Distinct(Outs(places)) && Leaves(fs, places, false, o, n, mid)
    requires forall k :: 0 <= k < |places| ==> places[k].src in fs
    ensures Faithful(fs, places, o) <==> forall k :: 0 <= k < |places| ==> ReadsItsOwn(fs, places, k)
  {
    if n < |places| {
      if ReadsItsOwn(fs, places, n) {
        ReadIsThere(fs, places, dest, n);
      }
    } else {
      assert places[..n] == places;
      forall k | 0 <= k < |places|
        ensures SameTree(fs, places[k].src, mid, places[k].out) <==> ReadsItsOwn(fs, places, k)
      {
        assert ReadyAt(fs, places, false, k);
        CopiedTree(fs, places, dest, mid, k);
      }
    }
  }

  /** A copy that replaces is faithful exactly when its places differ, no place is at or
      above its own source, and each source holds what the tree that is read for it held:
      a source under the place of an earlier one is read from there. */
  lemma CopyReplacesWhen(fs: FileMap, items: seq<Item>, dest: Path)
    requires Closed(fs) && Check(fs, items, dest, true).None?
    requires forall i :: 0 <= i < |items| ==> items[i].src != []
    ensures var places := Places(items, dest);
      Faithful(fs, places, CopyItems(fs, items, dest, Replace)) <==>
        Distinct(Outs(places)) && forall k :: 0 <= k < |places| ==> ReadsItsOwn(fs, places, k)
  {
    var places := Places(items, dest);
    RequestLands(fs, items, dest);
    var n, mid := ReplacingLeaves(fs, items, dest, false);
    if Distinct(Outs(places)) {
      CopyFaithfulWhen(fs, places, dest, CopyItems(fs, items, dest, Replace), n, mid);
    }
  }

  /** So it is faithful whenever the places differ and no source is at or below the place
      of an earlier one, or of its own. */
  lemma ClearCopyReplaces(fs: FileMap, items: seq<Item>, dest: Path)
    requires Closed(fs) && Check(fs, items, dest, true).None?
    requires forall i :: 0 <= i < |items| ==> items[i].src != []
    requires Distinct(Outs(Places(items, dest))) && Clear(Places(items, dest))
    ensures Faithful(fs, Places(items, dest), CopyItems(fs, items, dest, Replace))
  {
    var places := Places(items, dest);
    forall k | 0 <= k < |places|
      ensures ReadsItsOwn(fs, places, k)
    {
      Untouched(places[..k], false, places[k].src);
    }
    CopyReplacesWhen(fs, items, dest);
  }

  // ---------------------------------------------------------------------
  // Moves that replace.

  /** A source that no earlier place or source holds, and that holds no earlier source. */
  ghost predicate OnItsOwn(places: seq<Landing>, k: nat)
    requires k < |places|
  {
    && (forall j :: 0 <= j < k ==> !(places[j].out <= places[k].src))
    && (forall i :: 0 <= i < k ==> AreApart(places[i].src, places[k].src))
  }

  /** Nothing below such a source has been moved or written over before its turn. */
  lemma OwnIsUntouched(places: seq<Landing>, dest: Path, k: nat, r: Path)
    requires LandIn(places, dest) && k < |places| && OnItsOwn(places, k)
    ensures Origin(places[..k], true, places[k].src + r) == Some(places[k].src + r)
  {
    forall j | 0 <= j < k
      ensures !(places[j].out <= places[k].src + r) && !(places[j].src <= places[k].src + r)
    {
      OutIsApart(places[j], dest, places[k].src, r);
      NotBelow(places[j].src, places[k].src, r);
    }
    Untouched(places[..k], true, places[k].src + r);
  }

  lemma NotAbovePlace(one: Landing, dest: Path, p: Path)
    requires one.out != [] && Parent(one.out) == dest && !(p <= dest) && !(one.out <= p)
    ensures !(p <= one.out)
  {
    assert one.out == dest + [Leaf(one.out)];
    if |p| <= |dest| {
      assert one.out[..|p|] == dest[..|p|];
    }
  }

  lemma MovedTree(fs: FileMap, places: seq<Landing>, dest: Path, after: FileMap, k: nat)
    requires LandIn(places, dest) && Distinct(Outs(places)) && k < |places| && Traced(fs, places, true, after)
    requires OnItsOwn(places, k) && forall m :: k < m < |places| ==> !(places[k].out <= places[m].src)
    ensures SameTree(fs, places[k].src, after, places[k].out)
  {
    forall r
      ensures Origin(places, true, places[k].out + r) == Some(places[k].src + r)
    {
      forall m | k < m < |places|
        ensures !(places[m].src <= places[k].out + r)
      {
        NotAbovePlace(places[k], dest, places[m].src);
        NotBelow(places[m].src, places[k].out, r);
      }
      OriginOfPlace(places, dest, true, k, r);
      OwnIsUntouched(places, dest, k, r);
    }
    forall r
      ensures places[k].out + r in after <==> places[k].src + r in fs
      ensures places[k].out + r in after ==> after[places[k].out + r] == fs[places[k].src + r]
    {
      assert places[k].out + r in after <==> Was(fs, places, true, places[k].out + r);
    }
  }

  /** A source under an earlier place takes away part of what landed there. */
  lemma NoPlaceAbove(fs: FileMap, places: seq<Landing>, dest: Path, after: FileMap, j: nat, k: nat)
    requires LandIn(places, dest) && Distinct(Outs(places)) && j < k < |places| && Traced(fs, places, true, after)
    requires OnItsOwn(places, j) && ReadyAt(fs, places, true, k)
    requires SameTree(fs, places[j].src, after, places[j].out)
    ensures !(places[j].out <= places[k].src)
  {
    if places[j].out <= places[k].src {
      var r, front := places[k].src[|places[j].out|..], places[..k];
      assert places[k].src == places[j].out + r && front[j] == places[j] && front[..j] == places[..j];
      assert forall m :: 0 <= m < k ==> Outs(front)[m] == Outs(places)[m];
      OriginOfPlace(front, dest, true, j, r);
      OwnIsUntouched(places, dest, j, r);
      assert places[j].src + r in fs;
      OriginOfPlace(places, dest, true, j, r);
    }
  }

  lemma NoSourceNested(fs: FileMap, places: seq<Landing>, dest: Path, after: FileMap, i: nat, k: nat)
    requires LandIn(places, dest) && Distinct(Outs(places)) && i < k < |places| && Traced(fs, places, true, after)
    requires ReadyAt(fs, places, true, k) && places[i].src in fs
    requires forall j :: 0 <= j < k ==> !(places[j].out <= places[k].src)
    requires SameTree(fs, places[k].src, after, places[k].out)
    ensures AreApart(places[i].src, places[k].src)
  {
    var front := places[..k];
    assert front[i] == places[i];
    Untouched(front, true, places[k].src);
    if places[k].src <= places[i].src {
      var r := places[i].src[|places[k].src|..];
      assert places[i].src == places[k].src + r;
      forall j | 0 <= j < k
        ensures !(front[j].out <= places[k].src + r)
      {
        OutIsApart(places[j], dest, places[k].src, r);
      }
      Untouched(front, true, places[k].src + r);
      assert places[k].out + r in after <==> Was(fs, places, true, places[k].out + r);
      OriginOfPlace(places, dest, true, k, r);
    }
  }

  /** The sources are on their own, and no place is at or above its own source. */
  ghost predicate AllOnTheirOwn(places: seq<Landing>, n: nat)
    requires n <= |places|
  {
    forall k :: 0 <= k < n ==> OnItsOwn(places, k) && !(places[k].out <= places[k].src)
  }

  lemma FaithfulMoveIsClear(fs: FileMap, places: seq<Landing>, dest: Path, o: Outcome<seq<Path>>, mid: FileMap)
    requires LandIn(places, dest) && Faithful(fs, places, o) && Leaves(fs, places, true, o, |places|, mid)
    requires forall k :: 0 <= k < |places| ==> places[k].src in fs
    ensures AllOnTheirOwn(places, |places|)
  {
    assert places[..|places|] == places;
    for k := 0 to |places|
      invariant AllOnTheirOwn(places, k)
    {
      assert ReadyAt(fs, places, true, k);
      forall j | 0 <= j < k
        ensures !(places[j].out <= places[k].src)
      {
        NoPlaceAbove(fs, places, dest, mid, j, k);
      }
      forall i | 0 <= i < k
        ensures AreApart(places[i].src, places[k].src)
      {
        NoSourceNested(fs, places, dest, mid, i, k);
      }
    }
  }

  lemma ClearMoveIsFaithful(fs: FileMap, places: seq<Landing>, dest: Path, o: Outcome<seq<Path>>, n: nat, mid: FileMap)
    requires LandIn(places, dest) && Distinct(Outs(places)) && AllOnTheirOwn(places, |places|)
    requires forall k :: 0 <= k < |places| ==> places[k].src in fs
    requires Leaves(fs, places, true, o, n, mid)
    ensures Faithful(fs, places, o)
  {
    if n < |places| {
      assert OnItsOwn(places, n);
      assert places[n].src + [] == places[n].src;
      OwnIsUntouched(places, dest, n, []);
    } else {
      assert places[..n] == places;
      forall k | 0 <= k < |places|
        ensures SameTree(fs, places[k].src, mid, places[k].out)
      {
        assert OnItsOwn(places, k) && forall m :: k < m < |places| ==> OnItsOwn(places, m);
        MovedTree(fs, places, dest, mid, k);
      }
    }
  }

  /** A move that replaces is faithful exactly when its places differ, none of its sources
      holds another, and none is at or below the place of an earlier one, or of its own. */
  lemma MoveReplacesWhen(fs: FileMap, items: seq<Item>, dest: Path)
    requires Closed(fs) && Check(fs, items, dest, true).None?
    requires forall i :: 0 <= i < |items| ==> items[i].src != []
    ensures var places := Places(items, dest);
      Faithful(fs, places, MoveItems(fs, items, dest, Replace)) <==>
        Distinct(Outs(places)) && NoneNested(items) && Clear(places)
  {
    var places, o := Places(items, dest), MoveItems(fs, items, dest, Replace);
    RequestLands(fs, items, dest);
    var n, mid := ReplacingLeaves(fs, items, dest, true);
    OnTheirOwnWhen(items, dest);
    if Faithful(fs, places, o) {
      FaithfulMoveIsClear(fs, places, dest, o, mid);
    }
    if Distinct(Outs(places)) && AllOnTheirOwn(places, |places|) {
      ClearMoveIsFaithful(fs, places, dest, o, n, mid);
    }
  }

  lemma OnTheirOwnWhen(items: seq<Item>, dest: Path)
    ensures AllOnTheirOwn(Places(items, dest), |items|) <==> NoneNested(items) && Clear(Places(items, dest))
  {
    var places := Places(items, dest);
    if AllOnTheirOwn(places, |items|) {
      forall j, k | 0 <= j < |items| && 0 <= k < |items| && j != k
        ensures !(items[j].src <= items[k].src)
      {
        assert OnItsOwn(places, if j < k then k else j);
      }
      forall j, k | 0 <= j <= k < |places|
        ensures !(places[j].out <= places[k].src)
      {
        assert OnItsOwn(places, k);
      }
    }
  }

  /** What lies under no place, and for a move under no source, is as it was. */
  lemma RestIsAsItWas(fs: FileMap, items: seq<Item>, dest: Path, moved: bool, p: Path)
    requires forall k :: 0 <= k < |items| ==> !(items[k].src <= dest) && !(dest + [items[k].leaf] <= p)
    requires moved ==> Outside(items, p)
    ensures var after := Replacing(fs, items, dest, moved).fs;
      (p in after <==> p in fs) && (p in fs ==> after[p] == fs[p])
  {
    var places := Places(items, dest);
    var n, mid := ReplacingLeaves(fs, items, dest, moved);
    Untouched(places[..n], moved, p);
    assert p in mid <==> Was(fs, places[..n], moved, p);
  }

  // ---------------------------------------------------------------------
  // Moves that keep both, of sources nested or repeated too.

  /** Where what was at a path is after one landing of a move. */
  function Forth(one: Landing, p: Path): Path {
    if one.src <= p then one.out + p[|one.src|..] else p
  }

  function Now(done: seq<Landing>, p: Path): Path {
    if done == [] then p else Now(done[1..], Forth(done[0], p))
  }

  /** What was anywhere at the start is in exactly one place now. */
  ghost predicate Conserved(fs: FileMap, done: seq<Landing>, after: FileMap) {
    && (forall p :: p in fs ==> Now(done, p) in after && Origin(done, true, Now(done, p)) == Some(p))
    && (forall q :: q in after ==> Was(fs, done, true, q) && Now(done, Origin(done, true, q).value) == q)
  }

  lemma OneIsBack(one: Landing, p: Path)
    ensures Origin([one], true, p) == Back(one, true, p) && Now([one], p) == Forth(one, p)
  {
    assert [one][1..] == [];
  }

  lemma ForthAndBack(one: Landing, p: Path)
    requires !(one.out <= p)
    ensures Back(one, true, Forth(one, p)) == Some(p)
  {
    if one.src <= p {
      assert (one.out + p[|one.src|..])[|one.out|..] == p[|one.src|..];
      assert one.src + p[|one.src|..] == p;
    }
  }

  lemma BackAndForth(one: Landing, q: Path)
    requires Back(one, true, q).Some?
    ensures Forth(one, Back(one, true, q).value) == q
  {
    if one.out <= q {
      assert (one.src + q[|one.out|..])[|one.src|..] == q[|one.out|..];
      assert one.out + q[|one.out|..] == q;
    }
  }

  lemma MoveConserves(fs: FileMap, one: Landing, after: FileMap)
    requires Free(fs, one.out) && Traced(fs, [one], true, after)
    ensures Conserved(fs, [one], after)
  {
    forall p | p in fs
      ensures Now([one], p) in after && Origin([one], true, Now([one], p)) == Some(p)
    {
      OneIsBack(one, p);
      OneIsBack(one, Forth(one, p));
      ForthAndBack(one, p);
      assert Was(fs, [one], true, Forth(one, p));
    }
    forall q | q in after
      ensures Was(fs, [one], true, q) && Now([one], Origin([one], true, q).value) == q
    {
      OneIsBack(one, q);
      BackAndForth(one, q);
      OneIsBack(one, Back(one, true, q).value);
    }
  }

  lemma ConservedJoins(fs: FileMap, one: Landing, mid: FileMap, rest: seq<Landing>, after: FileMap)
    requires Traced(fs, [one], true, mid) && Conserved(fs, [one], mid) && Conserved(mid, rest, after)
    ensures Conserved(fs, [one] + rest, after)
  {
    var done := [one] + rest;
    assert done[1..] == rest && [one][1..] == [];
    forall p
      ensures Now(done, p) == Now(rest, Forth(one, p)) && Now([one], p) == Forth(one, p)
      ensures Origin([one], true, p) == Back(one, true, p)
    {
    }
    forall q | q in after
      ensures Was(fs, done, true, q) && Now(done, Origin(done, true, q).value) == q
    {
      WasJoins(fs, one, mid, rest, true, q);
    }
  }

  lemma {:induction false} NotMoved(done: seq<Landing>, p: Path)
    requires forall i :: 0 <= i < |done| ==> !(done[i].src <= p)
    ensures Now(done, p) == p
  {
    if done != [] {
      assert forall i :: 0 <= i < |done[1..]| ==> done[1..][i] == done[i + 1];
      NotMoved(done[1..], p);
    }
  }

  /** Every landing was of a source still there, at a place that did not hold it. */
  ghost predicate AllReady(fs: FileMap, done: seq<Landing>) {
    forall k :: 0 <= k < |done| ==> ReadyAt(fs, done, true, k)
  }

  lemma ReadyOneMore(fs: FileMap, one: Landing, mid: FileMap, rest: seq<Landing>)
    requires one.src in fs && AreApart(one.src, one.out) && Traced(fs, [one], true, mid) && AllReady(mid, rest)
    ensures AllReady(fs, [one] + rest)
  {
    var done := [one] + rest;
    assert done[..0] == [] && done[..1] == [one] && done[1..] == rest;
    forall k | 0 <= k < |done|
      ensures ReadyAt(fs, done, true, k)
    {
      if k > 0 {
        assert ReadyAt(mid, rest, true, k - 1);
        ReadyLater(fs, done, true, mid, k - 1);
      }
    }
  }

  /** The first sources, each landed in the folder. */
  ghost predicate Landed(items: seq<Item>, dest: Path, done: seq<Landing>) {
    && |done| <= |items|
    && forall k :: 0 <= k < |done| ==>
         done[k].src == items[k].src && done[k].out != [] && Parent(done[k].out) == dest
  }

  /** All the places, or the failure at the first source that was not there at its turn. */
  ghost predicate Answered(fs: FileMap, items: seq<Item>, done: seq<Landing>, r: Result<seq<Path>, Problem>)
    requires |done| <= |items|
  {
    if |done| == |items| then r == Ok(Outs(done))
    else !Was(fs, done, true, items[|done|].src) && r == Err(OsError)
  }

  /** What a keep-both move leaves: the sources moved, and if not all, the failure. */
  ghost predicate MovedUpTo(fs: FileMap, items: seq<Item>, dest: Path, o: Outcome<seq<Path>>, done: seq<Landing>) {
    && Landed(items, dest, done) && AllReady(fs, done)
    && Traced(fs, done, true, o.fs) && Conserved(fs, done, o.fs)
    && Answered(fs, items, done, o.r)
  }

  lemma AnsweredOneMore(fs: FileMap, items: seq<Item>, one: Landing, mid: FileMap, o: Outcome<seq<Path>>,
    rest: seq<Landing>)
    requires items != [] && |rest| < |items| && Answered(mid, items[1..], rest, o.r)
    requires Traced(fs, [one], true, mid)
    ensures Answered(fs, items, [one] + rest, Prepend([one.out], o).r)
  {
    var done := [one] + rest;
    if |done| == |items| {
      assert Outs(done) == [one.out] + Outs(rest);
    } else {
      assert items[|done|] == items[1..][|rest|];
      WasJoins(fs, one, mid, rest, true, items[|done|].src);
    }
  }

  lemma LandedOneMore(items: seq<Item>, dest: Path, one: Landing, rest: seq<Landing>)
    requires items != [] && one.src == items[0].src && one.out != [] && Parent(one.out) == dest
    requires Landed(items[1..], dest, rest)
    ensures Landed(items, dest, [one] + rest)
  {
    assert forall k :: 0 <= k < |rest| ==> items[1..][k] == items[k + 1];
  }

  lemma MovedOneMore(fs: FileMap, items: seq<Item>, dest: Path, one: Landing, mid: FileMap, o: Outcome<seq<Path>>,
    rest: seq<Landing>, done: seq<Landing>)
    requires items != [] && one.src == items[0].src && one.out != [] && Parent(one.out) == dest
    requires one.src in fs && AreApart(one.src, one.out) && done == [one] + rest
    requires Traced(fs, [one], true, mid) && Conserved(fs, [one], mid) && MovedUpTo(mid, items[1..], dest, o, rest)
    ensures MovedUpTo(fs, items, dest, Prepend([one.out], o), done)
  {
    assert Prepend([one.out], o).fs == o.fs;
    LandedOneMore(items, dest, one, rest);
    ReadyOneMore(fs, one, mid, rest);
    TracesJoin(fs, one, mid, rest, true, o.fs);
    ConservedJoins(fs, one, mid, rest, o.fs);
    AnsweredOneMore(fs, items, one, mid, o, rest);
  }

  /** Each was given the first name free at its turn. */
  ghost predicate NamedInTurn(fs: FileMap, items: seq<Item>, dest: Path, done: seq<Landing>) {
    && |done| <= |items|
    && forall k :: 0 <= k < |done| ==> IsNamed(TakenNow(fs, done, k), dest, items[k].leaf, done[k].out)
  }

  ghost function TakenNow(fs: FileMap, done: seq<Landing>, k: nat): iset<Path>
    requires k <= |done|
  {
    iset p: Path | Was(fs, done[..k], true, p)
  }

  lemma NamedOneMore(fs: FileMap, items: seq<Item>, dest: Path, one: Landing, mid: FileMap, rest: seq<Landing>)
    requires items != [] && Traced(fs, [one], true, mid) && NamedInTurn(mid, items[1..], dest, rest)
    requires IsNamed(There(fs), dest, items[0].leaf, one.out)
    ensures NamedInTurn(fs, items, dest, [one] + rest)
  {
    var done := [one] + rest;
    forall k | 0 <= k < |done|
      ensures IsNamed(TakenNow(fs, done, k), dest, items[k].leaf, done[k].out)
    {
      if k == 0 {
        assert done[..0] == [];
        NamedAlike(There(fs), TakenNow(fs, done, 0), dest, items[0].leaf, one.out);
      } else {
        assert done[..k] == [one] + rest[..k - 1] && items[k] == items[1..][k - 1];
        forall p: Path
          ensures p in TakenNow(mid, rest, k - 1) <==> p in TakenNow(fs, done, k)
        {
          WasJoins(fs, one, mid, rest[..k - 1], true, p);
        }
        NamedAlike(TakenNow(mid, rest, k - 1), TakenNow(fs, done, k), dest, items[k].leaf, rest[k - 1].out);
      }
    }
  }

  lemma MoveToFree(fs: FileMap, one: Landing)
    requires Closed(fs) && one.out !in fs && AreApart(one.src, one.out)
    ensures Traced(fs, [one], true, RenameTree(fs, one.src, one.out))
    ensures Conserved(fs, [one], RenameTree(fs, one.src, one.out))
  {
    AbsentIsFree(fs, one.out);
    assert RemoveTree(fs, one.out) == fs;
    MoveLands(fs, one);
    MoveConserves(fs, one, RenameTree(fs, one.src, one.out));
  }

  lemma MoveOneLands(fs: FileMap, item: Item, dest: Path) returns (one: Landing)
    requires Closed(fs) && IsFolder(fs, dest) && item.src in fs && !(item.src <= dest)
    ensures one.src == item.src && one.out != [] && Parent(one.out) == dest && AreApart(one.src, one.out)
    ensures IsNamed(There(fs), dest, item.leaf, one.out)
    ensures var o := MoveOne(fs, item.src, dest + [item.leaf], KeepBoth);
      && o.r == Ok(Some(one.out)) && Closed(o.fs) && IsFolder(o.fs, dest)
      && Traced(fs, [one], true, o.fs) && Conserved(fs, [one], o.fs)
  {
    var o := MoveOne(fs, item.src, dest + [item.leaf], KeepBoth);
    MoveOneKeepsBoth(fs, item.src, dest, item.leaf);
    one := Landing(item.src, o.r.value.value);
    assert o.fs == RenameTree(fs, one.src, one.out);
    UniqueIsNamed(fs, dest, item.leaf);
    MoveToFree(fs, one);
  }

  lemma MoveItemsFirst(fs: FileMap, items: seq<Item>, dest: Path)
    requires items != []
    ensures var one := MoveOne(fs, items[0].src, dest + [items[0].leaf], KeepBoth);
      MoveItems(fs, items, dest, KeepBoth) ==
      if one.r.Err? then Outcome(one.fs, Err(one.r.error))
      else Prepend(Listed(one.r.value), MoveItems(one.fs, items[1..], dest, KeepBoth))
  {
  }

  lemma MoveStops(fs: FileMap, items: seq<Item>, dest: Path)
    requires items == [] || items[0].src !in fs
    ensures MovedUpTo(fs, items, dest, MoveItems(fs, items, dest, KeepBoth), [])
  {
    if items == [] {
      assert Outs([]) == [];
    }
  }

  lemma {:induction false} MoveLeaves(fs: FileMap, items: seq<Item>, dest: Path) returns (done: seq<Landing>)
    requires Closed(fs) && IsFolder(fs, dest) && forall i :: 0 <= i < |items| ==> !(items[i].src <= dest)
    ensures MovedUpTo(fs, items, dest, MoveItems(fs, items, dest, KeepBoth), done)
    ensures NamedInTurn(fs, items, dest, done)
    decreases |items|
  {
    if items == [] || items[0].src !in fs {
      done := [];
      MoveStops(fs, items, dest);
    } else {
      var tail, mid := items[1..], MoveOne(fs, items[0].src, dest + [items[0].leaf], KeepBoth).fs;
      var one := MoveOneLands(fs, items[0], dest);
      assert forall i :: 0 <= i < |tail| ==> tail[i] == items[i + 1];
      var rest := MoveLeaves(mid, tail, dest);
      done := [one] + rest;
      MovedOneMore(fs, items, dest, one, mid, MoveItems(mid, tail, dest, KeepBoth), rest, done);
      NamedOneMore(fs, items, dest, one, mid, rest);
      MoveItemsFirst(fs, items, dest);
    }
  }

  /** A keep-both move past the checks, whatever its sources: nothing is lost or written
      over, and it stops early only at a source that was moved away with an earlier one. */
  lemma MoveOutcome(fs: FileMap, items: seq<Item>, dest: Path) returns (done: seq<Landing>)
    requires Closed(fs) && Check(fs, items, dest, true).None?
    requires forall i :: 0 <= i < |items| ==> items[i].src != []
    ensures MovedUpTo(fs, items, dest, MoveItems(fs, items, dest, KeepBoth), done)
    ensures NamedInTurn(fs, items, dest, done)
    ensures |done| < |items| ==> exists i :: 0 <= i < |done| && items[i].src <= items[|done|].src
  {
    ChecksSuffice(fs, items, dest);
    done := MoveLeaves(fs, items, dest);
    if |done| < |items| && forall i :: 0 <= i < |done| ==> !(items[i].src <= items[|done|].src) {
      assert forall i :: 0 <= i < |done| ==> done[i].src == items[i].src;
      NotMoved(done, items[|done|].src);
    }
  }

  /** It goes through where no source is at or below an earlier one. */
  lemma MoveGoesThrough(fs: FileMap, items: seq<Item>, dest: Path) returns (done: seq<Landing>)
    requires Closed(fs) && Check(fs, items, dest, true).None?
    requires forall i :: 0 <= i < |items| ==> items[i].src != []
    requires forall i, k :: 0 <= i < k < |items| ==> !(items[i].src <= items[k].src)
    ensures |done| == |items| && MovedUpTo(fs, items, dest, MoveItems(fs, items, dest, KeepBoth), done)
  {
    done := MoveOutcome(fs, items, dest);
  }

  /** Each source ends whole at a place of its own. */
  ghost predicate EndsWhole(fs: FileMap, items: seq<Item>, o: Outcome<seq<Path>>) {
    && o.r.Ok? && |o.r.value| == |items| && Distinct(o.r.value)
    && forall k :: 0 <= k < |items| ==> SameTree(fs, items[k].src, o.fs, o.r.value[k])
  }

  lemma WholeMoveIsUnnested(fs: FileMap, items: seq<Item>, dest: Path, o: Outcome<seq<Path>>, done: seq<Landing>)
    requires MovedUpTo(fs, items, dest, o, done) && EndsWhole(fs, items, o)
    requires forall i :: 0 <= i < |items| ==> items[i].src in fs && !(items[i].src <= dest)
    ensures NoneNested(items)
  {
    assert done[..|done|] == done;
    FaithfulMoveIsClear(fs, done, dest, o, o.fs);
    forall j, k | 0 <= j < |items| && 0 <= k < |items| && j != k
      ensures !(items[j].src <= items[k].src)
    {
      assert OnItsOwn(done, if j < k then k else j);
    }
  }

  /** A keep-both move past the checks leaves every source whole at a place of its own
      exactly when no source holds another or is there twice. */
  lemma MoveKeepsWholeWhen(fs: FileMap, items: seq<Item>, dest: Path)
    requires Closed(fs) && Check(fs, items, dest, true).None?
    requires forall i :: 0 <= i < |items| ==> items[i].src != []
    ensures EndsWhole(fs, items, MoveItems(fs, items, dest, KeepBoth)) <==> NoneNested(items)
  {
    var o := MoveItems(fs, items, dest, KeepBoth);
    ChecksSuffice(fs, items, dest);
    if EndsWhole(fs, items, o) {
      var done := MoveOutcome(fs, items, dest);
      WholeMoveIsUnnested(fs, items, dest, o, done);
    }
    if NoneNested(items) {
      MovePromise(fs, items, dest);
    }
  }

  // ---------------------------------------------------------------------
  // Requests that pass the checks and lose content.

  function Two(a: Path, b: Path): seq<Item>
    requires a != [] && b != []
  {
    [Item(a, Leaf(a)), Item(b, Leaf(b))]
  }

  lemma TwoPass(fs: FileMap, a: Path, b: Path, dest: Path)
    requires a in fs && b in fs && a != [] && b != [] && !fs[a].Link? && !fs[b].Link?
    requires IsFolder(fs, dest) && !(a <= dest) && !(b <= dest)
    ensures Check(fs, Two(a, b), dest, true).None?
  {
    var items := Two(a, b);
    assert items[1..][1..] == [] && CheckSources(fs, items[1..], dest) == None;
  }

  lemma FileIsLowest(fs: FileMap, p: Path, q: Path)
    requires Closed(fs) && p in fs && !fs[p].Folder? && q in fs && p != q
    ensures !(p <= q)
  {
    if p <= q {
      AncestorsExist(fs, p, q);
    }
  }

  lemma TwoPlaces(a: Path, b: Path, dest: Path)
    requires a != [] && b != []
    ensures var places := Places(Two(a, b), dest);
      && places == [Landing(a, dest + [Leaf(a)]), Landing(b, dest + [Leaf(b)])]
      && places[..0] == [] && places[..1] == [places[0]] && places[1..] == [places[1]] && places[1..][1..] == []
  {
  }

  lemma NothingFromFirst(places: seq<Landing>, p: Path)
    requires |places| == 2 && places[0].out == places[1].out && AreApart(places[1].src, places[1].out)
    ensures Origin(places, true, p) != Some(places[0].src)
  {
    var out := places[1].out;
    assert places[1..] == [places[1]] && places[1..][1..] == [];
    if out <= p {
      assert p == out + p[|out|..];
      OneBack(places[1], true, p[|out|..]);
      NotBelow(out, places[1].src, p[|out|..]);
    }
  }

  lemma TwoAreReady(fs: FileMap, places: seq<Landing>)
    requires |places| == 2 && places[0].src in fs && places[1].src in fs && !(places[0].src <= places[1].src)
    requires !(places[0].out <= places[0].src) && !(places[0].out <= places[1].src) && !(places[1].out <= places[1].src)
    ensures ReadyAt(fs, places, true, 0) && ReadyAt(fs, places, true, 1)
  {
    assert places[..0] == [] && places[..1] == [places[0]];
    Untouched(places[..1], true, places[1].src);
  }

  /** Two files of one name moved into one folder: the request succeeds, and what the
      first held, if no other file held it, is nowhere. */
  lemma SameNameLoses(fs: FileMap, a: Path, b: Path, dest: Path)
    requires Closed(fs) && a in fs && b in fs && IsFolder(fs, dest)
    requires a != [] && b != [] && a != b && fs[a].File? && fs[b].File? && Leaf(a) == Leaf(b)
    requires !(dest + [Leaf(a)] <= a) && !(dest + [Leaf(a)] <= b)
    requires forall p :: p in fs && fs[p] == fs[a] ==> p == a
    ensures Check(fs, Two(a, b), dest, true).None?
    ensures var o := MoveItems(fs, Two(a, b), dest, Replace);
      o.r.Ok? && forall p :: p in o.fs ==> o.fs[p] != fs[a]
  {
    var items, places, out := Two(a, b), Places(Two(a, b), dest), dest + [Leaf(a)];
    FileIsLowest(fs, a, dest);
    FileIsLowest(fs, b, dest);
    FileIsLowest(fs, a, b);
    TwoPass(fs, a, b, dest);
    TwoPlaces(a, b, dest);
    assert b <= out ==> b == out;
    TwoAreReady(fs, places);
    var n, mid := ReplacingLeaves(fs, items, dest, true);
    assert n == |items| && places[..n] == places;
    forall p | p in mid
      ensures mid[p] != fs[a]
    {
      assert Was(fs, places, true, p);
      NothingFromFirst(places, p);
    }
  }

  /** A source under the place of an earlier one is removed before its turn. */
  lemma UnderPlaceLoses(fs: FileMap, a: Path, b: Path, dest: Path)
    requires Closed(fs) && a in fs && b in fs && IsFolder(fs, dest)
    requires a != [] && b != [] && fs[a].File? && fs[b].File?
    requires !(dest + [Leaf(a)] <= a) && dest + [Leaf(a)] < b
    requires forall p :: p in fs && fs[p] == fs[b] ==> p == b
    ensures Check(fs, Two(a, b), dest, true).None?
    ensures var o := MoveItems(fs, Two(a, b), dest, Replace);
      o.r.Err? && forall p :: p in o.fs ==> o.fs[p] != fs[b]
  {
    var items, places, out := Two(a, b), Places(Two(a, b), dest), dest + [Leaf(a)];
    FileIsLowest(fs, a, dest);
    FileIsLowest(fs, b, dest);
    TwoPass(fs, a, b, dest);
    TwoPlaces(a, b, dest);
    var n, mid := ReplacingLeaves(fs, items, dest, true);
    var below := a + b[|out|..];
    if below in fs {
      FileIsLowest(fs, a, below);
    }
    assert Origin(places[..1], true, b) == Back(places[0], true, b) == Some(below);
    assert ReadyAt(fs, places, true, 0) && !ReadyAt(fs, places, true, 1);
    forall p | p in mid
      ensures Origin(places[..1], true, p) != Some(b)
    {
    }
  }

  lemma AbsentStops(fs: FileMap, item: Item, dest: Path)
    requires item.src !in fs
    ensures MoveItems(fs, [item], dest, KeepBoth) == Outcome(fs, Err(OsError))
  {
    assert MoveOne(fs, item.src, dest + [item.leaf], KeepBoth) == Outcome(fs, Err(OsError));
    MoveItemsFirst(fs, [item], dest);
  }

  lemma NestedPass(fs: FileMap, a: Path, b: Path, dest: Path)
    requires Closed(fs) && IsFolder(fs, a) && b in fs && !fs[b].Link? && IsFolder(fs, dest)
    requires a != [] && a < b && !(a <= dest)
    ensures Check(fs, Two(a, b), dest, true).None? && Check(fs, Two(b, a), dest, true).None?
  {
    assert b <= dest ==> a <= dest;
    TwoPass(fs, a, b, dest);
    TwoPass(fs, b, a, dest);
  }

  /** A folder and something in it, moved in this order with both kept: the folder goes,
      and then the request fails, with the folder whole at its new place. */
  lemma HolderFirstStops(fs: FileMap, a: Path, b: Path, dest: Path) returns (out: Path)
    requires Closed(fs) && IsFolder(fs, a) && b in fs && !fs[b].Link? && IsFolder(fs, dest)
    requires a != [] && a < b && !(a <= dest)
    ensures Check(fs, Two(a, b), dest, true).None?
    ensures var o := MoveItems(fs, Two(a, b), dest, KeepBoth);
      o.r == Err(OsError) && a !in o.fs && b !in o.fs && SameTree(fs, a, o.fs, out)
  {
    NestedPass(fs, a, b, dest);
    MoveOneKeepsBoth(fs, a, dest, Leaf(a));
    var one := MoveOne(fs, a, dest + [Leaf(a)], KeepBoth);
    out := one.r.value.value;
    assert Two(a, b)[1..] == [Item(b, Leaf(b))];
    MoveItemsFirst(fs, Two(a, b), dest);
    AbsentStops(one.fs, Item(b, Leaf(b)), dest);
  }

  /** After a landing that took something out of a folder, the folder lands without it. */
  lemma HoleIsMoved(fs: FileMap, done: seq<Landing>, after: FileMap, r: Path)
    requires |done| == 2 && AllReady(fs, done) && Traced(fs, done, true, after)
    requires done[0].src == done[1].src + r && done[1].src in fs
    ensures done[1].out + r !in after && (r != [] ==> done[1].out in after)
  {
    var out, a := done[1].out, done[1].src;
    assert ReadyAt(fs, done, true, 0) && ReadyAt(fs, done, true, 1);
    assert done == done[..1] + [done[1]] && done[..1] == [done[0]] && [done[0]][1..] == [];
    OriginSplits(done[..1], [done[1]], true, out + r);
    OneBack(done[1], true, r);
    assert Origin(done[..1], true, a + r) == Back(done[0], true, a + r);
    OriginSplits(done[..1], [done[1]], true, out);
    OneBack(done[1], true, []);
    assert out + [] == out && a + [] == a;
    assert out + r in after <==> Was(fs, done, true, out + r);
    assert out in after <==> Was(fs, done, true, out);
  }

  lemma HeldThenHolder(fs: FileMap, items: seq<Item>, dest: Path, r: Path)
    requires Closed(fs) && |items| == 2 && items[1].src != [] && r != [] && items[0].src == items[1].src + r
    requires Check(fs, items, dest, true).None?
    ensures var o := MoveItems(fs, items, dest, KeepBoth);
      o.r.Ok? && |o.r.value| == 2 && o.r.value[1] in o.fs && o.r.value[1] + r !in o.fs
  {
    var done := MoveGoesThrough(fs, items, dest);
    ChecksSuffice(fs, items, dest);
    HoleIsMoved(fs, done, MoveItems(fs, items, dest, KeepBoth).fs, r);
  }

  /** In the other order the request succeeds, and what was in the folder is not in it. */
  lemma HeldFirstLeavesHole(fs: FileMap, a: Path, b: Path, dest: Path)
    requires Closed(fs) && IsFolder(fs, a) && b in fs && !fs[b].Link? && IsFolder(fs, dest)
    requires a != [] && a < b && !(a <= dest)
    ensures Check(fs, Two(b, a), dest, true).None?
    ensures var o := MoveItems(fs, Two(b, a), dest, KeepBoth);
      o.r.Ok? && |o.r.value| == 2 && o.r.value[1] in o.fs && o.r.value[1] + b[|a|..] !in o.fs
  {
    NestedPass(fs, a, b, dest);
    assert b == a + b[|a|..];
    HeldThenHolder(fs, Two(b, a), dest, b[|a|..]);
  }
}
