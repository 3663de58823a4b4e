/**
 Matching the ids of two paks by what the resources hold, and the swap that goes by it
 (ci/pak-swap-resources.py:83-213). Both lists are dictionaries: ids once each, in
 the order they were read.
 */
module ContentMap {
  import opened Wrappers
  import opened Pak
  import opened PakTools

  /** The ids holding these bytes, in order. */
  function Hits(target: seq<Resource>, blob: Bytes): seq<nat> {
    if target == [] then [] else
    var last := target[|target| - 1];
    Hits(target[..|target| - 1], blob) + (if last.blob == blob then [last.id] else [])
  }

  /** The donors whose bytes the target holds exactly once, and where. */
  function Matched(target: seq<Resource>, donor: seq<Resource>): map<nat, nat> {
    if donor == [] then map[] else
    var last := donor[|donor| - 1];
    var rest := Matched(target, donor[..|donor| - 1]);
    var hits := Hits(target, last.blob);
    if |hits| == 1 then rest[last.id := hits[0]] else rest
  }

  function Shift(from: nat, to: nat): int {
    (to as int) - (from as int)
  }

  /** The matches that agree on one shift. */
  function Agreeing(matched: map<nat, nat>, shift: int): set<nat> {
    set r | r in matched && Shift(r, matched[r]) == shift
  }

  /** How many matches agree on each shift, for the shifts seen, in the order they were
      first seen. */
  ghost predicate Tallies(deltas: map<int, nat>, order: seq<int>, matched: map<nat, nat>) {
    && (forall i :: 0 <= i < |order| ==> order[i] in deltas)
    && (forall k :: k in deltas ==> k in order)
    && (forall i, j :: 0 <= i < j < |order| ==> order[i] != order[j])
    && (forall k :: k in deltas ==> deltas[k] == |Agreeing(matched, k)| && deltas[k] > 0)
    && (forall r :: r in matched ==> Shift(r, matched[r]) in deltas)
  }

  function Total(deltas: map<int, nat>, order: seq<int>): nat
    requires forall i :: 0 <= i < |order| ==> order[i] in deltas
  {
    if order == [] then 0 else Total(deltas, order[..|order| - 1]) + deltas[order[|order| - 1]]
  }

  lemma {:induction false} TotalUnmoved(deltas: map<int, nat>, order: seq<int>, k: int, n: nat)
    requires (forall i :: 0 <= i < |order| ==> order[i] in deltas) && k !in order
    ensures Total(deltas[k := n], order) == Total(deltas, order)
  {
    if order != [] {
      assert order[|order| - 1] in order;
      TotalUnmoved(deltas, order[..|order| - 1], k, n);
    }
  }

  lemma {:induction false} TotalBumped(deltas: map<int, nat>, order: seq<int>, k: int)
    requires (forall i :: 0 <= i < |order| ==> order[i] in deltas) && k in order && k in deltas
    requires forall i, j :: 0 <= i < j < |order| ==> order[i] != order[j]
    ensures Total(deltas[k := deltas[k] + 1], order) == Total(deltas, order) + 1
  {
    var front, last := order[..|order| - 1], order[|order| - 1];
    if last == k {
      TotalUnmoved(deltas, front, k, deltas[k] + 1);
    } else {
      assert k in front;
      TotalBumped(deltas, front, k);
    }
  }

  /** One more match: its shift's tally goes up by one and no other moves. */
  lemma OneMoreAgrees(matched: map<nat, nat>, r: nat, hit: nat, shift: int)
    requires r !in matched
    ensures |Agreeing(matched[r := hit], shift)| ==
      |Agreeing(matched, shift)| + (if Shift(r, hit) == shift then 1 else 0)
  {
    var before, after := Agreeing(matched, shift), Agreeing(matched[r := hit], shift);
    if Shift(r, hit) == shift {
      assert after == before + {r};
    } else {
      assert after == before;
    }
  }

  lemma NoneAgrees(matched: map<nat, nat>, shift: int)
    requires forall r :: r in matched ==> Shift(r, matched[r]) != shift
    ensures Agreeing(matched, shift) == {}
  {
  }

  /** The tallies after one more match on a shift. */
  function Bumped(deltas: map<int, nat>, shift: int): map<int, nat> {
    deltas[shift := (if shift in deltas then deltas[shift] else 0) + 1]
  }

  function Noted(deltas: map<int, nat>, order: seq<int>, shift: int): seq<int> {
    if shift in deltas then order else order + [shift]
  }

  lemma BumpedTotal(deltas: map<int, nat>, order: seq<int>, shift: int)
    requires forall i :: 0 <= i < |order| ==> order[i] in deltas
    requires shift in deltas ==> shift in order
    requires forall i, j :: 0 <= i < j < |order| ==> order[i] != order[j]
    ensures var d, o := Bumped(deltas, shift), Noted(deltas, order, shift);
      (forall i :: 0 <= i < |o| ==> o[i] in d) && Total(d, o) == Total(deltas, order) + 1
  {
    if shift in deltas {
      TotalBumped(deltas, order, shift);
    } else {
      TotalUnmoved(deltas, order, shift, 1);
      var noted := order + [shift];
      assert noted[..|noted| - 1] == order && noted[|noted| - 1] == shift;
    }
  }

  lemma BumpedTallies(deltas: map<int, nat>, order: seq<int>, matched: map<nat, nat>, r: nat, hit: nat)
    requires Tallies(deltas, order, matched) && r !in matched
    ensures Tallies(Bumped(deltas, Shift(r, hit)), Noted(deltas, order, Shift(r, hit)), matched[r := hit])
  {
    var shift := Shift(r, hit);
    var d, o := Bumped(deltas, shift), Noted(deltas, order, shift);
    forall k | k in d
      ensures d[k] == |Agreeing(matched[r := hit], k)|
    {
      OneMoreAgrees(matched, r, hit, k);
      if k !in deltas {
        NoneAgrees(matched, k);
      }
    }
    assert forall i :: 0 <= i < |order| ==> order[i] in order;
    assert forall k :: k in order ==> k in o;
    assert shift in deltas || o[|order|] == shift;
  }

  /** The tallies are right and add up to the number of matches. */
  ghost predicate Counted(deltas: map<int, nat>, order: seq<int>, matched: map<nat, nat>) {
    Tallies(deltas, order, matched) && Total(deltas, order) == |matched|
  }

  lemma BumpedCounts(deltas: map<int, nat>, order: seq<int>, matched: map<nat, nat>, r: nat, hit: nat)
    requires Counted(deltas, order, matched) && r !in matched
    ensures Counted(Bumped(deltas, Shift(r, hit)), Noted(deltas, order, Shift(r, hit)), matched[r := hit])
  {
    BumpedTotal(deltas, order, Shift(r, hit));
    BumpedTallies(deltas, order, matched, r, hit);
  }

  function Found(byBytes: map<Bytes, seq<nat>>, blob: Bytes): seq<nat> {
    if blob in byBytes then byBytes[blob] else []
  }

  ghost predicate Groups(byBytes: map<Bytes, seq<nat>>, target: seq<Resource>) {
    forall blob :: Found(byBytes, blob) == Hits(target, blob)
  }

  lemma GroupsStep(byBytes: map<Bytes, seq<nat>>, front: seq<Resource>, last: Resource)
    requires Groups(byBytes, front)
    ensures Groups(byBytes[last.blob := Found(byBytes, last.blob) + [last.id]], front + [last])
  {
    var all := front + [last];
    assert all[..|front|] == front;
    forall blob
      ensures Found(byBytes[last.blob := Found(byBytes, last.blob) + [last.id]], blob) == Hits(all, blob)
    {
      assert Found(byBytes, blob) == Hits(front, blob);
      assert Hits(front, blob) + [] == Hits(front, blob);
    }
  }

  /** Groups the target's ids by what they hold. */
  method GroupByBytes(target: seq<Resource>) returns (byBytes: map<Bytes, seq<nat>>)
    ensures Groups(byBytes, target)
  {
    byBytes := map[];
    var i := 0;
    while i < |target|
      invariant 0 <= i <= |target|
      invariant Groups(byBytes, target[..i])
    {
      var r := target[i];
      GroupsStep(byBytes, target[..i], r);
      assert target[..i + 1] == target[..i] + [r];
      byBytes := byBytes[r.blob := Found(byBytes, r.blob) + [r.id]];
      i := i + 1;
    }
    assert target[..|target|] == target;
  }

  lemma MatchedStep(target: seq<Resource>, donor: seq<Resource>, i: nat)
    requires i < |donor|
    ensures var rest, hits := Matched(target, donor[..i]), Hits(target, donor[i].blob);
      Matched(target, donor[..i + 1]) == if |hits| == 1 then rest[donor[i].id := hits[0]] else rest
  {
    assert donor[..i + 1][..i] == donor[..i];
  }

  lemma NotYetMatched(target: seq<Resource>, donor: seq<Resource>, i: nat)
    requires DistinctIds(donor) && i < |donor|
    ensures donor[i].id !in Matched(target, donor[..i])
  {
    MatchedIsDonor(target, donor[..i]);
  }

  lemma {:induction false} MatchedIsDonor(target: seq<Resource>, donor: seq<Resource>)
    ensures forall r :: r in Matched(target, donor) ==> exists i :: 0 <= i < |donor| && donor[i].id == r
  {
    if donor != [] {
      var front := donor[..|donor| - 1];
      MatchedIsDonor(target, front);
      forall r | r in Matched(target, donor)
        ensures exists i :: 0 <= i < |donor| && donor[i].id == r
      {
        if r in Matched(target, front) {
          var i :| 0 <= i < |front| && front[i].id == r;
          assert donor[i].id == r;
        } else {
          assert donor[|donor| - 1].id == r;
        }
      }
    }
  }

  /** The donors up to `i` are matched and counted. */
  ghost predicate CountedTo(target: seq<Resource>, donor: seq<Resource>, i: nat, mapping: map<nat, nat>,
    deltas: map<int, nat>, order: seq<int>)
  {
    i <= |donor| && mapping == Matched(target, donor[..i]) && Counted(deltas, order, mapping)
  }

  lemma OneMoreCounted(target: seq<Resource>, donor: seq<Resource>, i: nat, mapping: map<nat, nat>,
    deltas: map<int, nat>, order: seq<int>)
    requires CountedTo(target, donor, i, mapping, deltas, order) && i < |donor| && DistinctIds(donor)
    ensures var hits := Hits(target, donor[i].blob);
      if |hits| == 1 then
        var shift := Shift(donor[i].id, hits[0]);
        CountedTo(target, donor, i + 1, mapping[donor[i].id := hits[0]], Bumped(deltas, shift),
          Noted(deltas, order, shift))
      else CountedTo(target, donor, i + 1, mapping, deltas, order)
  {
    MatchedStep(target, donor, i);
    NotYetMatched(target, donor, i);
    if |Hits(target, donor[i].blob)| == 1 {
      BumpedCounts(deltas, order, mapping, donor[i].id, Hits(target, donor[i].blob)[0]);
    }
  }

  /** The unique matches and the tally of their shifts, which add up to the number of
      matches. */
  method MatchUnique(target: seq<Resource>, donor: seq<Resource>)
    returns (mapping: map<nat, nat>, deltas: map<int, nat>, order: seq<int>)
    requires DistinctIds(donor)
    ensures mapping == Matched(target, donor)
    ensures Counted(deltas, order, mapping)
  {
    var byBytes := GroupByBytes(target);
    mapping, deltas, order := map[], map[], [];
    var i := 0;
    while i < |donor|
      invariant CountedTo(target, donor, i, mapping, deltas, order)
    {
      var r := donor[i].id;
      var hits := Found(byBytes, donor[i].blob);
      OneMoreCounted(target, donor, i, mapping, deltas, order);
      if |hits| == 1 {
        var shift := Shift(r, hits[0]);
        order := Noted(deltas, order, shift);
        deltas := Bumped(deltas, shift);
        mapping := mapping[r := hits[0]];
      }
      i := i + 1;
    }
    assert donor[..|donor|] == donor;
  }

  /** The shift most matches agree on, the first seen of those tied. */
  method MostAgreed(deltas: map<int, nat>, order: seq<int>) returns (shift: int)
    requires order != [] && forall i :: 0 <= i < |order| ==> order[i] in deltas
    ensures shift in order && shift in deltas
    ensures forall i :: 0 <= i < |order| ==> deltas[order[i]] <= deltas[shift]
  {
    shift := order[0];
    var i := 1;
    while i < |order|
      invariant 1 <= i <= |order|
      invariant shift in order && shift in deltas && forall k :: 0 <= k < i ==> deltas[order[k]] <= deltas[shift]
    {
      if deltas[order[i]] > deltas[shift] {
        shift := order[i];
      }
      i := i + 1;
    }
  }

  /** The mapping for one shift: matched donors where their bytes are, the others by the
      shift. */
  function Placed(matched: map<nat, nat>, donor: seq<Resource>, shift: int): map<nat, int> {
    map r | r in Ids(donor) :: if r in matched then matched[r] else r + shift
  }

  /** Exactly one resource holds these bytes. */
  ghost predicate OnlyHolder(target: seq<Resource>, blob: Bytes, j: nat) {
    && j < |target| && target[j].blob == blob
    && forall k :: 0 <= k < |target| && k != j ==> target[k].blob != blob
  }

  lemma {:induction false} NoHits(target: seq<Resource>, blob: Bytes)
    ensures Hits(target, blob) == [] <==> forall k :: 0 <= k < |target| ==> target[k].blob != blob
  {
    if target != [] {
      NoHits(target[..|target| - 1], blob);
      assert forall k :: 0 <= k < |target| - 1 ==> target[k] == target[..|target| - 1][k];
    }
  }

  lemma {:induction false} OneHit(target: seq<Resource>, blob: Bytes)
    ensures |Hits(target, blob)| == 1 <==> exists j: nat :: OnlyHolder(target, blob, j)
    ensures forall j: nat :: OnlyHolder(target, blob, j) ==> Hits(target, blob) == [target[j].id]
  {
    if target != [] {
      var front, last := target[..|target| - 1], target[|target| - 1];
      assert forall k :: 0 <= k < |front| ==> target[k] == front[k];
      NoHits(front, blob);
      OneHit(front, blob);
      if last.blob == blob {
        assert OnlyHolder(target, blob, |front|) <==> Hits(front, blob) == [];
        assert forall j: nat :: OnlyHolder(target, blob, j) ==> j == |front|;
      } else {
        forall j: nat
          ensures OnlyHolder(target, blob, j) <==> OnlyHolder(front, blob, j)
        {
        }
        assert Hits(front, blob) + [] == Hits(front, blob);
      }
    }
  }

  /** A donor is matched if exactly one resource of the target holds its bytes, and with that
      one. */
  ghost predicate IsMatched(m: map<nat, nat>, target: seq<Resource>, r: Resource) {
    && (r.id in m <==> exists j: nat :: OnlyHolder(target, r.blob, j))
    && forall j: nat :: OnlyHolder(target, r.blob, j) ==> r.id in m && m[r.id] == target[j].id
  }

  lemma LastIsMatched(target: seq<Resource>, rest: map<nat, nat>, r: Resource)
    requires r.id !in rest
    ensures var hits := Hits(target, r.blob);
      IsMatched(if |hits| == 1 then rest[r.id := hits[0]] else rest, target, r)
  {
    OneHit(target, r.blob);
  }

  /** Every donor is matched exactly so. */
  lemma {:induction false} MatchedWhen(target: seq<Resource>, donor: seq<Resource>, i: nat)
    requires DistinctIds(donor) && i < |donor|
    ensures IsMatched(Matched(target, donor), target, donor[i])
  {
    var front, last := donor[..|donor| - 1], donor[|donor| - 1];
    if i < |front| {
      MatchedWhen(target, front, i);
      assert front[i] == donor[i] && donor[i].id != last.id;
    } else {
      NotYetMatched(target, donor, i);
      LastIsMatched(target, Matched(target, front), last);
    }
  }

  /** The mapping for one shift: each donor, and no other id, goes where its bytes are, if
      exactly one resource holds them, and else by the shift. */
  lemma MappingIs(target: seq<Resource>, donor: seq<Resource>, shift: int, i: nat)
    requires DistinctIds(donor) && i < |donor|
    ensures var mapping, r := Placed(Matched(target, donor), donor, shift), donor[i];
      && r.id in mapping && (forall x :: x in mapping ==> exists k :: 0 <= k < |donor| && donor[k].id == x)
      && (forall j: nat :: OnlyHolder(target, r.blob, j) ==> mapping[r.id] == target[j].id)
      && ((forall j: nat :: !OnlyHolder(target, r.blob, j)) ==> mapping[r.id] == r.id + shift)
  {
    assert Ids(donor)[i] == donor[i].id;
    MatchedWhen(target, donor, i);
  }

  /** At least nine in ten of the matches agree. */
  predicate Agreed(matched: map<nat, nat>, shift: int) {
    10 * |Agreeing(matched, shift)| >= 9 * |matched|
  }

  method MapByContent(target: seq<Resource>, donor: seq<Resource>) returns (r: Result<(map<nat, int>, int), Refusal>)
    requires DistinctIds(donor)
    ensures Matched(target, donor) == map[] <==> r == Err(NothingInCommon)
    ensures r.Err? ==> r.error in {NothingInCommon, NoSingleShift}
    ensures r == Err(NoSingleShift) ==>
      forall k :: 10 * |Agreeing(Matched(target, donor), k)| < 9 * |Matched(target, donor)|
    ensures r.Ok? ==> var (mapping, shift) := r.value;
      && mapping == Placed(Matched(target, donor), donor, shift)
      && 10 * |Agreeing(Matched(target, donor), shift)| >= 9 * |Matched(target, donor)|
      && forall k :: |Agreeing(Matched(target, donor), k)| <= |Agreeing(Matched(target, donor), shift)|
  {
    var mapping, deltas, order := MatchUnique(target, donor);
    if order == [] {
      assert mapping == map[];
      return Err(NothingInCommon);
    }
    var shift := MostAgreed(deltas, order);
    MostIsMost(deltas, order, mapping, shift);
    if 10 * deltas[shift] < 9 * |mapping| {
      return Err(NoSingleShift);
    }
    r := Ok((Placed(mapping, donor, shift), shift));
  }

  lemma MostIsMost(deltas: map<int, nat>, order: seq<int>, matched: map<nat, nat>, shift: int)
    requires Tallies(deltas, order, matched) && shift in deltas
    requires forall i :: 0 <= i < |order| ==> deltas[order[i]] <= deltas[shift]
    ensures matched != map[]
    ensures forall k :: |Agreeing(matched, k)| <= |Agreeing(matched, shift)|
  {
    assert Agreeing(matched, shift) != {};
    forall k
      ensures |Agreeing(matched, k)| <= |Agreeing(matched, shift)|
    {
      if k !in deltas {
        NoneAgrees(matched, k);
      }
    }
  }

  /** When every match agrees, the whole mapping is that one shift, so no two donors
      share a place and the order is kept. */
  lemma AllAgreeing(matched: map<nat, nat>, donor: seq<Resource>, shift: int, a: nat, b: nat)
    requires |Agreeing(matched, shift)| == |matched| && a in Ids(donor) && b in Ids(donor)
    ensures Placed(matched, donor, shift)[a] == a + shift
    ensures a < b ==> Placed(matched, donor, shift)[a] < Placed(matched, donor, shift)[b]
    ensures a != b ==> Placed(matched, donor, shift)[a] != Placed(matched, donor, shift)[b]
  {
    var agreeing := Agreeing(matched, shift);
    assert agreeing <= matched.Keys;
    SameSize(agreeing, matched.Keys);
    assert forall r :: r in matched ==> r in agreeing;
  }

  lemma {:induction false} SameSize(a: set<nat>, b: set<nat>)
    requires a <= b && |a| == |b|
    ensures a == b
  {
    if a != {} {
      var x :| x in a;
      SameSize(a - {x}, b - {x});
    }
  }

  // ---------------------------------------------------------------------
  // The lists that are matched: a pak's dictionary, in the order ids were first read.

  function Put(items: seq<Resource>, r: Resource): seq<Resource> {
    if items == [] then [r]
    else if items[0].id == r.id then [r] + items[1..]
    else [items[0]] + Put(items[1..], r)
  }

  function Items(payloads: seq<Resource>): seq<Resource> {
    if payloads == [] then [] else Put(Items(payloads[..|payloads| - 1]), payloads[|payloads| - 1])
  }

  lemma {:induction false} PutIs(items: seq<Resource>, r: Resource)
    requires DistinctIds(items)
    ensures DistinctIds(Put(items, r))
    ensures forall x :: x in Put(items, r) <==> x == r || (x in items && x.id != r.id)
  {
    if items != [] {
      var head, tail := items[0], items[1..];
      assert forall x :: x in items <==> x == head || x in tail;
      assert forall i :: 0 <= i < |tail| ==> tail[i].id != head.id;
      PutIs(tail, r);
      if head.id != r.id {
        forall i | 0 <= i < |Put(tail, r)|
          ensures Put(tail, r)[i].id != head.id
        {
          assert Put(tail, r)[i] in Put(tail, r);
        }
      }
    }
  }

  lemma {:induction false} ItemsAre(payloads: seq<Resource>)
    ensures DistinctIds(Items(payloads))
    ensures forall x :: x in Items(payloads) <==> x.id in DictOf(payloads) && DictOf(payloads)[x.id] == x.blob
  {
    if payloads != [] {
      var front, last := payloads[..|payloads| - 1], payloads[|payloads| - 1];
      ItemsAre(front);
      PutIs(Items(front), last);
      forall x
        ensures x in Items(payloads) <==> x.id in DictOf(payloads) && DictOf(payloads)[x.id] == x.blob
      {
        assert x == Resource(x.id, x.blob);
      }
    }
  }

  lemma {:induction false} PutLast(items: seq<Resource>, r: Resource)
    requires forall x :: x in items ==> x.id != r.id
    ensures Put(items, r) == items + [r]
  {
    if items != [] {
      PutLast(items[1..], r);
      assert items == [items[0]] + items[1..];
    }
  }

  lemma {:induction false} ItemsOfDistinct(payloads: seq<Resource>)
    requires DistinctIds(payloads)
    ensures Items(payloads) == payloads
  {
    if payloads != [] {
      var front, last := payloads[..|payloads| - 1], payloads[|payloads| - 1];
      ItemsOfDistinct(front);
      PutLast(front, last);
      assert payloads == front + [last];
    }
  }

  // ---------------------------------------------------------------------
  // The swap tool with `--map-by-content`.

  function MatchedOf(target: Contents, donor: Contents): map<nat, nat> {
    Matched(Items(target.payloads), Items(donor.payloads))
  }

  /** What is mapped to an id the target has. */
  function Within(mapping: map<nat, int>, t: Dict): Placing {
    map r | r in mapping && mapping[r] >= 0 && mapping[r] in t :: mapping[r]
  }

  /** Where each donor goes with one shift. */
  function PlacingBy(target: Contents, donor: Contents, shift: int): Placing {
    Within(Placed(MatchedOf(target, donor), Items(donor.payloads), shift), DictOf(target.payloads))
  }

  lemma PlacingFits(target: Contents, donor: Contents, shift: int)
    requires Sixteen(DictOf(donor.payloads))
    ensures IsPlacing(PlacingBy(target, donor, shift), DictOf(target.payloads), DictOf(donor.payloads))
  {
    var items := Items(donor.payloads);
    ItemsAre(donor.payloads);
    forall r | r in Ids(items)
      ensures r in DictOf(donor.payloads)
    {
      var k :| 0 <= k < |items| && items[k].id == r;
      assert items[k] in items;
    }
  }

  /** What the swap by content comes to with one shift. */
  function SwapShifted(target: Contents, donor: Contents, ids: Option<set<nat>>, shift: int): Result<Bytes, Refusal>
    requires Sixteen(DictOf(donor.payloads))
  {
    PlacingFits(target, donor, shift);
    SwapBy(target, DictOf(donor.payloads), PlacingBy(target, donor, shift), ids)
  }

  method SwapByContent(target: Contents, donor: Contents, ids: Option<set<nat>>)
    returns (r: Result<Bytes, Refusal>, shift: int)
    requires Sixteen(DictOf(donor.payloads))
    ensures var matched := MatchedOf(target, donor);
      if matched == map[] then r == Err(NothingInCommon)
      else if forall k :: !Agreed(matched, k) then r == Err(NoSingleShift)
      else
        && (forall k :: |Agreeing(matched, k)| <= |Agreeing(matched, shift)|)
        && Agreed(matched, shift) && r == SwapShifted(target, donor, ids, shift)
  {
    shift := 0;
    ItemsAre(donor.payloads);
    var mapped := MapByContent(Items(target.payloads), Items(donor.payloads));
    if mapped.Err? {
      r := Err(mapped.error);
    } else {
      var (mapping, most) := mapped.value;
      assert Agreed(MatchedOf(target, donor), most);
      shift := most;
      PlacingFits(target, donor, shift);
      r := SwapBy(target, DictOf(donor.payloads), Within(mapping, DictOf(target.payloads)), ids);
    }
  }

  /** When every match agrees, no two donors share a place, so whenever the swap goes
      through each resource ends with the bytes of the donor one shift away, if any. */
  lemma AgreeingSwapIsFaithful(target: Contents, donor: Contents, ids: Option<set<nat>>, shift: int, r: nat, i: nat)
    requires Sixteen(DictOf(donor.payloads)) && r in DictOf(donor.payloads)
    requires |Agreeing(MatchedOf(target, donor), shift)| == |MatchedOf(target, donor)|
    requires SwapShifted(target, donor, ids, shift).Ok? && i < |target.payloads| && IsLastOfId(target.payloads, i)
    requires r + shift == target.payloads[i].id
    ensures var back := Parse(SwapShifted(target, donor, ids, shift).value);
      && back.Ok? && |back.value.payloads| == |target.payloads|
      && back.value.payloads[i].blob == DictOf(donor.payloads)[r]
  {
    PlacingFits(target, donor, shift);
    PlacedByShift(target, donor, shift, r, i);
    ShiftsByOne(target, donor, shift);
    ApartSwapIsFaithful(target, DictOf(donor.payloads), PlacingBy(target, donor, shift), ids, r, i);
  }

  lemma ShiftsByOne(target: Contents, donor: Contents, shift: int)
    requires |Agreeing(MatchedOf(target, donor), shift)| == |MatchedOf(target, donor)|
    ensures forall r :: r in PlacingBy(target, donor, shift) ==> PlacingBy(target, donor, shift)[r] == r + shift
  {
    forall r | r in PlacingBy(target, donor, shift)
      ensures PlacingBy(target, donor, shift)[r] == r + shift
    {
      AllAgreeing(MatchedOf(target, donor), Items(donor.payloads), shift, r, r);
    }
  }

  lemma DonorIsListed(payloads: seq<Resource>, r: nat)
    requires r in DictOf(payloads)
    ensures r in Ids(Items(payloads))
  {
    var items := Items(payloads);
    ItemsAre(payloads);
    assert Resource(r, DictOf(payloads)[r]) in items;
    var k :| 0 <= k < |items| && items[k] == Resource(r, DictOf(payloads)[r]);
    assert Ids(items)[k] == r;
  }

  lemma PlacedByShift(target: Contents, donor: Contents, shift: int, r: nat, i: nat)
    requires |Agreeing(MatchedOf(target, donor), shift)| == |MatchedOf(target, donor)|
    requires i < |target.payloads| && r in DictOf(donor.payloads) && r + shift == target.payloads[i].id
    ensures r in PlacingBy(target, donor, shift) && PlacingBy(target, donor, shift)[r] == target.payloads[i].id
  {
    DictOfAll(target.payloads);
    DonorIsListed(donor.payloads, r);
    AllAgreeing(MatchedOf(target, donor), Items(donor.payloads), shift, r, r);
    WithinHas(Placed(MatchedOf(target, donor), Items(donor.payloads), shift), DictOf(target.payloads), r);
  }

  lemma WithinHas(mapping: map<nat, int>, t: Dict, r: nat)
    requires r in mapping && mapping[r] >= 0 && mapping[r] in t
    ensures r in Within(mapping, t) && Within(mapping, t)[r] == mapping[r]
  {
  }

  // ---------------------------------------------------------------------
  // Two donors at one place, past the nine in ten and the guard.

  /** Ids from zero on, each with one byte of its own. */
  function Plain(n: nat): (p: seq<Resource>)
    requires n <= 256
    ensures |p| == n && forall i :: 0 <= i < n ==> p[i] == Resource(i, [i])
  {
    if n == 0 then [] else Plain(n - 1) + [Resource(n - 1, [n - 1])]
  }

  lemma {:induction false} PlainHits(n: nat, b: byte)
    requires n <= 256
    ensures Hits(Plain(n), [b]) == if b < n then [b] else []
  {
    if n > 0 {
      PlainHits(n - 1, b);
      assert Plain(n)[..n - 1] == Plain(n - 1) && ([n - 1] == [b] <==> n - 1 == b);
    }
  }

  function Same(n: nat): map<nat, nat> {
    if n == 0 then map[] else Same(n - 1)[n - 1 := n - 1]
  }

  lemma {:induction false} SameIs(n: nat)
    ensures forall r: nat :: r in Same(n) <==> r < n
    ensures forall r :: r in Same(n) ==> Same(n)[r] == r
    ensures |Same(n)| == n
  {
    if n > 0 {
      SameIs(n - 1);
    }
  }

  lemma {:induction false} PlainMatches(n: nat, k: nat)
    requires k <= n <= 256
    ensures Matched(Plain(n), Plain(k)) == Same(k)
  {
    if k > 0 {
      PlainMatches(n, k - 1);
      PlainHits(n, k - 1);
      assert Plain(k)[..k - 1] == Plain(k - 1);
    }
  }

  /** The same list with other bytes at `n`, and the bytes that were there at `q`. */
  function Shifted(n: nat, q: nat): seq<Resource>
    requires n < 255
  {
    Plain(n) + [Resource(n, [255])] + [Resource(q, [n])]
  }

  lemma ShiftedMatches(n: nat, q: nat)
    requires n < 255 && q > n
    ensures Matched(Plain(n + 1), Shifted(n, q)) == Same(n)[q := n]
  {
    var a, b := Plain(n) + [Resource(n, [255])], Shifted(n, q);
    PlainMatches(n + 1, n);
    PlainHits(n + 1, 255);
    PlainHits(n + 1, n);
    assert a[..n] == Plain(n) && a[n] == Resource(n, [255]);
    assert b[..n + 1] == a && b[n + 1] == Resource(q, [n]);
  }

  /** Shift zero has all matches but one, and any other at most that one. */
  lemma ShiftedAgree(n: nat, q: nat, k: int)
    requires q > n
    ensures var matched := Same(n)[q := n];
      |matched| == n + 1 && |Agreeing(matched, 0)| == n && (k != 0 ==> |Agreeing(matched, k)| <= 1)
  {
    var matched := Same(n)[q := n];
    SameIs(n);
    assert Agreeing(matched, 0) == Same(n).Keys;
    if k != 0 {
      assert Agreeing(matched, k) <= {q};
      SubsetOfOne(Agreeing(matched, k), q);
    }
  }

  lemma SubsetOfOne(s: set<nat>, x: nat)
    requires s <= {x}
    ensures |s| <= 1
  {
    assert s == {} || s == {x};
  }

  lemma ShiftedAt(n: nat, q: nat)
    requires n < 255 && n < q
    ensures forall i :: 0 <= i < n ==> Shifted(n, q)[i] == Resource(i, [i])
    ensures Shifted(n, q)[n] == Resource(n, [255]) && Shifted(n, q)[n + 1] == Resource(q, [n])
    ensures DistinctIds(Shifted(n, q))
  {
    var b := Shifted(n, q);
    assert forall i :: 0 <= i < n ==> b[i] == Plain(n)[i];
    assert b[n] == Resource(n, [255]) && b[n + 1] == Resource(q, [n]);
    assert forall i :: 0 <= i < |b| ==> b[i].id == if i <= n then i else q;
  }

  lemma ShiftedKeys(n: nat, q: nat)
    requires n < 255 && n < q
    ensures forall r: nat :: r in DictOf(Shifted(n, q)) <==> r <= n || r == q
  {
    ShiftedAt(n, q);
    DictOfAll(Shifted(n, q));
    forall r: nat | r <= n || r == q
      ensures r in DictOf(Shifted(n, q))
    {
      assert Shifted(n, q)[if r <= n then r else n + 1].id == r;
    }
  }

  lemma ShiftedDict(n: nat, q: nat)
    requires n < 255 && n < q < ID_LIMIT
    ensures DistinctIds(Shifted(n, q)) && Sixteen(DictOf(Shifted(n, q)))
    ensures forall r: nat :: r in DictOf(Shifted(n, q)) <==> r <= n || r == q
    ensures forall r: nat :: r < n ==> DictOf(Shifted(n, q))[r] == [r as byte]
    ensures DictOf(Shifted(n, q))[n] == [255] && DictOf(Shifted(n, q))[q] == [n]
  {
    ShiftedKeys(n, q);
    ShiftedAt(n, q);
    DictOfDistinct(Shifted(n, q));
  }

  lemma PlainDict(n: nat)
    requires n <= 256
    ensures DistinctIds(Plain(n))
    ensures forall r: nat :: r in DictOf(Plain(n)) <==> r < n
    ensures forall r: nat :: r < n ==> DictOf(Plain(n))[r] == [r as byte]
  {
    DictOfDistinct(Plain(n));
    forall r: nat | r < n
      ensures r in DictOf(Plain(n))
    {
      assert Plain(n)[r].id == r;
    }
  }

  ghost predicate IsShiftedCase(target: Contents, donor: Contents, n: nat, q: nat) {
    && 9 <= n < 255 && n < q < ID_LIMIT
    && target.payloads == Plain(n + 1) && donor.payloads == Shifted(n, q)
  }

  lemma ShiftedCase(target: Contents, donor: Contents, n: nat, q: nat)
    requires IsShiftedCase(target, donor, n, q)
    ensures MatchedOf(target, donor) == Same(n)[q := n] && Sixteen(DictOf(donor.payloads))
    ensures Agreed(MatchedOf(target, donor), 0)
    ensures forall k :: k != 0 ==> |Agreeing(MatchedOf(target, donor), k)| < |Agreeing(MatchedOf(target, donor), 0)|
  {
    PlainDict(n + 1);
    ShiftedDict(n, q);
    ItemsOfDistinct(target.payloads);
    ItemsOfDistinct(donor.payloads);
    ShiftedMatches(n, q);
    var matched := MatchedOf(target, donor);
    ShiftedAgree(n, q, 0);
    forall k | k != 0
      ensures |Agreeing(matched, k)| < |Agreeing(matched, 0)|
    {
      ShiftedAgree(n, q, k);
    }
  }

  lemma ShiftedIds(n: nat, q: nat)
    requires n < 255 && n < q
    ensures forall r: nat :: r in Ids(Shifted(n, q)) <==> r <= n || r == q
  {
    var b, ids := Shifted(n, q), Ids(Shifted(n, q));
    assert b[n] == Resource(n, [255]) && b[n + 1] == Resource(q, [n]);
    forall r: nat | r <= n || r == q
      ensures r in ids
    {
      assert ids[if r <= n then r else n + 1] == r;
    }
  }

  /** All ids up to `n` are their own places, and `q` goes to `n` too. */
  ghost predicate SharesLast(placing: Placing, n: nat, q: nat) {
    && (forall r: nat :: r in placing <==> r <= n || r == q)
    && (forall r: nat :: r <= n && r in placing ==> placing[r] == r)
    && q in placing && placing[q] == n
  }

  lemma ShiftedWithin(t: Dict, n: nat, q: nat)
    requires n < 255 && n < q && forall r: nat :: r in t <==> r <= n
    ensures SharesLast(Within(Placed(Same(n)[q := n], Shifted(n, q), 0), t), n, q)
  {
    SameIs(n);
    ShiftedIds(n, q);
  }

  lemma PlainKeys(t: Dict, n: nat)
    requires n < 256 && t == DictOf(Plain(n + 1))
    ensures forall r: nat :: r in t <==> r <= n
  {
    PlainDict(n + 1);
  }

  lemma ShiftedPlacing(target: Contents, donor: Contents, n: nat, q: nat)
    requires IsShiftedCase(target, donor, n, q)
    ensures SharesLast(PlacingBy(target, donor, 0), n, q)
  {
    ShiftedCase(target, donor, n, q);
    ShiftedAt(n, q);
    ItemsOfDistinct(donor.payloads);
    PlainKeys(DictOf(target.payloads), n);
    ShiftedWithin(DictOf(target.payloads), n, q);
  }

  lemma {:induction false} OneByteEach(p: seq<Resource>)
    requires forall i :: 0 <= i < |p| ==> |p[i].blob| == 1
    ensures DataSize(p) == |p|
  {
    if p != [] {
      OneByteEach(p[1..]);
    }
  }

  /** The swap is of the one id that differs, for the bytes of its own donor. */
  lemma ShiftedTakes(d: Dict, placing: Placing, n: nat, q: nat)
    requires n < 255 && SharesLast(placing, n, q) && placing.Keys <= d.Keys && n in d && d[n] == [255]
    ensures {n} <= placing.Keys && Taken(d, placing, {n}, ID_LIMIT) == map[n := [255]]
    ensures IsLast(placing, {n}, ID_LIMIT, n, n)
  {
    var wanted, limit := {n}, ID_LIMIT;
    assert n in placing && placing[n] == n;
    TakenIs(d, placing, wanted, limit);
    var swap := Taken(d, placing, wanted, limit);
    assert IsLast(placing, wanted, limit, n, n);
    forall to | to in swap
      ensures to == n
    {
      assert exists r :: IsLast(placing, wanted, limit, to, r);
    }
    assert swap.Keys == {n};
  }

  lemma ShiftedFits(target: Contents, n: nat)
    requires n < 255 && target.payloads == Plain(n + 1) && target.encoding < 256 && target.aliases == []
    ensures Write(target, map[n := [255]]).Ok?
  {
    OneByteEach(Rewrite(target.payloads, map[n := [255]]));
  }

  lemma ShiftedChanges(t: Dict, d: Dict, placing: Placing, n: nat, q: nat)
    requires n < 255 && n < q && IsPlacing(placing, t, d) && SharesLast(placing, n, q)
    requires forall r: nat :: r <= n ==> r in t && t[r] == [r as byte]
    requires (forall r: nat :: r < n && r in d ==> d[r] == [r as byte]) && d[n] == [255] && d[q] == [n]
    ensures Changed(t, d, placing) == {n}
  {
    assert n in placing && t[n] == [n as byte] && d[n][0] != t[n][0];
  }

  /** A swap of one id for the bytes of its own donor. */
  lemma OneGoesThrough(target: Contents, d: Dict, placing: Placing, n: nat)
    requires DistinctIds(target.payloads) && IsPlacing(placing, DictOf(target.payloads), d)
    requires n in placing && placing[n] == n && Changed(DictOf(target.payloads), d, placing) == {n}
    requires {n} <= placing.Keys && Write(target, Taken(d, placing, {n}, ID_LIMIT)).Ok?
    ensures SwapBy(target, d, placing, None).Ok?
  {
    DistinctSwapGoesThroughWhen(target, d, placing, None);
    assert PlacesOf(placing, {n}) == {n};
  }

  /** The swap that sharing makes: it goes through, and `n` gets its own donor's bytes. */
  lemma SharedGoesThrough(target: Contents, d: Dict, placing: Placing, n: nat, q: nat)
    requires n < 255 && n < q && target.payloads == Plain(n + 1) && target.encoding < 256 && target.aliases == []
    requires IsPlacing(placing, DictOf(target.payloads), d) && SharesLast(placing, n, q)
    requires forall r: nat :: r < n && r in d ==> d[r] == [r as byte]
    requires n in d && q in d && d[n] == [255] && d[q] == [n]
    ensures SwapBy(target, d, placing, None).Ok?
    ensures var back := Parse(SwapBy(target, d, placing, None).value);
      back.Ok? && |back.value.payloads| == n + 1 && back.value.payloads[n].blob == [255]
  {
    PlainDict(n + 1);
    ShiftedTakes(d, placing, n, q);
    ShiftedFits(target, n);
    ShiftedChanges(DictOf(target.payloads), d, placing, n, q);
    OneGoesThrough(target, d, placing, n);
    SwapByWrites(target, d, placing, None, n);
  }

  /** Nine matches in ten or more agree on shift zero and no other shift has as many, so the
      tool goes by it, and the guard passes: but a donor matched at an id by its bytes is
      not what that id holds in the end. */
  lemma SharedPlaceIsLost(target: Contents, donor: Contents, n: nat, q: nat)
    requires 9 <= n < 255 && n < q < ID_LIMIT && target.encoding < 256 && target.aliases == []
    requires target.payloads == Plain(n + 1) && donor.payloads == Shifted(n, q)
    ensures var matched := MatchedOf(target, donor);
      && Agreed(matched, 0) && (forall k :: k != 0 ==> |Agreeing(matched, k)| < |Agreeing(matched, 0)|)
      && q in matched && matched[q] == n && target.payloads[n].blob == DictOf(donor.payloads)[q]
    ensures Sixteen(DictOf(donor.payloads)) && SwapShifted(target, donor, None, 0).Ok?
    ensures var back := Parse(SwapShifted(target, donor, None, 0).value);
      back.Ok? && |back.value.payloads| == n + 1 && back.value.payloads[n].blob != DictOf(donor.payloads)[q]
  {
    ShiftedCase(target, donor, n, q);
    ShiftedDict(n, q);
    ShiftedPlacing(target, donor, n, q);
    PlacingFits(target, donor, 0);
    SharedGoesThrough(target, DictOf(donor.payloads), PlacingBy(target, donor, 0), n, q);
  }
}
