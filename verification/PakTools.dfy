/**
 What the two tools do with a pak: swapping resources in from a donor, wherever its
 ids are placed, and setting resources by id
 (ci/pak-swap-resources.py:122-213, ci/pak-set-resources.py:93-175).
 */
module PakTools {
  import opened Wrappers
  import opened Pak

  type Dict = map<nat, Bytes>

  /** The resources by id; of two with one id, the later. */
  function DictOf(payloads: seq<Resource>): Dict {
    if payloads == [] then map[]
    else
      var last := payloads[|payloads| - 1];
      DictOf(payloads[..|payloads| - 1])[last.id := last.blob]
  }

  datatype Refusal =
    | Drifted
    | NotPlaced
    | NothingToSwap
    | Disagrees
    | NotPacked(problem: Problem)
    | GuardFailed
    | NothingInCommon
    | NoSingleShift

  // ---------------------------------------------------------------------
  // The rewrite and the guard.

  function Rewrite(payloads: seq<Resource>, swap: Dict): (r: seq<Resource>)
    ensures |r| == |payloads|
  {
    seq(|payloads|, i requires 0 <= i < |payloads| =>
      Resource(payloads[i].id, if payloads[i].id in swap then swap[payloads[i].id] else payloads[i].blob))
  }

  function Ids(payloads: seq<Resource>): seq<nat> {
    seq(|payloads|, i requires 0 <= i < |payloads| => payloads[i].id)
  }

  /** The ids, in order, whose bytes differ between two lists of one length. */
  function Differing(a: seq<Resource>, b: seq<Resource>): seq<nat>
    requires |a| == |b|
  {
    if a == [] then []
    else (if a[0].blob != b[0].blob then [a[0].id] else []) + Differing(a[1..], b[1..])
  }

  /** The members of `s` below `n`, in order. */
  function Sorted(s: set<nat>, n: nat): seq<nat> {
    if n == 0 then [] else Sorted(s, n - 1) + (if n - 1 in s then [n - 1] else [])
  }

  const ID_LIMIT := 0x1_0000

  /** What is read back has the old header, aliases and order. */
  predicate SameShape(before: Contents, after: Contents) {
    after.encoding == before.encoding && after.aliases == before.aliases && Ids(after.payloads) == Ids(before.payloads)
  }

  function Write(target: Contents, swap: Dict): Result<Bytes, Refusal> {
    match Build(target.(payloads := Rewrite(target.payloads, swap)))
    case Err(e) => Err(NotPacked(e))
    case Ok(data) => Ok(data)
  }

  /** The swap tool's guard: exactly the resources asked for differ, in ascending order. */
  predicate SwapGuard(target: Contents, data: Bytes, swapped: set<nat>) {
    var back := Parse(data);
    && back.Ok? && SameShape(target, back.value) && |back.value.payloads| == |target.payloads|
    && Differing(target.payloads, back.value.payloads) == Sorted(swapped, ID_LIMIT)
  }

  /** The set tool's guard: the same, whatever the order. */
  predicate SetGuard(target: Contents, data: Bytes, placed: set<nat>) {
    var back := Parse(data);
    && back.Ok? && SameShape(target, back.value) && |back.value.payloads| == |target.payloads|
    && multiset(Differing(target.payloads, back.value.payloads)) == multiset(placed)
  }

  // ---------------------------------------------------------------------
  // The swap tool, by where each donor resource goes.

  /** Donor ids with their places in the target. */
  type Placing = map<nat, nat>

  /** Donor ids are sixteen bits wide, as everything that is read. */
  predicate IsPlacing(placing: Placing, t: Dict, d: Dict) {
    forall r :: r in placing ==> r in d && r < ID_LIMIT && placing[r] in t
  }

  function Changed(t: Dict, d: Dict, placing: Placing): set<nat>
    requires IsPlacing(placing, t, d)
  {
    set r | r in placing && d[r] != t[placing[r]]
  }

  function Wanted(changed: set<nat>, ids: Option<set<nat>>): set<nat> {
    if ids.Some? then ids.value else changed
  }

  /** The bytes for each place, from the wanted donors in ascending order: of two that go
      to one place, the later. */
  function Taken(d: Dict, placing: Placing, wanted: set<nat>, n: nat): Dict
    requires wanted <= placing.Keys && placing.Keys <= d.Keys
  {
    if n == 0 then map[]
    else
      var before := Taken(d, placing, wanted, n - 1);
      if n - 1 in wanted then before[placing[n - 1] := d[n - 1]] else before
  }

  /** What stops a swap before anything is written. */
  function Objection(changed: set<nat>, placing: Placing, ids: Option<set<nat>>): Option<Refusal> {
    var wanted := Wanted(changed, ids);
    if !(wanted <= placing.Keys) then Some(NotPlaced)
    else if wanted == {} then Some(NothingToSwap)
    else if !(changed <= wanted) then Some(Disagrees)
    else None
  }

  /** Nothing is kept unless the pak, read back, passes the guard. */
  function WriteGuarded(target: Contents, swap: Dict): Result<Bytes, Refusal> {
    var data :- Write(target, swap);
    if SwapGuard(target, data, swap.Keys) then Ok(data) else Err(GuardFailed)
  }

  /** `ids` are the donor's, asked for by number, if any. */
  function SwapBy(target: Contents, d: Dict, placing: Placing, ids: Option<set<nat>>): Result<Bytes, Refusal>
    requires IsPlacing(placing, DictOf(target.payloads), d)
  {
    var changed := Changed(DictOf(target.payloads), d, placing);
    var objection := Objection(changed, placing, ids);
    if objection.Some? then Err(objection.value)
    else WriteGuarded(target, Taken(d, placing, Wanted(changed, ids), ID_LIMIT))
  }

  // ---------------------------------------------------------------------
  // Same-id mode: every donor that the target has too goes to its own id.

  function SameIds(t: Dict, d: Dict): Placing {
    map r | r in d.Keys * t.Keys :: r
  }

  predicate Sixteen(d: Dict) {
    forall r :: r in d ==> r < ID_LIMIT
  }

  /** On a real pak, fewer than half of the shared ids holding the same bytes means an
      id no longer names the same resource. */
  predicate HasDrifted(t: Dict, d: Dict)
    requires Sixteen(d)
  {
    var placing := SameIds(t, d);
    |placing| >= 20 && 2 * |placing.Keys - Changed(t, d, placing)| < |placing|
  }

  function Swap(target: Contents, donor: Contents, ids: Option<set<nat>>): Result<Bytes, Refusal>
    requires Sixteen(DictOf(donor.payloads))
  {
    var t, d := DictOf(target.payloads), DictOf(donor.payloads);
    if HasDrifted(t, d) then Err(Drifted) else SwapBy(target, d, SameIds(t, d), ids)
  }

  /** The set tool, once it has found which resource each file is for. */
  function Place(target: Contents, placed: Dict): Result<Bytes, Refusal> {
    var data :- Write(target, placed);
    if SetGuard(target, data, placed.Keys) then Ok(data) else Err(GuardFailed)
  }

  // ---------------------------------------------------------------------
  // Sorted lists.

  ghost predicate Ascending(xs: seq<nat>) {
    forall i, j :: 0 <= i < j < |xs| ==> xs[i] < xs[j]
  }

  lemma {:induction false} SortedIsAscending(s: set<nat>, n: nat)
    ensures Ascending(Sorted(s, n))
    ensures forall x :: x in Sorted(s, n) <==> x in s && x < n
  {
    if n > 0 {
      SortedIsAscending(s, n - 1);
      var rest := Sorted(s, n - 1);
      assert forall i :: 0 <= i < |rest| ==> rest[i] in rest;
    }
  }

  /** An ascending list is settled by its members. */
  lemma {:induction false} AscendingIsUnique(a: seq<nat>, b: seq<nat>)
    requires Ascending(a) && Ascending(b) && forall x :: x in a <==> x in b
    ensures a == b
  {
    assert |a| > 0 ==> a[0] in a;
    assert |b| > 0 ==> b[0] in b;
    if |a| > 0 && |b| > 0 {
      FirstIsLeast(a);
      FirstIsLeast(b);
      assert a[0] in b && b[0] in a;
      assert forall x :: x in a[1..] <==> x in a && x != a[0];
      assert forall x :: x in b[1..] <==> x in b && x != b[0];
      AscendingIsUnique(a[1..], b[1..]);
    }
  }

  lemma FirstIsLeast(xs: seq<nat>)
    requires Ascending(xs) && xs != []
    ensures forall x :: x in xs ==> xs[0] <= x
    ensures xs[0] !in xs[1..]
  {
  }

  // ---------------------------------------------------------------------
  // What a rewrite changes.

  ghost predicate DistinctIds(payloads: seq<Resource>) {
    forall i, j :: 0 <= i < j < |payloads| ==> payloads[i].id != payloads[j].id
  }

  /** No later resource has the id of this one, so it is the one the dictionary holds. */
  ghost predicate IsLastOfId(payloads: seq<Resource>, i: nat)
    requires i < |payloads|
  {
    forall j :: i < j < |payloads| ==> payloads[j].id != payloads[i].id
  }

  lemma {:induction false} DictOfAll(payloads: seq<Resource>)
    ensures forall i :: 0 <= i < |payloads| ==> payloads[i].id in DictOf(payloads)
    ensures forall i :: 0 <= i < |payloads| && IsLastOfId(payloads, i) ==>
      DictOf(payloads)[payloads[i].id] == payloads[i].blob
    ensures forall r :: r in DictOf(payloads) ==> exists i :: 0 <= i < |payloads| && payloads[i].id == r
  {
    if payloads != [] {
      var front := payloads[..|payloads| - 1];
      DictOfAll(front);
      forall i | 0 <= i < |front| && IsLastOfId(payloads, i)
        ensures IsLastOfId(front, i)
      {
        assert forall j :: i < j < |front| ==> payloads[j] == front[j];
      }
      forall r | r in DictOf(payloads)
        ensures exists i :: 0 <= i < |payloads| && payloads[i].id == r
      {
        if r in DictOf(front) {
          var i :| 0 <= i < |front| && front[i].id == r;
          assert payloads[i].id == r;
        } else {
          assert payloads[|payloads| - 1].id == r;
        }
      }
    }
  }

  lemma DictOfDistinct(payloads: seq<Resource>)
    requires DistinctIds(payloads)
    ensures forall i :: 0 <= i < |payloads| ==>
      payloads[i].id in DictOf(payloads) && DictOf(payloads)[payloads[i].id] == payloads[i].blob
    ensures forall r :: r in DictOf(payloads) ==> exists i :: 0 <= i < |payloads| && payloads[i].id == r
  {
    DictOfAll(payloads);
    assert forall i :: 0 <= i < |payloads| ==> IsLastOfId(payloads, i);
  }

  ghost predicate DiffersAt(a: seq<Resource>, b: seq<Resource>, x: nat)
    requires |a| == |b|
  {
    exists i :: 0 <= i < |a| && a[i].id == x && a[i].blob != b[i].blob
  }

  lemma DiffersAtTail(a: seq<Resource>, b: seq<Resource>, x: nat)
    requires |a| == |b| && a != []
    ensures DiffersAt(a, b, x) <==> (a[0].id == x && a[0].blob != b[0].blob) || DiffersAt(a[1..], b[1..], x)
  {
    if DiffersAt(a, b, x) {
      var i :| 0 <= i < |a| && a[i].id == x && a[i].blob != b[i].blob;
      assert i > 0 ==> a[1..][i - 1] == a[i] && b[1..][i - 1] == b[i];
    }
    if DiffersAt(a[1..], b[1..], x) {
      var i :| 0 <= i < |a[1..]| && a[1..][i].id == x && a[1..][i].blob != b[1..][i].blob;
      assert a[i + 1] == a[1..][i] && b[i + 1] == b[1..][i];
    }
  }

  lemma {:induction false} DifferingIs(a: seq<Resource>, b: seq<Resource>, x: nat)
    requires |a| == |b|
    ensures x in Differing(a, b) <==> DiffersAt(a, b, x)
  {
    if a != [] {
      DifferingIs(a[1..], b[1..], x);
      DiffersAtTail(a, b, x);
    }
  }

  /** The ids that differ are in ascending order. */
  ghost predicate DiffersInOrder(a: seq<Resource>, b: seq<Resource>)
    requires |a| == |b|
  {
    forall i, j :: 0 <= i < j < |a| && a[i].blob != b[i].blob && a[j].blob != b[j].blob ==> a[i].id < a[j].id
  }

  lemma {:induction false} DifferingAscendsWhen(a: seq<Resource>, b: seq<Resource>)
    requires |a| == |b|
    ensures Ascending(Differing(a, b)) <==> DiffersInOrder(a, b)
  {
    if a != [] {
      DifferingAscendsWhen(a[1..], b[1..]);
      InOrderTail(a, b);
      var all, rest := Differing(a, b), Differing(a[1..], b[1..]);
      if a[0].blob != b[0].blob {
        assert all[0] == a[0].id && all[1..] == rest;
        assert forall k :: 0 <= k < |rest| ==> rest[k] == all[k + 1];
        LeadIsLeast(a, b);
      } else {
        assert all == rest;
      }
    }
  }

  lemma InOrderTail(a: seq<Resource>, b: seq<Resource>)
    requires |a| == |b| && a != []
    ensures DiffersInOrder(a, b) <==>
      DiffersInOrder(a[1..], b[1..]) &&
      (a[0].blob != b[0].blob ==> forall j :: 0 < j < |a| && a[j].blob != b[j].blob ==> a[0].id < a[j].id)
  {
    assert forall i :: 0 < i < |a| ==> a[i] == a[1..][i - 1] && b[i] == b[1..][i - 1];
    if DiffersInOrder(a, b) {
      forall i, j | 0 <= i < j < |a[1..]| && a[1..][i].blob != b[1..][i].blob && a[1..][j].blob != b[1..][j].blob
        ensures a[1..][i].id < a[1..][j].id
      {
        assert a[i + 1].id < a[j + 1].id;
      }
    }
  }

  /** The first id is below all that differ later exactly when it is below each of them. */
  lemma LeadIsLeast(a: seq<Resource>, b: seq<Resource>)
    requires |a| == |b| && a != []
    ensures (forall j :: 0 < j < |a| && a[j].blob != b[j].blob ==> a[0].id < a[j].id) <==>
      forall k :: 0 <= k < |Differing(a[1..], b[1..])| ==> a[0].id < Differing(a[1..], b[1..])[k]
  {
    var rest := Differing(a[1..], b[1..]);
    forall x
      ensures x in rest <==> exists j :: 0 < j < |a| && a[j].id == x && a[j].blob != b[j].blob
    {
      DifferingIs(a[1..], b[1..], x);
      assert forall i :: 0 < i < |a| ==> a[i] == a[1..][i - 1] && b[i] == b[1..][i - 1];
      if exists j :: 0 < j < |a| && a[j].id == x && a[j].blob != b[j].blob {
        var j :| 0 < j < |a| && a[j].id == x && a[j].blob != b[j].blob;
        assert a[1..][j - 1].id == x;
      }
    }
    if forall k :: 0 <= k < |rest| ==> a[0].id < rest[k] {
      forall j | 0 < j < |a| && a[j].blob != b[j].blob
        ensures a[0].id < a[j].id
      {
        assert a[j].id in rest;
      }
    }
    forall k | 0 <= k < |rest|
      ensures rest[k] in rest
    {
    }
  }

  /** An id has other bytes in exactly one place. */
  ghost predicate DiffersOnce(a: seq<Resource>, b: seq<Resource>, x: nat)
    requires |a| == |b|
  {
    exists i :: 0 <= i < |a| && OnlyDiffersAt(a, b, x, i)
  }

  ghost predicate OnlyDiffersAt(a: seq<Resource>, b: seq<Resource>, x: nat, i: nat)
    requires |a| == |b| && i < |a|
  {
    && a[i].id == x && a[i].blob != b[i].blob
    && forall j :: 0 <= j < |a| && j != i && a[j].id == x ==> a[j].blob == b[j].blob
  }

  lemma DiffersOnceTail(a: seq<Resource>, b: seq<Resource>, x: nat)
    requires |a| == |b| && a != []
    ensures DiffersOnce(a, b, x) <==>
      if a[0].id == x && a[0].blob != b[0].blob then !DiffersAt(a[1..], b[1..], x) else DiffersOnce(a[1..], b[1..], x)
  {
    var rest, after := a[1..], b[1..];
    assert forall j :: 0 <= j < |rest| ==> rest[j] == a[j + 1] && after[j] == b[j + 1];
    assert forall j :: 0 < j < |a| ==> a[j] == rest[j - 1] && b[j] == after[j - 1];
    if a[0].id == x && a[0].blob != b[0].blob {
      assert DiffersOnce(a, b, x) <==> OnlyDiffersAt(a, b, x, 0);
    } else {
      forall i | 0 <= i < |rest|
        ensures OnlyDiffersAt(rest, after, x, i) <==> OnlyDiffersAt(a, b, x, i + 1)
      {
      }
      if DiffersOnce(a, b, x) {
        var i :| 0 <= i < |a| && OnlyDiffersAt(a, b, x, i);
        assert OnlyDiffersAt(rest, after, x, i - 1);
      }
    }
  }

  lemma {:induction false} DifferingCounts(a: seq<Resource>, b: seq<Resource>, x: nat)
    requires |a| == |b|
    ensures multiset(Differing(a, b))[x] == 0 <==> !DiffersAt(a, b, x)
    ensures multiset(Differing(a, b))[x] == 1 <==> DiffersOnce(a, b, x)
  {
    if a != [] {
      DifferingCounts(a[1..], b[1..], x);
      DiffersAtTail(a, b, x);
      DiffersOnceTail(a, b, x);
    }
  }

  /** The ids a rewrite changes: those in the swap whose bytes there are not the old ones. */
  lemma RewriteDiffers(payloads: seq<Resource>, swap: Dict, x: nat)
    requires DistinctIds(payloads) && swap.Keys <= DictOf(payloads).Keys
    ensures x in Differing(payloads, Rewrite(payloads, swap)) <==> x in swap && swap[x] != DictOf(payloads)[x]
  {
    var after := Rewrite(payloads, swap);
    DictOfDistinct(payloads);
    DifferingIs(payloads, after, x);
    if x in swap && swap[x] != DictOf(payloads)[x] {
      var i :| 0 <= i < |payloads| && payloads[i].id == x;
      assert payloads[i].blob != after[i].blob;
    }
  }

  /** Every resource given is given other bytes than it had. */
  ghost predicate AllNew(held: Dict, swap: Dict)
    requires swap.Keys <= held.Keys
  {
    forall r :: r in swap ==> swap[r] != held[r]
  }

  lemma RewriteReads(target: Contents, swap: Dict)
    requires Write(target, swap).Ok?
    ensures Parse(Write(target, swap).value) == Ok(target.(payloads := Rewrite(target.payloads, swap)))
    ensures Ids(Rewrite(target.payloads, swap)) == Ids(target.payloads)
  {
    ParseBuild(target.(payloads := Rewrite(target.payloads, swap)));
  }

  /** Each id given new bytes has other bytes somewhere in the file. */
  ghost predicate ChangesEach(payloads: seq<Resource>, swap: Dict) {
    forall r :: r in swap ==> DiffersAt(payloads, Rewrite(payloads, swap), r)
  }

  /** The resources that change are in ascending order of their ids. */
  ghost predicate ChangesInOrder(payloads: seq<Resource>, swap: Dict) {
    DiffersInOrder(payloads, Rewrite(payloads, swap))
  }

  /** Some ids come in ascending order in the file. */
  ghost predicate InFileOrder(payloads: seq<Resource>, ids: set<nat>) {
    forall i, j :: 0 <= i < j < |payloads| && payloads[i].id in ids && payloads[j].id in ids ==>
      payloads[i].id < payloads[j].id
  }

  // ---------------------------------------------------------------------
  // Promises.

  /** The guard passes exactly when every id written to has other bytes somewhere, and the
      resources that change are in ascending order: so each of these ids changes once. */
  lemma SwapGuardPassesWhen(target: Contents, swap: Dict)
    requires swap.Keys <= DictOf(target.payloads).Keys && Write(target, swap).Ok?
    ensures SwapGuard(target, Write(target, swap).value, swap.Keys) <==>
      ChangesEach(target.payloads, swap) && ChangesInOrder(target.payloads, swap)
  {
    var payloads, after := target.payloads, Rewrite(target.payloads, swap);
    var changed, sorted := Differing(payloads, after), Sorted(swap.Keys, ID_LIMIT);
    RewriteReads(target, swap);
    SortedIsAscending(swap.Keys, ID_LIMIT);
    IdsBelowLimit(target, swap);
    DifferingAscendsWhen(payloads, after);
    forall x
      ensures x in changed <==> DiffersAt(payloads, after, x)
      ensures DiffersAt(payloads, after, x) ==> x in swap
    {
      DifferingIs(payloads, after, x);
    }
    if ChangesEach(payloads, swap) && ChangesInOrder(payloads, swap) {
      AscendingIsUnique(changed, sorted);
    }
  }

  /** Where no id is repeated, that is when every place gets other bytes than it had and
      the places are in ascending order in the file. */
  lemma DistinctChangeWhen(payloads: seq<Resource>, swap: Dict)
    requires DistinctIds(payloads) && swap.Keys <= DictOf(payloads).Keys
    ensures ChangesEach(payloads, swap) <==> AllNew(DictOf(payloads), swap)
    ensures AllNew(DictOf(payloads), swap) ==> (ChangesInOrder(payloads, swap) <==> InFileOrder(payloads, swap.Keys))
  {
    forall x
      ensures DiffersAt(payloads, Rewrite(payloads, swap), x) <==> x in swap && swap[x] != DictOf(payloads)[x]
    {
      RewriteDiffers(payloads, swap, x);
      DifferingIs(payloads, Rewrite(payloads, swap), x);
    }
    if AllNew(DictOf(payloads), swap) {
      OrderOfNew(payloads, swap);
    }
  }

  lemma OrderOfNew(payloads: seq<Resource>, swap: Dict)
    requires DistinctIds(payloads) && swap.Keys <= DictOf(payloads).Keys && AllNew(DictOf(payloads), swap)
    ensures DiffersInOrder(payloads, Rewrite(payloads, swap)) <==> InFileOrder(payloads, swap.Keys)
  {
    var after := Rewrite(payloads, swap);
    DictOfDistinct(payloads);
    assert forall i :: 0 <= i < |payloads| ==> (payloads[i].blob != after[i].blob <==> payloads[i].id in swap);
  }

  lemma IdsBelowLimit(target: Contents, swap: Dict)
    requires swap.Keys <= DictOf(target.payloads).Keys && Write(target, swap).Ok?
    ensures forall r :: r in swap ==> r < ID_LIMIT
  {
    DictOfAll(target.payloads);
    var after := Rewrite(target.payloads, swap);
    forall r | r in swap
      ensures r < ID_LIMIT
    {
      var i :| 0 <= i < |target.payloads| && target.payloads[i].id == r;
      assert after[i].id == r;
    }
  }

  /** Of the donors below `n` wanted at a place, the last. */
  ghost predicate IsLast(placing: Placing, wanted: set<nat>, n: nat, to: nat, r: nat)
  {
    && r in wanted && r in placing && r < n && placing[r] == to
    && forall q :: q in wanted && q in placing && r < q < n ==> placing[q] != to
  }

  /** Each place gets the bytes of the last donor wanted there. */
  lemma {:induction false} TakenIs(d: Dict, placing: Placing, wanted: set<nat>, n: nat)
    requires wanted <= placing.Keys && placing.Keys <= d.Keys
    ensures forall to, r :: IsLast(placing, wanted, n, to, r) ==>
      to in Taken(d, placing, wanted, n) && Taken(d, placing, wanted, n)[to] == d[r]
    ensures forall to :: to in Taken(d, placing, wanted, n) ==> exists r :: IsLast(placing, wanted, n, to, r)
    ensures forall r :: r in wanted && r < n ==> placing[r] in Taken(d, placing, wanted, n)
  {
    if n > 0 {
      var m := n - 1;
      TakenIs(d, placing, wanted, m);
      var before, swap := Taken(d, placing, wanted, m), Taken(d, placing, wanted, n);
      forall to: nat, r: nat | IsLast(placing, wanted, n, to, r)
        ensures to in swap && swap[to] == d[r]
      {
        assert r < m ==> IsLast(placing, wanted, m, to, r);
      }
      forall to: nat | to in swap
        ensures exists r :: IsLast(placing, wanted, n, to, r)
      {
        if m in wanted && placing[m] == to {
          assert IsLast(placing, wanted, n, to, m);
        } else {
          assert to in before;
          assert exists r :: IsLast(placing, wanted, m, to, r);
          var r: nat :| IsLast(placing, wanted, m, to, r);
          assert IsLast(placing, wanted, n, to, r);
        }
      }
    }
  }

  /** The places of some donors. */
  function PlacesOf(placing: Placing, wanted: set<nat>): set<nat>
    requires wanted <= placing.Keys
  {
    set r | r in wanted :: placing[r]
  }

  /** Whatever lands last at a place differs from what was there. */
  ghost predicate LastsDiffer(placing: Placing, wanted: set<nat>, changed: set<nat>)
    requires wanted <= placing.Keys
  {
    forall to, r :: IsLast(placing, wanted, ID_LIMIT, to, r) ==> r in changed
  }

  lemma TakenIsNewWhen(t: Dict, d: Dict, placing: Placing, wanted: set<nat>)
    requires IsPlacing(placing, t, d) && wanted <= placing.Keys
    ensures var swap := Taken(d, placing, wanted, ID_LIMIT);
      && swap.Keys == PlacesOf(placing, wanted) && swap.Keys <= t.Keys
      && (AllNew(t, swap) <==> LastsDiffer(placing, wanted, Changed(t, d, placing)))
  {
    var n := ID_LIMIT;
    var swap := Taken(d, placing, wanted, n);
    TakenIs(d, placing, wanted, n);
    forall to: nat | to in swap
      ensures to in t && to in PlacesOf(placing, wanted)
    {
      assert exists r :: IsLast(placing, wanted, n, to, r);
      var r: nat :| IsLast(placing, wanted, n, to, r);
    }
  }

  /** The swap, by any placing: it goes through exactly when something is to be done, all
      that is wanted has a place, nothing else differs, every place written to has other
      bytes somewhere, and what changes is in ascending order. */
  lemma SwapByGoesThroughWhen(target: Contents, d: Dict, placing: Placing, ids: Option<set<nat>>)
    requires IsPlacing(placing, DictOf(target.payloads), d)
    ensures var changed := set r | r in placing && d[r] != DictOf(target.payloads)[placing[r]];
      var wanted := if ids.Some? then ids.value else changed;
      SwapBy(target, d, placing, ids).Ok? <==>
        && wanted != {} && changed <= wanted <= placing.Keys
        && var swap := Taken(d, placing, wanted, ID_LIMIT);
           ChangesEach(target.payloads, swap) && ChangesInOrder(target.payloads, swap) && Write(target, swap).Ok?
  {
    var changed := Changed(DictOf(target.payloads), d, placing);
    var wanted := Wanted(changed, ids);
    if Objection(changed, placing, ids).None? {
      var swap := Taken(d, placing, wanted, ID_LIMIT);
      TakenIsNewWhen(DictOf(target.payloads), d, placing, wanted);
      if Write(target, swap).Ok? {
        SwapGuardPassesWhen(target, swap);
      }
    }
  }

  /** Why it refuses before anything is written: a donor asked for has no place, or nothing
      is asked for or differs, or a resource that is not asked for differs. */
  lemma SwapByRefusesWhen(target: Contents, d: Dict, placing: Placing, ids: Option<set<nat>>)
    requires IsPlacing(placing, DictOf(target.payloads), d)
    ensures var r, t := SwapBy(target, d, placing, ids), DictOf(target.payloads);
      && (r == Err(NotPlaced) <==> ids.Some? && exists x :: x in ids.value && x !in placing)
      && (r == Err(NothingToSwap) <==>
           if ids.Some? then ids.value == {} else forall x :: x in placing ==> d[x] == t[placing[x]])
      && (r == Err(Disagrees) <==>
           && ids.Some? && ids.value != {} && ids.value <= placing.Keys
           && exists x :: x in placing && x !in ids.value && d[x] != t[placing[x]])
  {
    var changed := Changed(DictOf(target.payloads), d, placing);
    if ids.None? {
      assert changed == {} <==> forall x :: x in placing ==> x !in changed;
    }
  }

  /** Where the target repeats no id: exactly when something is to be done, all that is
      wanted has a place, nothing else differs, whatever lands last at a place differs from
      what was there, and these places ascend in the file. */
  lemma DistinctSwapGoesThroughWhen(target: Contents, d: Dict, placing: Placing, ids: Option<set<nat>>)
    requires DistinctIds(target.payloads) && IsPlacing(placing, DictOf(target.payloads), d)
    ensures var changed := set r | r in placing && d[r] != DictOf(target.payloads)[placing[r]];
      var wanted := if ids.Some? then ids.value else changed;
      SwapBy(target, d, placing, ids).Ok? <==>
        && wanted != {} && changed <= wanted <= placing.Keys
        && LastsDiffer(placing, wanted, changed) && InFileOrder(target.payloads, PlacesOf(placing, wanted))
        && Write(target, Taken(d, placing, wanted, ID_LIMIT)).Ok?
  {
    var changed := Changed(DictOf(target.payloads), d, placing);
    var wanted := Wanted(changed, ids);
    SwapByGoesThroughWhen(target, d, placing, ids);
    if wanted <= placing.Keys {
      TakenIsNewWhen(DictOf(target.payloads), d, placing, wanted);
      DistinctChangeWhen(target.payloads, Taken(d, placing, wanted, ID_LIMIT));
    }
  }

  lemma SwapByIsWritten(target: Contents, d: Dict, placing: Placing, ids: Option<set<nat>>)
    requires IsPlacing(placing, DictOf(target.payloads), d) && SwapBy(target, d, placing, ids).Ok?
    ensures var wanted := Wanted(Changed(DictOf(target.payloads), d, placing), ids);
      && wanted <= placing.Keys
      && Parse(SwapBy(target, d, placing, ids).value) ==
         Ok(target.(payloads := Rewrite(target.payloads, Taken(d, placing, wanted, ID_LIMIT))))
      && Ids(Rewrite(target.payloads, Taken(d, placing, wanted, ID_LIMIT))) == Ids(target.payloads)
  {
    RewriteReads(target, Taken(d, placing, Wanted(Changed(DictOf(target.payloads), d, placing), ids), ID_LIMIT));
  }

  /** What is written: at each place the bytes of the last donor wanted there, and the old
      bytes elsewhere, with the order, the encoding and the aliases kept. */
  lemma SwapByWrites(target: Contents, d: Dict, placing: Placing, ids: Option<set<nat>>, i: nat)
    requires IsPlacing(placing, DictOf(target.payloads), d)
    requires SwapBy(target, d, placing, ids).Ok? && i < |target.payloads|
    ensures var changed := set r | r in placing && d[r] != DictOf(target.payloads)[placing[r]];
      var wanted := if ids.Some? then ids.value else changed;
      var back, id := Parse(SwapBy(target, d, placing, ids).value), target.payloads[i].id;
      && back.Ok? && SameShape(target, back.value) && |back.value.payloads| == |target.payloads|
      && back.value.payloads[i].id == id && wanted <= placing.Keys
      && (id !in PlacesOf(placing, wanted) ==> back.value.payloads[i].blob == target.payloads[i].blob)
      && forall r :: IsLast(placing, wanted, ID_LIMIT, id, r) ==> back.value.payloads[i].blob == d[r]
  {
    var changed := set r | r in placing && d[r] != DictOf(target.payloads)[placing[r]];
    assert changed == Changed(DictOf(target.payloads), d, placing);
    SwapByIsWritten(target, d, placing, ids);
    TakenIs(d, placing, Wanted(changed, ids), ID_LIMIT);
  }

  /** The resource at index `i` holds the bytes of every donor placed at its id. */
  ghost predicate HoldsAll(blob: Bytes, d: Dict, placing: Placing, id: nat)
    requires placing.Keys <= d.Keys
  {
    forall r :: r in placing && placing[r] == id ==> blob == d[r]
  }

  /** A resource, the last of its id, ends with the bytes of every donor placed there
      exactly when these donors hold the same bytes: where they do not, the swap goes through all the same. */
  lemma SwapIsFaithfulWhen(target: Contents, d: Dict, placing: Placing, ids: Option<set<nat>>, i: nat)
    requires IsPlacing(placing, DictOf(target.payloads), d) && SwapBy(target, d, placing, ids).Ok?
    requires i < |target.payloads| && IsLastOfId(target.payloads, i)
    ensures var back, id := Parse(SwapBy(target, d, placing, ids).value), target.payloads[i].id;
      && back.Ok? && |back.value.payloads| == |target.payloads|
      && (HoldsAll(back.value.payloads[i].blob, d, placing, id) <==>
           forall r, q :: r in placing && q in placing && placing[r] == id && placing[q] == id ==> d[r] == d[q])
  {
    var t, id := DictOf(target.payloads), target.payloads[i].id;
    var wanted := Wanted(Changed(t, d, placing), ids);
    SwapByGoesThroughWhen(target, d, placing, ids);
    SwapByWrites(target, d, placing, ids, i);
    DictOfAll(target.payloads);
    if id in PlacesOf(placing, wanted) {
      TakenIs(d, placing, wanted, ID_LIMIT);
      TakenIsNewWhen(t, d, placing, wanted);
      var last: nat :| IsLast(placing, wanted, ID_LIMIT, id, last);
    }
  }

  /** Where no two donors share a place, each resource ends with its donor's bytes. */
  lemma ApartSwapIsFaithful(target: Contents, d: Dict, placing: Placing, ids: Option<set<nat>>, r: nat, i: nat)
    requires IsPlacing(placing, DictOf(target.payloads), d) && SwapBy(target, d, placing, ids).Ok?
    requires i < |target.payloads| && IsLastOfId(target.payloads, i)
    requires r in placing && placing[r] == target.payloads[i].id
    requires forall q :: q in placing && placing[q] == placing[r] ==> q == r
    ensures var back := Parse(SwapBy(target, d, placing, ids).value);
      back.Ok? && |back.value.payloads| == |target.payloads| && back.value.payloads[i].blob == d[r]
  {
    SwapIsFaithfulWhen(target, d, placing, ids, i);
    var back := Parse(SwapBy(target, d, placing, ids).value).value;
    assert HoldsAll(back.payloads[i].blob, d, placing, placing[r]);
  }

  /** The ids two paks share, and those of them that hold the same bytes in both. */
  ghost function Shared(t: Dict, d: Dict): set<nat> {
    set r | r in t && r in d
  }

  ghost function Alike(t: Dict, d: Dict): set<nat> {
    set r | r in t && r in d && t[r] == d[r]
  }

  lemma SameIdsChange(t: Dict, d: Dict)
    requires Sixteen(d)
    ensures SameIds(t, d).Keys == Shared(t, d)
    ensures Changed(t, d, SameIds(t, d)) == Shared(t, d) - Alike(t, d)
    ensures HasDrifted(t, d) <==> |Shared(t, d)| >= 20 && 2 * |Alike(t, d)| < |Shared(t, d)|
  {
    var same := SameIds(t, d);
    assert same.Keys - Changed(t, d, same) == Alike(t, d);
    assert |same| == |same.Keys|;
  }

  /** Same-id mode refuses paks that have drifted: exactly those with twenty shared ids or
      more of which fewer than half hold the same bytes. */
  lemma SwapIsDriftedWhen(target: Contents, donor: Contents, ids: Option<set<nat>>)
    requires Sixteen(DictOf(donor.payloads))
    ensures var t, d := DictOf(target.payloads), DictOf(donor.payloads);
      Swap(target, donor, ids) == Err(Drifted) <==> |Shared(t, d)| >= 20 && 2 * |Alike(t, d)| < |Shared(t, d)|
  {
    SameIdsChange(DictOf(target.payloads), DictOf(donor.payloads));
  }

  /** Same-id mode, past that: the tool goes through exactly when something is to be done,
      the ids asked for are shared and hold all whose bytes differ, each of them has other
      bytes somewhere, and what changes is in ascending order. Where the target repeats no
      id, these are exactly the ids whose bytes differ. */
  lemma SwapGoesThroughWhen(target: Contents, donor: Contents, ids: Option<set<nat>>)
    requires Sixteen(DictOf(donor.payloads))
    ensures var t, d := DictOf(target.payloads), DictOf(donor.payloads);
      var differ := Shared(t, d) - Alike(t, d); var wanted := if ids.Some? then ids.value else differ;
      Swap(target, donor, ids).Ok? <==>
        && (|Shared(t, d)| < 20 || 2 * |Alike(t, d)| >= |Shared(t, d)|)
        && wanted != {} && differ <= wanted <= Shared(t, d) == SameIds(t, d).Keys
        && var swap := Taken(d, SameIds(t, d), wanted, ID_LIMIT);
           ChangesEach(target.payloads, swap) && ChangesInOrder(target.payloads, swap) && Write(target, swap).Ok?
    ensures var t, d := DictOf(target.payloads), DictOf(donor.payloads); var differ := Shared(t, d) - Alike(t, d);
      DistinctIds(target.payloads) ==> (Swap(target, donor, ids).Ok? <==>
        && (|Shared(t, d)| < 20 || 2 * |Alike(t, d)| >= |Shared(t, d)|)
        && differ != {} && (ids.Some? ==> ids.value == differ) && differ <= SameIds(t, d).Keys
        && InFileOrder(target.payloads, differ) && Write(target, Taken(d, SameIds(t, d), differ, ID_LIMIT)).Ok?)
  {
    var t, d := DictOf(target.payloads), DictOf(donor.payloads);
    SameIdsChange(t, d);
    SwapByGoesThroughWhen(target, d, SameIds(t, d), ids);
    if DistinctIds(target.payloads) {
      SameIdsGoThroughWhen(target, d, ids);
    }
  }

  lemma SameIdsGoThroughWhen(target: Contents, d: Dict, ids: Option<set<nat>>)
    requires DistinctIds(target.payloads) && Sixteen(d)
    ensures var same := SameIds(DictOf(target.payloads), d); var changed := Changed(DictOf(target.payloads), d, same);
      SwapBy(target, d, same, ids).Ok? <==>
        && changed != {} && Wanted(changed, ids) == changed
        && InFileOrder(target.payloads, changed) && Write(target, Taken(d, same, changed, ID_LIMIT)).Ok?
  {
    var t := DictOf(target.payloads);
    var same := SameIds(t, d);
    var wanted := Wanted(Changed(t, d, same), ids);
    var changed := Changed(t, d, same);
    DistinctSwapGoesThroughWhen(target, d, same, ids);
    if wanted == changed {
      SameIdsDiffer(t, d, changed);
    } else if changed <= wanted <= same.Keys {
      SameIdsDiffer(t, d, wanted);
      assert !LastsDiffer(same, wanted, changed);
    }
  }

  lemma SameIdsDiffer(t: Dict, d: Dict, wanted: set<nat>)
    requires Sixteen(d) && wanted <= SameIds(t, d).Keys
    ensures PlacesOf(SameIds(t, d), wanted) == wanted
    ensures LastsDiffer(SameIds(t, d), wanted, Changed(t, d, SameIds(t, d))) <==> wanted <= Changed(t, d, SameIds(t, d))
  {
    assert forall r :: r in wanted ==> IsLast(SameIds(t, d), wanted, ID_LIMIT, r, r);
  }

  /** What is written holds the donor's bytes on every shared id, in the last resource of
      it, and the old bytes on every other, with the order, the encoding and the aliases kept. */
  lemma SwapWrites(target: Contents, donor: Contents, ids: Option<set<nat>>, i: nat)
    requires Sixteen(DictOf(donor.payloads)) && Swap(target, donor, ids).Ok?
    requires i < |target.payloads| && IsLastOfId(target.payloads, i)
    ensures var d, back, id := DictOf(donor.payloads), Parse(Swap(target, donor, ids).value), target.payloads[i].id;
      && back.Ok? && SameShape(target, back.value) && |back.value.payloads| == |target.payloads|
      && back.value.payloads[i].id == id
      && back.value.payloads[i].blob == if id in d then d[id] else target.payloads[i].blob
  {
    var t, d, id := DictOf(target.payloads), DictOf(donor.payloads), target.payloads[i].id;
    var same := SameIds(t, d);
    DictOfAll(target.payloads);
    SwapByWrites(target, d, same, ids, i);
    SwapIsFaithfulWhen(target, d, same, ids, i);
    if id in d {
      assert id in same && same[id] == id;
    } else {
      assert id !in PlacesOf(same, Wanted(Changed(t, d, same), ids));
    }
  }

  lemma ChangesOnceWhen(payloads: seq<Resource>, placed: Dict)
    ensures multiset(Differing(payloads, Rewrite(payloads, placed))) == multiset(placed.Keys) <==>
      forall x :: x in placed ==> DiffersOnce(payloads, Rewrite(payloads, placed), x)
  {
    var after := Rewrite(payloads, placed);
    forall x
      ensures multiset(Differing(payloads, after))[x] == 1 <==> DiffersOnce(payloads, after, x)
      ensures x !in placed ==> multiset(Differing(payloads, after))[x] == 0
    {
      DifferingCounts(payloads, after, x);
    }
    CountsOnceEach(multiset(Differing(payloads, after)), placed.Keys);
  }

  lemma CountsOnceEach(m: multiset<nat>, s: set<nat>)
    requires forall x :: x !in s ==> m[x] == 0
    ensures m == multiset(s) <==> forall x :: x in s ==> m[x] == 1
  {
    if forall x :: x in s ==> m[x] == 1 {
      forall x: nat
        ensures m[x] == multiset(s)[x]
      {
      }
    } else {
      var x :| x in s && m[x] != 1;
      assert multiset(s)[x] == 1;
    }
  }

  /** The set tool goes through exactly when each id placed has other bytes in exactly one
      place, and then writes exactly those. */
  lemma PlaceGoesThroughWhen(target: Contents, placed: Dict)
    requires placed.Keys <= DictOf(target.payloads).Keys
    ensures Place(target, placed).Ok? <==>
      Write(target, placed).Ok? &&
      forall x :: x in placed ==> DiffersOnce(target.payloads, Rewrite(target.payloads, placed), x)
    ensures Place(target, placed).Ok? ==>
      Parse(Place(target, placed).value) == Ok(target.(payloads := Rewrite(target.payloads, placed)))
  {
    if Write(target, placed).Ok? {
      RewriteReads(target, placed);
      ChangesOnceWhen(target.payloads, placed);
    }
  }

  /** Where the target repeats no id, that is when each resource placed has other bytes than
      it had. */
  lemma DistinctPlaceGoesThroughWhen(target: Contents, placed: Dict)
    requires DistinctIds(target.payloads) && placed.Keys <= DictOf(target.payloads).Keys
    ensures Place(target, placed).Ok? <==> Write(target, placed).Ok? && AllNew(DictOf(target.payloads), placed)
  {
    var payloads, after := target.payloads, Rewrite(target.payloads, placed);
    PlaceGoesThroughWhen(target, placed);
    forall x
      ensures DiffersOnce(payloads, after, x) <==> x in placed && placed[x] != DictOf(payloads)[x]
    {
      RewriteDiffers(payloads, placed, x);
      DifferingIs(payloads, after, x);
      if DiffersAt(payloads, after, x) {
        var i :| 0 <= i < |payloads| && payloads[i].id == x && payloads[i].blob != after[i].blob;
        assert OnlyDiffersAt(payloads, after, x, i);
      }
    }
  }
}
