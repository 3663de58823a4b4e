/**
 Copying and moving with conflict modes (files-app/backend.py:115-123, 154-237,
 1588-1701): first as functions on the filesystem, then as the methods that
 change it step by step.
 */
module FileOps {
  import opened Wrappers
  import opened Names
  import opened FileTree

  datatype Conflict = KeepBoth | Replace | Skip | FailIfExists

  datatype Problem = Incomplete | Missing | Taken | IntoItself | NoSpace | OsError | NotText | NotFiled

  // ---------------------------------------------------------------------
  // The fresh-name search.

  function Candidate(parent: Path, name: string, n: nat): Path {
    parent + [Numbered(name, n)]
  }

  /** The taken candidates from number `n` on. */
  ghost function TakenFrom(fs: FileMap, parent: Path, name: string, n: nat): set<Path> {
    set p | p in fs && exists k: nat :: n <= k && p == Candidate(parent, name, k)
  }

  lemma TakenShrinks(fs: FileMap, parent: Path, name: string, n: nat)
    requires Candidate(parent, name, n) in fs
    ensures |TakenFrom(fs, parent, name, n + 1)| < |TakenFrom(fs, parent, name, n)|
  {
    var now, next, c := TakenFrom(fs, parent, name, n), TakenFrom(fs, parent, name, n + 1), Candidate(parent, name, n);
    assert c in now;
    if c in next {
      var k: nat :| n + 1 <= k && c == Candidate(parent, name, k);
      assert c[|parent|] == Numbered(name, k);
      NumberedInjective(name, n, k);
    }
    assert next <= now - {c};
    SubsetSize(next, now - {c});
  }

  lemma {:induction false} SubsetSize<T>(a: set<T>, b: set<T>)
    requires a <= b
    ensures |a| <= |b|
  {
    if a != {} {
      var x :| x in a;
      SubsetSize(a - {x}, b - {x});
    }
  }

  /** The least number from `n` on whose name is free. A directory is finite and the
      numbered names are all different, so there is one. */
  function LeastFree(fs: FileMap, parent: Path, name: string, n: nat): (k: nat)
    ensures k >= n && Candidate(parent, name, k) !in fs
    ensures forall j: nat :: n <= j < k ==> Candidate(parent, name, j) in fs
    decreases |TakenFrom(fs, parent, name, n)|
  {
    if Candidate(parent, name, n) !in fs then n
    else
      TakenShrinks(fs, parent, name, n);
      LeastFree(fs, parent, name, n + 1)
  }

  function UniquePath(fs: FileMap, parent: Path, name: string): (p: Path)
    ensures p !in fs && p != [] && Parent(p) == parent
  {
    if parent + [name] !in fs then parent + [name]
    else Candidate(parent, name, LeastFree(fs, parent, name, 2))
  }

  /** The name itself if it is free, and else the first free of the numbered ones from two on. */
  lemma UniqueIs(fs: FileMap, parent: Path, name: string)
    ensures if parent + [name] !in fs then UniquePath(fs, parent, name) == parent + [name]
      else exists k: nat ::
        && k >= 2 && UniquePath(fs, parent, name) == parent + [Numbered(name, k)] && parent + [Numbered(name, k)] !in fs
        && forall j: nat :: 2 <= j < k ==> parent + [Numbered(name, j)] in fs
  {
    if parent + [name] in fs {
      var k := LeastFree(fs, parent, name, 2);
      forall j: nat | 2 <= j < k
        ensures parent + [Numbered(name, j)] in fs
      {
        assert Candidate(parent, name, j) in fs;
      }
    }
  }

  lemma FreeIsUnique(fs: FileMap, parent: Path, name: string)
    requires parent + [name] !in fs
    ensures UniquePath(fs, parent, name) == parent + [name]
  {
  }

  method FindUnique(nodes: FileMap, parent: Path, name: string) returns (p: Path)
    ensures p == UniquePath(nodes, parent, name)
  {
    p := parent + [name];
    if p !in nodes {
      return;
    }
    var i := 2;
    p := Candidate(parent, name, i);
    while p in nodes
      invariant i >= 2 && p == Candidate(parent, name, i)
      invariant LeastFree(nodes, parent, name, i) == LeastFree(nodes, parent, name, 2)
      decreases |TakenFrom(nodes, parent, name, i)|
    {
      TakenShrinks(nodes, parent, name, i);
      i := i + 1;
      p := Candidate(parent, name, i);
    }
  }

  // ---------------------------------------------------------------------
  // One source.

  /** Where a source lands: nowhere if it is skipped. */
  function Resolve(fs: FileMap, dst: Path, conflict: Conflict): Result<Option<Path>, Problem>
    requires dst != []
  {
    if dst !in fs then Ok(Some(dst)) else
    match conflict
    case KeepBoth => Ok(Some(UniquePath(fs, Parent(dst), Leaf(dst))))
    case Replace => Ok(Some(dst))
    case Skip => Ok(None)
    case FailIfExists => Err(Taken)
  }

  datatype Outcome<T> = Outcome(fs: FileMap, r: Result<T, Problem>)

  /** What is removed before a copy or a move. */
  function Cleared(fs: FileMap, final: Path, conflict: Conflict): FileMap {
    if conflict == Replace then RemoveTree(fs, final) else fs
  }

  /** Whatever the mode, the destination is free by the time anything is written, so
      the fallbacks for a folder already in the way are never taken. */
  lemma ResolvedIsFree(fs: FileMap, dst: Path, conflict: Conflict)
    requires Closed(fs) && dst != [] && Resolve(fs, dst, conflict).Ok? && Resolve(fs, dst, conflict).value.Some?
    ensures Free(Cleared(fs, Resolve(fs, dst, conflict).value.value, conflict), Resolve(fs, dst, conflict).value.value)
  {
    var final := Resolve(fs, dst, conflict).value.value;
    if conflict != Replace {
      AbsentIsFree(fs, final);
    }
  }

  function CopyOne(fs: FileMap, src: Path, dst: Path, conflict: Conflict): Outcome<Option<Path>>
    requires dst != []
  {
    match Resolve(fs, dst, conflict)
    case Err(e) => Outcome(fs, Err(e))
    case Ok(None) => Outcome(fs, Ok(None))
    case Ok(Some(final)) =>
      var cleared := Cleared(fs, final, conflict);
      if src !in cleared then Outcome(cleared, Err(OsError))
      else Outcome(CopyTree(cleared, src, final), Ok(Some(final)))
  }

  /** A rename cannot put a folder below itself. */
  function MoveOne(fs: FileMap, src: Path, dst: Path, conflict: Conflict): Outcome<Option<Path>>
    requires dst != []
  {
    match Resolve(fs, dst, conflict)
    case Err(e) => Outcome(fs, Err(e))
    case Ok(None) => Outcome(fs, Ok(None))
    case Ok(Some(final)) =>
      var cleared := Cleared(fs, final, conflict);
      if src !in cleared || src <= final then Outcome(cleared, Err(OsError))
      else Outcome(RenameTree(cleared, src, final), Ok(Some(final)))
  }

  // ---------------------------------------------------------------------
  // A request: sources with the leaf each lands under, in one folder.

  datatype Item = Item(src: Path, leaf: string)

  function LeafFor(src: Path, typed: Option<string>): string {
    if typed.Some? && typed.value != "" then typed.value else if src == [] then "" else Leaf(src)
  }

  function Items(srcs: seq<Path>, names: seq<Option<string>>): (items: seq<Item>)
    requires |names| == |srcs|
    ensures |items| == |srcs| && forall i :: 0 <= i < |srcs| ==> items[i] == Item(srcs[i], LeafFor(srcs[i], names[i]))
  {
    seq(|srcs|, i requires 0 <= i < |srcs| => Item(srcs[i], LeafFor(srcs[i], names[i])))
  }

  function Listed(out: Option<Path>): seq<Path> {
    if out.Some? then [out.value] else []
  }

  function Prepend(done: seq<Path>, o: Outcome<seq<Path>>): Outcome<seq<Path>> {
    if o.r.Err? then o else Outcome(o.fs, Ok(done + o.r.value))
  }

  lemma PrependNothing(o: Outcome<seq<Path>>)
    ensures Prepend([], o) == o
  {
    if o.r.Ok? {
      assert [] + o.r.value == o.r.value;
    }
  }

  lemma PrependTwice(a: seq<Path>, b: seq<Path>, o: Outcome<seq<Path>>)
    ensures Prepend(a, Prepend(b, o)) == Prepend(a + b, o)
  {
    if o.r.Ok? {
      assert a + (b + o.r.value) == (a + b) + o.r.value;
    }
  }

  function CopyItems(fs: FileMap, items: seq<Item>, dest: Path, conflict: Conflict): Outcome<seq<Path>>
    decreases |items|
  {
    if items == [] then Outcome(fs, Ok([])) else
    var one := CopyOne(fs, items[0].src, dest + [items[0].leaf], conflict);
    match one.r
    case Err(e) => Outcome(one.fs, Err(e))
    case Ok(out) =>
      Prepend(Listed(out), CopyItems(one.fs, items[1..], dest, conflict))
  }

  function MoveItems(fs: FileMap, items: seq<Item>, dest: Path, conflict: Conflict): Outcome<seq<Path>>
    decreases |items|
  {
    if items == [] then Outcome(fs, Ok([])) else
    var one := MoveOne(fs, items[0].src, dest + [items[0].leaf], conflict);
    match one.r
    case Err(e) => Outcome(one.fs, Err(e))
    case Ok(out) =>
      Prepend(Listed(out), MoveItems(one.fs, items[1..], dest, conflict))
  }

  /** The source is the destination folder, or the destination lies inside it. */
  predicate Blocked(fs: FileMap, src: Path, dest: Path) {
    var resolved := RealPath(fs, src);
    resolved == dest || (resolved != [] && resolved <= dest)
  }

  function CheckSources(fs: FileMap, items: seq<Item>, dest: Path): Option<Problem> {
    if items == [] then None
    else if items[0].src !in fs then Some(Missing)
    else if Blocked(fs, items[0].src, dest) then Some(IntoItself)
    else CheckSources(fs, items[1..], dest)
  }

  function Check(fs: FileMap, items: seq<Item>, dest: Path, enoughSpace: bool): Option<Problem> {
    if items == [] then Some(Incomplete)
    else if !IsFolder(fs, dest) then Some(Missing)
    else if CheckSources(fs, items, dest).Some? then CheckSources(fs, items, dest)
    else if !enoughSpace then Some(NoSpace)
    else None
  }

  // ---------------------------------------------------------------------
  // The operations, on a filesystem that changes in place.

  class FileSystem {
    var nodes: FileMap

    constructor (nodes: FileMap)
      ensures this.nodes == nodes
    {
      this.nodes := nodes;
    }

    method ResolveDest(dst: Path, conflict: Conflict) returns (r: Result<Option<Path>, Problem>)
      requires dst != []
      ensures r == Resolve(nodes, dst, conflict)
    {
      if dst !in nodes {
        return Ok(Some(dst));
      }
      match conflict {
        case KeepBoth =>
          var p := FindUnique(nodes, Parent(dst), Leaf(dst));
          r := Ok(Some(p));
        case Replace => r := Ok(Some(dst));
        case Skip => r := Ok(None);
        case FailIfExists => r := Err(Taken);
      }
    }

    method CopyToResolved(src: Path, dst: Path, conflict: Conflict) returns (r: Result<Option<Path>, Problem>)
      requires dst != []
      modifies this
      ensures Outcome(nodes, r) == CopyOne(old(nodes), src, dst, conflict)
    {
      r := ResolveDest(dst, conflict);
      if r.Err? || r.value.None? {
        return;
      }
      var final := r.value.value;
      if conflict == Replace {
        nodes := RemoveTree(nodes, final);
      }
      if src !in nodes {
        return Err(OsError);
      }
      nodes := CopyTree(nodes, src, final);
    }

    method MoveToResolved(src: Path, dst: Path, conflict: Conflict) returns (r: Result<Option<Path>, Problem>)
      requires dst != []
      modifies this
      ensures Outcome(nodes, r) == MoveOne(old(nodes), src, dst, conflict)
    {
      r := ResolveDest(dst, conflict);
      if r.Err? || r.value.None? {
        return;
      }
      var final := r.value.value;
      if conflict == Replace {
        nodes := RemoveTree(nodes, final);
      }
      if src !in nodes || src <= final {
        return Err(OsError);
      }
      nodes := RenameTree(nodes, src, final);
    }

    method CheckRequest(items: seq<Item>, dest: Path, enoughSpace: bool) returns (problem: Option<Problem>)
      ensures problem == Check(nodes, items, dest, enoughSpace)
    {
      if items == [] {
        return Some(Incomplete);
      }
      if !IsFolder(nodes, dest) {
        return Some(Missing);
      }
      var i := 0;
      while i < |items|
        invariant 0 <= i <= |items|
        invariant CheckSources(nodes, items, dest) == CheckSources(nodes, items[i..], dest)
      {
        if items[i].src !in nodes {
          return Some(Missing);
        }
        if Blocked(nodes, items[i].src, dest) {
          return Some(IntoItself);
        }
        assert items[i..][1..] == items[i + 1..];
        i := i + 1;
      }
      return if enoughSpace then None else Some(NoSpace);
    }

    method Copy(srcs: seq<Path>, names: seq<Option<string>>, dest: Path, conflict: Conflict, enoughSpace: bool)
      returns (r: Result<seq<Path>, Problem>)
      requires |names| == |srcs|
      modifies this
      ensures var items := Items(srcs, names);
        if Check(old(nodes), items, dest, enoughSpace).Some? then
          r == Err(Check(old(nodes), items, dest, enoughSpace).value) && nodes == old(nodes)
        else Outcome(nodes, r) == CopyItems(old(nodes), items, dest, conflict)
    {
      var items := Items(srcs, names);
      var problem := CheckRequest(items, dest, enoughSpace);
      if problem.Some? {
        return Err(problem.value);
      }
      var done: seq<Path> := [];
      var i := 0;
      ghost var spec := CopyItems(nodes, items, dest, conflict);
      PrependNothing(spec);
      assert items[0..] == items;
      while i < |items|
        invariant 0 <= i <= |items|
        invariant spec == Prepend(done, CopyItems(nodes, items[i..], dest, conflict))
      {
        assert items[i..][1..] == items[i + 1..];
        var out := CopyToResolved(items[i].src, dest + [items[i].leaf], conflict);
        if out.Err? {
          return Err(out.error);
        }
        PrependTwice(done, Listed(out.value), CopyItems(nodes, items[i + 1..], dest, conflict));
        done := done + Listed(out.value);
        i := i + 1;
      }
      assert done + [] == done;
      r := Ok(done);
    }

    method Move(srcs: seq<Path>, names: seq<Option<string>>, dest: Path, conflict: Conflict, enoughSpace: bool)
      returns (r: Result<seq<Path>, Problem>)
      requires |names| == |srcs|
      modifies this
      ensures var items := Items(srcs, names);
        if Check(old(nodes), items, dest, enoughSpace).Some? then
          r == Err(Check(old(nodes), items, dest, enoughSpace).value) && nodes == old(nodes)
        else Outcome(nodes, r) == MoveItems(old(nodes), items, dest, conflict)
    {
      var items := Items(srcs, names);
      var problem := CheckRequest(items, dest, enoughSpace);
      if problem.Some? {
        return Err(problem.value);
      }
      var done: seq<Path> := [];
      var i := 0;
      ghost var spec := MoveItems(nodes, items, dest, conflict);
      PrependNothing(spec);
      assert items[0..] == items;
      while i < |items|
        invariant 0 <= i <= |items|
        invariant spec == Prepend(done, MoveItems(nodes, items[i..], dest, conflict))
      {
        assert items[i..][1..] == items[i + 1..];
        var out := MoveToResolved(items[i].src, dest + [items[i].leaf], conflict);
        if out.Err? {
          return Err(out.error);
        }
        PrependTwice(done, Listed(out.value), MoveItems(nodes, items[i + 1..], dest, conflict));
        done := done + Listed(out.value);
        i := i + 1;
      }
      assert done + [] == done;
      r := Ok(done);
    }
  }
}

/** What the operations promise. */
module FileOpsPromises {
  import opened Wrappers
  import opened Names
  import opened FileTree
  import opened FileOps

  /** A request that passes the checks names only existing sources, none of which
      holds the destination folder. */
  lemma {:induction false} ChecksSuffice(fs: FileMap, items: seq<Item>, dest: Path)
    requires Closed(fs) && IsFolder(fs, dest) && CheckSources(fs, items, dest).None?
    requires forall i :: 0 <= i < |items| ==> items[i].src != []
    ensures forall i :: 0 <= i < |items| ==> items[i].src in fs && !(items[i].src <= dest)
  {
    if items != [] {
      var src := items[0].src;
      if src <= dest {
        AncestorsExist(fs, src, dest);
      }
      forall i | 0 <= i < |items[1..]|
        ensures items[1..][i].src != []
      {
        assert items[1..][i] == items[i + 1];
      }
      ChecksSuffice(fs, items[1..], dest);
      forall i | 0 <= i < |items|
        ensures items[i].src in fs && !(items[i].src <= dest)
      {
        if i > 0 {
          assert items[i] == items[1..][i - 1];
        }
      }
    }
  }

  /** The destination is the source itself, once resolved, or inside it. */
  ghost predicate HoldsIt(fs: FileMap, src: Path, dest: Path) {
    var at := if src in fs && fs[src].Link? then fs[src].target else src;
    at == dest || (at != [] && at < dest)
  }

  ghost predicate IsGood(fs: FileMap, src: Path, dest: Path) {
    src in fs && !HoldsIt(fs, src, dest)
  }

  ghost predicate IsFirstBad(fs: FileMap, items: seq<Item>, dest: Path, i: nat) {
    && i < |items| && !IsGood(fs, items[i].src, dest)
    && forall j :: 0 <= j < i ==> IsGood(fs, items[j].src, dest)
  }

  lemma {:induction false} SourcesPassWhen(fs: FileMap, items: seq<Item>, dest: Path)
    ensures CheckSources(fs, items, dest).None? <==> forall i :: 0 <= i < |items| ==> IsGood(fs, items[i].src, dest)
    ensures forall i: nat :: IsFirstBad(fs, items, dest, i) ==>
      CheckSources(fs, items, dest) == Some(if items[i].src !in fs then Missing else IntoItself)
  {
    if items != [] {
      var tail := items[1..];
      assert forall i :: 0 < i < |items| ==> items[i] == tail[i - 1];
      assert forall i :: 0 <= i < |tail| ==> tail[i] == items[i + 1];
      SourcesPassWhen(fs, tail, dest);
      assert CheckSources(fs, items, dest) ==
        if items[0].src !in fs then Some(Missing)
        else if HoldsIt(fs, items[0].src, dest) then Some(IntoItself) else CheckSources(fs, tail, dest);
      forall i: nat | IsFirstBad(fs, items, dest, i) && i > 0
        ensures IsFirstBad(fs, tail, dest, i - 1) && IsGood(fs, items[0].src, dest)
      {
      }
    }
  }

  /** A request passes exactly when it names something, into a folder, that is there and does
      not hold the folder, and there is room; and what fails first is the answer. */
  lemma ChecksPassWhen(fs: FileMap, items: seq<Item>, dest: Path, enoughSpace: bool)
    ensures Check(fs, items, dest, enoughSpace).None? <==>
      && items != [] && dest in fs && fs[dest] == Folder && enoughSpace
      && forall i :: 0 <= i < |items| ==> IsGood(fs, items[i].src, dest)
    ensures items == [] ==> Check(fs, items, dest, enoughSpace) == Some(Incomplete)
    ensures items != [] && !(dest in fs && fs[dest] == Folder) ==> Check(fs, items, dest, enoughSpace) == Some(Missing)
    ensures items != [] && dest in fs && fs[dest] == Folder ==>
      forall i: nat :: IsFirstBad(fs, items, dest, i) ==>
        Check(fs, items, dest, enoughSpace) == Some(if items[i].src !in fs then Missing else IntoItself)
  {
    SourcesPassWhen(fs, items, dest);
  }

  /** Two children of one folder have nothing below both. */
  lemma SiblingsApart(p: Path, q: Path, r: Path)
    requires p != [] && q != [] && Parent(p) == Parent(q) && p != q
    ensures !(p <= q + r)
  {
    assert p == Parent(p) + [Leaf(p)] && q == Parent(q) + [Leaf(q)];
    NotBelow(p, q, r);
  }

  /** A fresh child of a folder that a source does not hold is apart from the source. */
  lemma FreshIsApart(fs: FileMap, src: Path, dest: Path, out: Path)
    requires Closed(fs) && src in fs && out !in fs && !(src <= dest)
    requires out != [] && Parent(out) == dest
    ensures !(src <= out) && !(out <= src)
  {
    AbsentIsFree(fs, out);
    assert out == dest + [Leaf(out)];
  }

  /** `after` is `fs` with one more tree, at `out`. */
  lemma OneMoreTreeKeeps(fs: FileMap, after: FileMap, out: Path, p: Path)
    requires forall q :: q in fs ==> q in after && after[q] == fs[q]
    requires forall q :: q in after && q !in fs ==> out <= q
    requires !(p <= out) && !(out <= p)
    ensures SameTree(fs, p, after, p)
  {
    forall r | p + r in after
      ensures p + r in fs
    {
      NotBelow(out, p, r);
    }
  }

  // ---------------------------------------------------------------------
  // Copying and keeping both.

  /** Every path that was there is unchanged, and each source has a faithful copy at a
      path of its own in `dest` that was free; nothing else has appeared. */
  ghost predicate CopiesAdded(fs: FileMap, items: seq<Item>, dest: Path, after: FileMap, outs: seq<Path>) {
    && |outs| == |items|
    && (forall p :: p in fs ==> p in after && after[p] == fs[p])
    && (forall k :: 0 <= k < |outs| ==> outs[k] != [] && Parent(outs[k]) == dest && outs[k] !in fs)
    && (forall k :: 0 <= k < |outs| ==> SameTree(fs, items[k].src, after, outs[k]))
    && (forall j, k :: 0 <= j < k < |outs| ==> outs[j] != outs[k])
    && (forall p :: p in after && p !in fs ==> exists k :: 0 <= k < |outs| && outs[k] <= p)
  }

  lemma CopyOneKeepsBoth(fs: FileMap, src: Path, dest: Path, leaf: string)
    requires Closed(fs) && IsFolder(fs, dest) && src in fs && !(src <= dest)
    ensures var one := CopyOne(fs, src, dest + [leaf], KeepBoth);
      && one.r.Ok? && one.r.value.Some?
      && var out := one.r.value.value;
         && Closed(one.fs)
         && out != [] && Parent(out) == dest && out !in fs && out in one.fs && !(src <= out) && !(out <= src)
         && (forall p :: p in fs ==> p in one.fs && one.fs[p] == fs[p])
         && (forall p :: p in one.fs && p !in fs ==> out <= p)
         && SameTree(fs, src, one.fs, out)
  {
    var dst := dest + [leaf];
    assert Parent(dst) == dest && Leaf(dst) == leaf;
    var one := CopyOne(fs, src, dst, KeepBoth);
    var out := one.r.value.value;
    AbsentIsFree(fs, out);
    CopyTreeAdds(fs, src, out);
    CopyTreeClosed(fs, src, out);
    FreshIsApart(fs, src, dest, out);
    assert src + [] == src && out + [] == out;
  }

  lemma {:induction false} CopyKeepsBoth(fs: FileMap, items: seq<Item>, dest: Path)
    requires Closed(fs) && IsFolder(fs, dest)
    requires forall i :: 0 <= i < |items| ==> items[i].src in fs && !(items[i].src <= dest)
    ensures var o := CopyItems(fs, items, dest, KeepBoth);
      o.r.Ok? && Closed(o.fs) && CopiesAdded(fs, items, dest, o.fs, o.r.value)
    decreases |items|
  {
    if items != [] {
      CopyOneKeepsBoth(fs, items[0].src, dest, items[0].leaf);
      var one := CopyOne(fs, items[0].src, dest + [items[0].leaf], KeepBoth);
      var tail := items[1..];
      assert forall i :: 0 <= i < |tail| ==> tail[i] == items[i + 1];
      CopyKeepsBoth(one.fs, tail, dest);
      var rest := CopyItems(one.fs, tail, dest, KeepBoth);
      CopyStep(fs, items, dest, one.r.value.value, one.fs, rest.fs, rest.r.value);
    }
  }

  lemma CopyStep(fs: FileMap, items: seq<Item>, dest: Path, out: Path, mid: FileMap, after: FileMap, outs: seq<Path>)
    requires Closed(fs) && items != [] && forall i :: 0 <= i < |items| ==> items[i].src in fs && !(items[i].src <= dest)
    requires out != [] && Parent(out) == dest && out !in fs && out in mid
    requires forall p :: p in fs ==> p in mid && mid[p] == fs[p]
    requires forall p :: p in mid && p !in fs ==> out <= p
    requires SameTree(fs, items[0].src, mid, out)
    requires CopiesAdded(mid, items[1..], dest, after, outs)
    ensures CopiesAdded(fs, items, dest, after, [out] + outs)
  {
    CopyStays(fs, dest, out, mid, items[1..], after, outs);
    CopiedWhole(fs, items, dest, out, mid, after, outs);
    UnderOneMore(fs, mid, after, out, outs);
  }

  /** Every source's copy is whole. */
  lemma CopiedWhole(fs: FileMap, items: seq<Item>, dest: Path, out: Path, mid: FileMap, after: FileMap, outs: seq<Path>)
    requires Closed(fs) && items != [] && forall i :: 0 <= i < |items| ==> items[i].src in fs && !(items[i].src <= dest)
    requires out != [] && Parent(out) == dest && out !in fs
    requires forall p :: p in fs ==> p in mid && mid[p] == fs[p]
    requires forall p :: p in mid && p !in fs ==> out <= p
    requires SameTree(fs, items[0].src, mid, out) && SameTree(mid, out, after, out)
    requires CopiesAdded(mid, items[1..], dest, after, outs)
    ensures forall k :: 0 <= k < |items| ==> SameTree(fs, items[k].src, after, ([out] + outs)[k])
  {
    var all := [out] + outs;
    SameTreeTrans(fs, items[0].src, mid, out, after, out);
    forall k | 0 < k < |items|
      ensures SameTree(fs, items[k].src, after, all[k])
    {
      assert items[k] == items[1..][k - 1] && all[k] == outs[k - 1];
      FreshIsApart(fs, items[k].src, dest, out);
      OneMoreTreeKeeps(fs, mid, out, items[k].src);
      SameTreeTrans(fs, items[k].src, mid, items[k].src, after, outs[k - 1]);
    }
  }

  lemma UnderOneMore(fs: FileMap, mid: FileMap, after: FileMap, out: Path, outs: seq<Path>)
    requires forall p :: p in mid ==> p in fs || out <= p
    requires forall p :: p in after ==> p in mid || exists k :: 0 <= k < |outs| && outs[k] <= p
    ensures forall p :: p in after ==> p in fs || exists k :: 0 <= k < |[out] + outs| && ([out] + outs)[k] <= p
  {
    var all := [out] + outs;
    forall p | p in after
      ensures p in fs || exists k :: 0 <= k < |all| && all[k] <= p
    {
      if p in mid {
        assert p in fs || all[0] <= p;
      } else {
        var k :| 0 <= k < |outs| && outs[k] <= p;
        assert all[k + 1] <= p;
      }
    }
  }

  /** A finished copy is left alone by the copies after it. */
  lemma CopyStays(fs: FileMap, dest: Path, out: Path, mid: FileMap, tail: seq<Item>, after: FileMap, outs: seq<Path>)
    requires out != [] && Parent(out) == dest && out in mid
    requires CopiesAdded(mid, tail, dest, after, outs)
    ensures SameTree(mid, out, after, out)
    ensures out !in outs
  {
    forall r | out + r in after
      ensures out + r in mid
    {
      forall k | 0 <= k < |outs|
        ensures !(outs[k] <= out + r)
      {
        SiblingsApart(outs[k], out, r);
      }
    }
  }

  // ---------------------------------------------------------------------
  // The names that copies and moves are given.

  /** Under which name something lands where some paths are taken: the name asked for if that
      is not, and else the first of the numbered ones from two on that is not. */
  ghost predicate IsNamed(taken: iset<Path>, dest: Path, leaf: string, out: Path) {
    if dest + [leaf] !in taken then out == dest + [leaf]
    else exists n: nat :: IsNumbered(taken, dest, leaf, n) && out == dest + [Numbered(leaf, n)]
  }

  ghost predicate IsNumbered(taken: iset<Path>, dest: Path, leaf: string, n: nat) {
    && n >= 2 && dest + [Numbered(leaf, n)] !in taken
    && forall m: nat :: 2 <= m < n ==> dest + [Numbered(leaf, m)] in taken
  }

  /** Only what is taken in the folder itself counts. */
  lemma NamedAlike(a: iset<Path>, b: iset<Path>, dest: Path, leaf: string, out: Path)
    requires forall name: string {:trigger dest + [name]} :: dest + [name] in a <==> dest + [name] in b
    requires IsNamed(a, dest, leaf, out)
    ensures IsNamed(b, dest, leaf, out)
  {
    if dest + [leaf] in a {
      var n: nat :| IsNumbered(a, dest, leaf, n) && out == dest + [Numbered(leaf, n)];
      assert IsNumbered(b, dest, leaf, n);
    }
  }

  ghost function There(fs: FileMap): iset<Path> {
    iset p | p in fs
  }

  lemma UniqueIsNamed(fs: FileMap, dest: Path, leaf: string)
    ensures IsNamed(There(fs), dest, leaf, Resolve(fs, dest + [leaf], KeepBoth).value.value)
  {
    UniqueIs(fs, dest, leaf);
    assert Parent(dest + [leaf]) == dest && Leaf(dest + [leaf]) == leaf;
    if dest + [leaf] in fs {
      var k: nat :| k >= 2 && UniquePath(fs, dest, leaf) == dest + [Numbered(leaf, k)]
        && dest + [Numbered(leaf, k)] !in fs && forall j: nat :: 2 <= j < k ==> dest + [Numbered(leaf, j)] in fs;
      assert IsNumbered(There(fs), dest, leaf, k);
    }
  }

  /** What is taken when the `k`th copy is made. */
  ghost function TakenBy(fs: FileMap, outs: seq<Path>, k: nat): iset<Path>
    requires k <= |outs|
  {
    iset p | p in fs || p in outs[..k]
  }

  ghost predicate AllNamed(fs: FileMap, items: seq<Item>, dest: Path, outs: seq<Path>) {
    && |outs| == |items|
    && forall k :: 0 <= k < |items| ==> IsNamed(TakenBy(fs, outs, k), dest, items[k].leaf, outs[k])
  }

  /** Every copy that keeps both is given the first name free at its turn. */
  lemma {:induction false} CopyNames(fs: FileMap, items: seq<Item>, dest: Path)
    requires Closed(fs) && IsFolder(fs, dest)
    requires forall i :: 0 <= i < |items| ==> items[i].src in fs && !(items[i].src <= dest)
    ensures var o := CopyItems(fs, items, dest, KeepBoth); o.r.Ok? && AllNamed(fs, items, dest, o.r.value)
    decreases |items|
  {
    if items != [] {
      var tail := items[1..];
      var mid, out := FirstCopy(fs, items, dest);
      CopyNames(mid, tail, dest);
      UniqueIsNamed(fs, dest, items[0].leaf);
      NamesJoin(fs, items, dest, mid, out, CopyItems(mid, tail, dest, KeepBoth).r.value);
    }
  }

  lemma FirstCopy(fs: FileMap, items: seq<Item>, dest: Path) returns (mid: FileMap, out: Path)
    requires Closed(fs) && IsFolder(fs, dest) && items != []
    requires forall i :: 0 <= i < |items| ==> items[i].src in fs && !(items[i].src <= dest)
    ensures CopyItems(fs, items, dest, KeepBoth) == Prepend([out], CopyItems(mid, items[1..], dest, KeepBoth))
    ensures Closed(mid) && IsFolder(mid, dest)
    ensures forall i :: 0 <= i < |items[1..]| ==> items[1..][i].src in mid && !(items[1..][i].src <= dest)
    ensures out == Resolve(fs, dest + [items[0].leaf], KeepBoth).value.value
    ensures out != [] && Parent(out) == dest && out in mid
    ensures (forall p :: p in fs ==> p in mid) && forall p :: p in mid && p !in fs ==> out <= p
  {
    CopyOneKeepsBoth(fs, items[0].src, dest, items[0].leaf);
    var one := CopyOne(fs, items[0].src, dest + [items[0].leaf], KeepBoth);
    mid, out := one.fs, one.r.value.value;
    assert forall i :: 0 <= i < |items[1..]| ==> items[1..][i] == items[i + 1];
  }

  lemma NamesJoin(fs: FileMap, items: seq<Item>, dest: Path, mid: FileMap, out: Path, outs: seq<Path>)
    requires items != [] && out != [] && Parent(out) == dest && out in mid
    requires (forall p :: p in fs ==> p in mid) && forall p :: p in mid && p !in fs ==> out <= p
    requires IsNamed(There(fs), dest, items[0].leaf, out)
    requires AllNamed(mid, items[1..], dest, outs)
    ensures AllNamed(fs, items, dest, [out] + outs)
  {
    var all := [out] + outs;
    forall name: string {:trigger dest + [name]} | dest + [name] in mid && dest + [name] !in fs
      ensures dest + [name] == out
    {
      assert |out| == |dest + [name]|;
    }
    forall k | 0 <= k < |items|
      ensures IsNamed(TakenBy(fs, all, k), dest, items[k].leaf, all[k])
    {
      if k == 0 {
        NamedAlike(There(fs), TakenBy(fs, all, 0), dest, items[0].leaf, out);
      } else {
        assert all[..k] == [out] + outs[..k - 1] && items[k] == items[1..][k - 1];
        NamedAlike(TakenBy(mid, outs, k - 1), TakenBy(fs, all, k), dest, items[k].leaf, outs[k - 1]);
      }
    }
  }

  /** A name typed for a source is the one it is to land under; otherwise its own is. */
  lemma TypedNameCounts(srcs: seq<Path>, names: seq<Option<string>>, k: nat)
    requires |names| == |srcs| && k < |srcs| && srcs[k] != []
    ensures var items := Items(srcs, names);
      && |items| == |srcs| && items[k].src == srcs[k]
      && (names[k].Some? && names[k].value != "" ==> items[k].leaf == names[k].value)
      && (names[k].None? || names[k].value == "" ==> items[k].leaf == srcs[k][|srcs[k]| - 1])
  {
  }

  // ---------------------------------------------------------------------
  // Moving and keeping both.

  ghost predicate Outside(items: seq<Item>, p: Path) {
    forall k :: 0 <= k < |items| ==> !(items[k].src <= p)
  }

  /** All content is conserved: each source's tree is whole at a path of its own in
      `dest`, what was outside the sources is unchanged and not written over, and
      there is nothing else. */
  ghost predicate TreesMoved(fs: FileMap, items: seq<Item>, dest: Path, after: FileMap, outs: seq<Path>) {
    && |outs| == |items|
    && (forall p :: p in fs && Outside(items, p) ==> p in after && after[p] == fs[p])
    && (forall p, k :: p in fs && Outside(items, p) && 0 <= k < |outs| ==> !(outs[k] <= p))
    && (forall k :: 0 <= k < |outs| ==> outs[k] != [] && Parent(outs[k]) == dest)
    && (forall j, k :: 0 <= j < k < |outs| ==> outs[j] != outs[k])
    && (forall k :: 0 <= k < |outs| ==> SameTree(fs, items[k].src, after, outs[k]))
    && (forall p :: p in after ==> (p in fs && Outside(items, p)) || exists k :: 0 <= k < |outs| && outs[k] <= p)
  }

  ghost predicate NoneNested(items: seq<Item>) {
    forall j, k :: 0 <= j < |items| && 0 <= k < |items| && j != k ==> !(items[j].src <= items[k].src)
  }

  lemma MoveOneKeepsBoth(fs: FileMap, src: Path, dest: Path, leaf: string)
    requires Closed(fs) && IsFolder(fs, dest) && src in fs && !(src <= dest)
    ensures var one := MoveOne(fs, src, dest + [leaf], KeepBoth);
      && one.r.Ok? && one.r.value.Some?
      && var out := one.r.value.value;
         && Closed(one.fs) && IsFolder(one.fs, dest)
         && out != [] && Parent(out) == dest && out !in fs && out in one.fs && !(src <= out) && !(out <= src)
         && (forall p :: p in fs && !(src <= p) ==> p in one.fs && one.fs[p] == fs[p])
         && (forall p :: p in one.fs ==> !(src <= p) && (p in fs || out <= p))
         && SameTree(fs, src, one.fs, out)
  {
    var dst := dest + [leaf];
    assert Parent(dst) == dest && Leaf(dst) == leaf;
    var out := Resolve(fs, dst, KeepBoth).value.value;
    AbsentIsFree(fs, out);
    FreshIsApart(fs, src, dest, out);
    var one := MoveOne(fs, src, dst, KeepBoth);
    assert one == Outcome(RenameTree(fs, src, out), Ok(Some(out)));
    RenameTreeMoves(fs, src, out);
    RenameTreeClosed(fs, src, out);
    assert src + [] == src && out + [] == out;
  }

  lemma {:induction false} MoveKeepsBoth(fs: FileMap, items: seq<Item>, dest: Path)
    requires Closed(fs) && IsFolder(fs, dest) && NoneNested(items)
    requires forall i :: 0 <= i < |items| ==> items[i].src in fs && !(items[i].src <= dest)
    ensures var o := MoveItems(fs, items, dest, KeepBoth);
      o.r.Ok? && Closed(o.fs) && TreesMoved(fs, items, dest, o.fs, o.r.value)
    decreases |items|
  {
    if items != [] {
      MoveOneKeepsBoth(fs, items[0].src, dest, items[0].leaf);
      var one := MoveOne(fs, items[0].src, dest + [items[0].leaf], KeepBoth);
      var tail := items[1..];
      assert forall i :: 0 <= i < |tail| ==> tail[i] == items[i + 1];
      MoveKeepsBoth(one.fs, tail, dest);
      var rest := MoveItems(one.fs, tail, dest, KeepBoth);
      MoveStep(fs, items, dest, one.r.value.value, one.fs, rest.fs, rest.r.value);
    }
  }

  /** A source the first move did not touch is still there, tree and all. */
  lemma OtherSourceStays(fs: FileMap, src: Path, out: Path, mid: FileMap, other: Path, dest: Path)
    requires Closed(fs) && other in fs && !(other <= dest) && out !in fs && out != [] && Parent(out) == dest
    requires forall p :: p in fs && !(src <= p) ==> p in mid && mid[p] == fs[p]
    requires forall p :: p in mid ==> !(src <= p) && (p in fs || out <= p)
    requires !(src <= other) && !(other <= src)
    ensures SameTree(fs, other, mid, other)
  {
    FreshIsApart(fs, other, dest, out);
    forall r | other + r in fs
      ensures !(src <= other + r)
    {
      NotBelow(src, other, r);
    }
    forall r | other + r in mid
      ensures other + r in fs
    {
      NotBelow(out, other, r);
    }
  }

  lemma OutsideCons(items: seq<Item>, p: Path)
    requires items != []
    ensures Outside(items, p) <==> !(items[0].src <= p) && Outside(items[1..], p)
  {
    var tail := items[1..];
    assert forall k :: 0 <= k < |tail| ==> tail[k] == items[k + 1];
    if !(items[0].src <= p) && Outside(tail, p) {
      forall k | 0 <= k < |items|
        ensures !(items[k].src <= p)
      {
        if k > 0 {
          assert !(tail[k - 1].src <= p);
        }
      }
    }
    if Outside(items, p) {
      forall k | 0 <= k < |tail|
        ensures !(tail[k].src <= p)
      {
        assert !(items[k + 1].src <= p);
      }
    }
  }

  /** Nothing below a tree moved into `dest` is inside a source yet to move. */
  lemma MovedIsOutside(fs: FileMap, items: seq<Item>, dest: Path, out: Path, r: Path)
    requires Closed(fs) && out !in fs && out != [] && Parent(out) == dest
    requires forall i :: 0 <= i < |items| ==> items[i].src in fs && !(items[i].src <= dest)
    ensures Outside(items, out + r)
  {
    forall k | 0 <= k < |items|
      ensures !(items[k].src <= out + r)
    {
      FreshIsApart(fs, items[k].src, dest, out);
      NotBelow(items[k].src, out, r);
    }
  }

  /** The tree moved first is left alone by the moves after it. */
  lemma OutStays(fs: FileMap, tail: seq<Item>, dest: Path, out: Path, mid: FileMap, after: FileMap, outs: seq<Path>)
    requires Closed(fs) && out != [] && Parent(out) == dest && out !in fs && out in mid
    requires forall i :: 0 <= i < |tail| ==> tail[i].src in fs && !(tail[i].src <= dest)
    requires TreesMoved(mid, tail, dest, after, outs)
    ensures SameTree(mid, out, after, out)
    ensures out !in outs
  {
    MovedIsOutside(fs, tail, dest, out, []);
    assert out + [] == out;
    forall r | out + r in mid
      ensures out + r in after && after[out + r] == mid[out + r]
    {
      MovedIsOutside(fs, tail, dest, out, r);
    }
    forall r | out + r in after
      ensures out + r in mid
    {
      forall k | 0 <= k < |outs|
        ensures !(outs[k] <= out + r)
      {
        SiblingsApart(outs[k], out, r);
      }
    }
  }

  /** Every source's tree ends up whole at its own place. */
  lemma MovedWhole(fs: FileMap, items: seq<Item>, dest: Path, out: Path, mid: FileMap, after: FileMap, outs: seq<Path>)
    requires Closed(fs) && items != [] && NoneNested(items)
    requires forall i :: 0 <= i < |items| ==> items[i].src in fs && !(items[i].src <= dest)
    requires out != [] && Parent(out) == dest && out !in fs && out in mid
    requires forall p :: p in fs && !(items[0].src <= p) ==> p in mid && mid[p] == fs[p]
    requires forall p :: p in mid ==> !(items[0].src <= p) && (p in fs || out <= p)
    requires SameTree(fs, items[0].src, mid, out)
    requires TreesMoved(mid, items[1..], dest, after, outs)
    ensures out !in outs
    ensures forall k :: 0 <= k < |items| ==> SameTree(fs, items[k].src, after, ([out] + outs)[k])
  {
    var tail := items[1..];
    assert forall i :: 0 <= i < |tail| ==> tail[i] == items[i + 1];
    OutStays(fs, tail, dest, out, mid, after, outs);
    SameTreeTrans(fs, items[0].src, mid, out, after, out);
    forall k | 0 <= k < |tail|
      ensures SameTree(fs, tail[k].src, after, outs[k])
    {
      var other := tail[k].src;
      assert SameTree(mid, other, after, outs[k]);
      OtherSourceStays(fs, items[0].src, out, mid, other, dest);
      SameTreeTrans(fs, other, mid, other, after, outs[k]);
    }
  }

  lemma MoveStep(fs: FileMap, items: seq<Item>, dest: Path, out: Path, mid: FileMap, after: FileMap, outs: seq<Path>)
    requires Closed(fs) && items != [] && NoneNested(items)
    requires forall i :: 0 <= i < |items| ==> items[i].src in fs && !(items[i].src <= dest)
    requires out != [] && Parent(out) == dest && out !in fs && out in mid
    requires forall p :: p in fs && !(items[0].src <= p) ==> p in mid && mid[p] == fs[p]
    requires forall p :: p in mid ==> !(items[0].src <= p) && (p in fs || out <= p)
    requires SameTree(fs, items[0].src, mid, out)
    requires TreesMoved(mid, items[1..], dest, after, outs)
    ensures TreesMoved(fs, items, dest, after, [out] + outs)
  {
    var all := [out] + outs;
    MovedWhole(fs, items, dest, out, mid, after, outs);
    OutsApart(dest, out, outs);
    forall p | p in fs && Outside(items, p)
      ensures p in after && after[p] == fs[p]
      ensures forall k :: 0 <= k < |all| ==> !(all[k] <= p)
    {
      OutsideStays(fs, items, dest, out, mid, after, outs, p);
    }
    forall p | p in after
      ensures (p in fs && Outside(items, p)) || exists k :: 0 <= k < |all| && all[k] <= p
    {
      MovedOrKept(fs, items, dest, out, mid, after, outs, p);
    }
  }

  lemma OutsApart(dest: Path, out: Path, outs: seq<Path>)
    requires out != [] && Parent(out) == dest && out !in outs
    requires forall k :: 0 <= k < |outs| ==> outs[k] != [] && Parent(outs[k]) == dest
    requires forall j, k :: 0 <= j < k < |outs| ==> outs[j] != outs[k]
    ensures var all := [out] + outs;
      && (forall k :: 0 <= k < |all| ==> all[k] != [] && Parent(all[k]) == dest)
      && forall j, k :: 0 <= j < k < |all| ==> all[j] != all[k]
  {
  }

  lemma OutsideStays(fs: FileMap, items: seq<Item>, dest: Path, out: Path, mid: FileMap,
    after: FileMap, outs: seq<Path>, p: Path)
    requires Closed(fs) && items != [] && out !in fs && p in fs && Outside(items, p)
    requires forall q :: q in fs && !(items[0].src <= q) ==> q in mid && mid[q] == fs[q]
    requires TreesMoved(mid, items[1..], dest, after, outs)
    ensures p in after && after[p] == fs[p]
    ensures forall k :: 0 <= k < |[out] + outs| ==> !(([out] + outs)[k] <= p)
  {
    AbsentIsFree(fs, out);
    OutsideCons(items, p);
  }

  lemma MovedOrKept(fs: FileMap, items: seq<Item>, dest: Path, out: Path, mid: FileMap,
    after: FileMap, outs: seq<Path>, p: Path)
    requires items != [] && p in after
    requires forall q :: q in mid ==> !(items[0].src <= q) && (q in fs || out <= q)
    requires TreesMoved(mid, items[1..], dest, after, outs)
    ensures (p in fs && Outside(items, p)) || exists k :: 0 <= k < |[out] + outs| && ([out] + outs)[k] <= p
  {
    var all := [out] + outs;
    OutsideCons(items, p);
    if p in mid && Outside(items[1..], p) {
      assert p in fs || all[0] <= p;
    } else {
      var k :| 0 <= k < |outs| && outs[k] <= p;
      assert all[k + 1] <= p;
    }
  }

  // ---------------------------------------------------------------------
  // Replacing.

  /** Replacing makes the destination a faithful copy and leaves everything else as it
      was, exactly when the destination is neither the source nor above it. In the
      other case the source is removed first and the copy fails. */
  lemma ReplaceIsFaithful(fs: FileMap, src: Path, dst: Path)
    requires Closed(fs) && src in fs && dst != [] && !(src < dst)
    ensures var one := CopyOne(fs, src, dst, Replace);
      && (dst <= src <==> one == Outcome(RemoveTree(fs, dst), Err(OsError)))
      && (dst <= src <==> src !in one.fs)
      && (!(dst <= src) <==> one.r == Ok(Some(dst)) && SameTree(fs, src, one.fs, dst) && SameTree(fs, src, one.fs, src))
      && (forall p :: p in fs && !(dst <= p) ==> p in one.fs && one.fs[p] == fs[p])
      && (forall p :: p in one.fs && !(dst <= p) ==> p in fs)
  {
    var cleared := RemoveTree(fs, dst);
    var final := if dst in fs then cleared else fs;
    if dst !in fs {
      AbsentIsFree(fs, dst);
      assert cleared == fs;
    }
    CopyTreeAdds(cleared, src, dst);
    if !(dst <= src) {
      assert !(src <= dst);
      forall r
        ensures !(dst <= src + r)
      {
        NotBelow(dst, src, r);
      }
      forall r
        ensures !(src <= dst + r)
      {
        NotBelow(src, dst, r);
      }
      assert SameTree(fs, src, cleared, src);
      SameTreeTrans(fs, src, cleared, src, CopyTree(cleared, src, dst), dst);
    } else {
      assert src + [] == src;
    }
  }

  /** Skipping an existing destination and refusing one change nothing. */
  lemma TakenIsLeftAlone(fs: FileMap, src: Path, dst: Path, conflict: Conflict)
    requires dst != [] && dst in fs && conflict in {Skip, FailIfExists}
    ensures CopyOne(fs, src, dst, conflict) == Outcome(fs, if conflict == Skip then Ok(None) else Err(Taken))
    ensures MoveOne(fs, src, dst, conflict) == Outcome(fs, if conflict == Skip then Ok(None) else Err(Taken))
  {
  }

  /** A keep-both copy that passes the checks: every existing path is unchanged, and
      each source has its own fresh, faithful copy. */
  lemma CopyPromise(fs: FileMap, items: seq<Item>, dest: Path)
    requires Closed(fs) && Check(fs, items, dest, true).None?
    requires forall i :: 0 <= i < |items| ==> items[i].src != []
    ensures var o := CopyItems(fs, items, dest, KeepBoth); o.r.Ok? && CopiesAdded(fs, items, dest, o.fs, o.r.value)
  {
    ChecksSuffice(fs, items, dest);
    CopyKeepsBoth(fs, items, dest);
  }

  /** A keep-both move of sources none of which holds another: all content is conserved. */
  lemma MovePromise(fs: FileMap, items: seq<Item>, dest: Path)
    requires Closed(fs) && Check(fs, items, dest, true).None? && NoneNested(items)
    requires forall i :: 0 <= i < |items| ==> items[i].src != []
    ensures var o := MoveItems(fs, items, dest, KeepBoth); o.r.Ok? && TreesMoved(fs, items, dest, o.fs, o.r.value)
  {
    ChecksSuffice(fs, items, dest);
    MoveKeepsBoth(fs, items, dest);
  }
}
