/**
 Surface trees of any shape, and the one list a root keeps of its tree
 (chromiumos-ash/aurade-weston-shell.c:444-516, 1202-1237). A list holds its
 topmost surface first.
 */
module SurfaceTrees {
  import opened Sequences
  import opened Stacking
  import opened ShellObjects

  /** The parent of every live surface, and a bound on the length of its chain. */
  datatype Links = Links(parent: map<Surface, Surface?>, depth: map<Surface, nat>)

  /** Parents are live and chains end. */
  ghost predicate Forest(l: Links) {
    && l.parent.Keys == l.depth.Keys
    && forall s {:trigger l.parent[s]} :: s in l.parent && l.parent[s] != null ==>
       l.parent[s] in l.parent && l.depth[l.parent[s]] < l.depth[s]
  }

  /** `ancestor` is on the parent chain of `s`, which starts at `s` itself. */
  ghost predicate IsDescendant(l: Links, s: Surface, ancestor: Surface)
    requires Forest(l) && s in l.parent
    decreases l.depth[s]
  {
    s == ancestor || (l.parent[s] != null && IsDescendant(l, l.parent[s], ancestor))
  }

  ghost function Descendants(l: Links, ancestor: Surface): set<Surface>
    requires Forest(l)
  {
    set s | s in l.parent && IsDescendant(l, s, ancestor)
  }

  ghost function Others(l: Links, ancestor: Surface): set<Surface>
    requires Forest(l)
  {
    l.parent.Keys - Descendants(l, ancestor)
  }

  ghost function RootOf(l: Links, s: Surface): (r: Surface)
    requires Forest(l) && s in l.parent
    ensures r in l.parent && l.parent[r] == null
    decreases l.depth[s]
  {
    if l.parent[s] == null then s else RootOf(l, l.parent[s])
  }

  /** A list holds members of its root's tree only, each once. */
  ghost predicate HoldsOnly(l: Links, list: seq<Surface>, root: Surface)
    requires Forest(l)
  {
    Distinct(list) && forall x :: x in list ==> x in l.parent && RootOf(l, x) == root
  }

  /** Every root's list holds exactly its tree, each surface once. */
  ghost predicate ListsHoldTrees(l: Links, lists: map<Surface, seq<Surface>>) {
    && Forest(l) && lists.Keys == l.parent.Keys
    && (forall r {:trigger lists[r]} :: r in l.parent && l.parent[r] == null ==> HoldsOnly(l, lists[r], r))
    && (forall s {:trigger RootOf(l, s)} :: s in l.parent ==> s in lists[RootOf(l, s)])
  }

  function Cut(l: Links, s: Surface): Links {
    l.(parent := l.parent[s := null])
  }

  lemma {:induction false} DescendantSharesRoot(l: Links, s: Surface, ancestor: Surface)
    requires Forest(l) && s in l.parent && ancestor in l.parent && IsDescendant(l, s, ancestor)
    ensures RootOf(l, s) == RootOf(l, ancestor)
    decreases l.depth[s]
  {
    if s != ancestor {
      DescendantSharesRoot(l, l.parent[s], ancestor);
    }
  }

  /** Cutting a surface from its parent keeps its descendants and makes it their root. */
  lemma {:induction false} CutMakesRoot(l: Links, cut: Surface, s: Surface)
    requires Forest(l) && s in l.parent && cut in l.parent
    ensures Forest(Cut(l, cut))
    ensures IsDescendant(Cut(l, cut), s, cut) == IsDescendant(l, s, cut)
    ensures RootOf(Cut(l, cut), s) == if IsDescendant(l, s, cut) then cut else RootOf(l, s)
    decreases l.depth[s]
  {
    if s != cut && l.parent[s] != null {
      CutMakesRoot(l, cut, l.parent[s]);
    }
  }

  lemma CutKeepsDescendants(l: Links, cut: Surface)
    requires Forest(l) && cut in l.parent
    ensures Forest(Cut(l, cut)) && Descendants(Cut(l, cut), cut) == Descendants(l, cut)
  {
    forall s | s in l.parent
      ensures IsDescendant(Cut(l, cut), s, cut) == IsDescendant(l, s, cut)
    {
      CutMakesRoot(l, cut, s);
    }
  }

  /** The lists after a child becomes a root: its old root's list split in two. */
  ghost function Split(l: Links, lists: map<Surface, seq<Surface>>, s: Surface): map<Surface, seq<Surface>>
    requires Forest(l) && s in l.parent && lists.Keys == l.parent.Keys
  {
    var root := RootOf(l, s);
    lists[s := Filter(lists[root], Descendants(l, s))][root := Filter(lists[root], Others(l, s))]
  }

  lemma CutRoots(l: Links, s: Surface)
    requires Forest(l) && s in l.parent
    ensures Forest(Cut(l, s))
    ensures forall x :: x in l.parent ==> RootOf(Cut(l, s), x) == if IsDescendant(l, x, s) then s else RootOf(l, x)
    ensures forall x :: x in l.parent && IsDescendant(l, x, s) ==> RootOf(l, x) == RootOf(l, s)
  {
    CutKeepsDescendants(l, s);
    forall x | x in l.parent
      ensures RootOf(Cut(l, s), x) == if IsDescendant(l, x, s) then s else RootOf(l, x)
      ensures IsDescendant(l, x, s) ==> RootOf(l, x) == RootOf(l, s)
    {
      CutMakesRoot(l, s, x);
      if IsDescendant(l, x, s) {
        DescendantSharesRoot(l, x, s);
      }
    }
  }

  lemma SplitHoldsOnly(l: Links, lists: map<Surface, seq<Surface>>, s: Surface, r: Surface)
    requires ListsHoldTrees(l, lists) && s in l.parent && l.parent[s] != null
    requires r in l.parent && (r == s || l.parent[r] == null)
    ensures Forest(Cut(l, s)) && HoldsOnly(Cut(l, s), Split(l, lists, s)[r], r)
  {
    CutRoots(l, s);
    var root := RootOf(l, s);
    assert HoldsOnly(l, lists[root], root);
    if r != s && r != root {
      assert HoldsOnly(l, lists[r], r);
    }
  }

  lemma SplitMissesNone(l: Links, lists: map<Surface, seq<Surface>>, s: Surface, x: Surface)
    requires ListsHoldTrees(l, lists) && s in l.parent && l.parent[s] != null && x in l.parent
    ensures Forest(Cut(l, s)) && x in Split(l, lists, s)[RootOf(Cut(l, s), x)]
  {
    CutRoots(l, s);
    assert x in lists[RootOf(l, x)];
    assert x in Descendants(l, s) || x in Others(l, s);
    assert RootOf(l, s) != s && RootOf(l, x) != s;
  }

  lemma SplitRootsHold(l: Links, lists: map<Surface, seq<Surface>>, s: Surface)
    requires ListsHoldTrees(l, lists) && s in l.parent && l.parent[s] != null
    ensures Forest(Cut(l, s))
    ensures forall r {:trigger Split(l, lists, s)[r]} :: r in Cut(l, s).parent && Cut(l, s).parent[r] == null ==>
      HoldsOnly(Cut(l, s), Split(l, lists, s)[r], r)
  {
    CutKeepsDescendants(l, s);
    forall r | r in Cut(l, s).parent && Cut(l, s).parent[r] == null
      ensures HoldsOnly(Cut(l, s), Split(l, lists, s)[r], r)
    {
      SplitHoldsOnly(l, lists, s, r);
    }
  }

  lemma SplitHoldsAll(l: Links, lists: map<Surface, seq<Surface>>, s: Surface)
    requires ListsHoldTrees(l, lists) && s in l.parent && l.parent[s] != null
    ensures Forest(Cut(l, s))
    ensures forall x {:trigger RootOf(Cut(l, s), x)} :: x in l.parent ==>
      x in Split(l, lists, s)[RootOf(Cut(l, s), x)]
  {
    CutKeepsDescendants(l, s);
    forall x | x in l.parent
      ensures x in Split(l, lists, s)[RootOf(Cut(l, s), x)]
    {
      SplitMissesNone(l, lists, s, x);
    }
  }

  /** Splitting at a child leaves every list holding exactly its tree. */
  lemma SplitHoldsTrees(l: Links, lists: map<Surface, seq<Surface>>, s: Surface)
    requires ListsHoldTrees(l, lists) && s in l.parent && l.parent[s] != null
    ensures ListsHoldTrees(Cut(l, s), Split(l, lists, s))
  {
    SplitRootsHold(l, lists, s);
    SplitHoldsAll(l, lists, s);
  }

  /** The old root's members are shared out between the two lists, with none lost or
      duplicated, each list in the old order. */
  lemma SplitSharesOut(l: Links, lists: map<Surface, seq<Surface>>, s: Surface, x: Surface, y: Surface)
    requires ListsHoldTrees(l, lists) && s in l.parent && l.parent[s] != null
    requires x in lists[RootOf(l, s)] && y in lists[RootOf(l, s)]
    ensures var root, after := RootOf(l, s), Split(l, lists, s);
      && multiset(after[s]) + multiset(after[root]) == multiset(lists[root])
      && (x in after[s] && y in after[s] ==> (Before(after[s], x, y) <==> Before(lists[root], x, y)))
      && (x in after[root] && y in after[root] ==> (Before(after[root], x, y) <==> Before(lists[root], x, y)))
  {
    var list := lists[RootOf(l, s)];
    SplitKeepsAll(list, Descendants(l, s), Others(l, s));
    if x in Descendants(l, s) && y in Descendants(l, s) {
      FilterKeepsOrder(list, Descendants(l, s), x, y);
    }
    if x in Others(l, s) && y in Others(l, s) {
      FilterKeepsOrder(list, Others(l, s), x, y);
    }
  }

  /** The lists after the subtree of `s` has been raised within the list of `root`. */
  ghost function Raised(l: Links, list: seq<Surface>, s: Surface): seq<Surface>
    requires Forest(l)
  {
    Filter(list, Descendants(l, s)) + Filter(list, Others(l, s))
  }

  /** Raising keeps every list's tree. */
  lemma RaisedHoldsTrees(l: Links, lists: map<Surface, seq<Surface>>, root: Surface, s: Surface)
    requires ListsHoldTrees(l, lists) && root in l.parent && l.parent[root] == null
    ensures ListsHoldTrees(l, lists[root := Raised(l, lists[root], s)])
  {
    DistinctAppend(Filter(lists[root], Descendants(l, s)), Filter(lists[root], Others(l, s)));
    forall x | x in lists[root]
      ensures x in Raised(l, lists[root], s)
    {
      assert x in Descendants(l, s) || x in Others(l, s);
    }
  }

  /** Raising puts the subtree first, in its old order, ahead of the rest in theirs,
      with nothing lost or duplicated. */
  lemma RaisedKeepsOrder(l: Links, list: seq<Surface>, s: Surface, x: Surface, y: Surface)
    requires Forest(l) && Distinct(list) && x in list && y in list && forall z :: z in list ==> z in l.parent
    ensures multiset(Raised(l, list, s)) == multiset(list)
    ensures Before(Raised(l, list, s), x, y) <==>
      if IsDescendant(l, x, s) == IsDescendant(l, y, s) then Before(list, x, y) else IsDescendant(l, x, s)
  {
    var raised := Raised(l, list, s);
    RaisedOrder(list, Descendants(l, s), Others(l, s), raised, x, y);
    RaisedOrder(list, Descendants(l, s), Others(l, s), raised, y, x);
  }
}
