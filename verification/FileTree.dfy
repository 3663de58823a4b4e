/**
 A filesystem as a map from absolute paths to nodes, and the primitives that
 `files-app/backend.py` leans on: copy a tree, remove a tree, rename a tree.
 A link is a node of its own and is never followed on the way to a path; its
 target is where it leads once resolved.
 */
module FileTree {

  type Path = seq<string>

  datatype Node = File(data: string) | Folder | Link(target: Path)

  type FileMap = map<Path, Node>

  function Parent(p: Path): Path
    requires p != []
  {
    p[..|p| - 1]
  }

  function Leaf(p: Path): string
    requires p != []
  {
    p[|p| - 1]
  }

  predicate IsFolder(fs: FileMap, p: Path) {
    p in fs && fs[p] == Folder
  }

  /** Everything but the root sits in a folder. */
  ghost predicate Closed(fs: FileMap) {
    && IsFolder(fs, [])
    && forall p {:trigger Parent(p)} :: p in fs && p != [] ==> IsFolder(fs, Parent(p))
  }

  function RealPath(fs: FileMap, p: Path): Path {
    if p in fs && fs[p].Link? then fs[p].target else p
  }

  /** Nothing exists at `p` or below. */
  ghost predicate Free(fs: FileMap, p: Path) {
    forall q :: q in fs ==> !(p <= q)
  }

  lemma {:induction false} AncestorsExist(fs: FileMap, p: Path, q: Path)
    requires Closed(fs) && q in fs && p <= q
    ensures p in fs && (p != q ==> IsFolder(fs, p))
    decreases |q|
  {
    if p != q {
      assert p <= Parent(q);
      AncestorsExist(fs, p, Parent(q));
    }
  }

  lemma AbsentIsFree(fs: FileMap, p: Path)
    requires Closed(fs) && p !in fs
    ensures Free(fs, p)
  {
    forall q | q in fs
      ensures !(p <= q)
    {
      if p <= q {
        AncestorsExist(fs, p, q);
      }
    }
  }

  /** The tree at `q` in `b` is the tree at `p` in `a`, node for node. */
  ghost predicate SameTree(a: FileMap, p: Path, b: FileMap, q: Path) {
    && (forall r {:trigger p + r} :: p + r in a ==> q + r in b && b[q + r] == a[p + r])
    && (forall r {:trigger q + r} :: q + r in b ==> p + r in a)
  }

  lemma SameTreeTrans(a: FileMap, p: Path, b: FileMap, q: Path, c: FileMap, s: Path)
    requires SameTree(a, p, b, q) && SameTree(b, q, c, s)
    ensures SameTree(a, p, c, s)
  {
    forall r | p + r in a
      ensures s + r in c && c[s + r] == a[p + r]
    {
      assert q + r in b;
    }
    forall r | s + r in c
      ensures p + r in a
    {
      assert q + r in b;
    }
  }

  // ---------------------------------------------------------------------

  function Targets(fs: FileMap, src: Path, dst: Path): set<Path> {
    set q | q in fs && src <= q :: dst + q[|src|..]
  }

  /** Copies the tree at `src` to `dst`. */
  function CopyTree(fs: FileMap, src: Path, dst: Path): FileMap {
    fs + map p | p in Targets(fs, src, dst) && dst <= p && src + p[|dst|..] in fs :: fs[src + p[|dst|..]]
  }

  function RemoveTree(fs: FileMap, p: Path): FileMap {
    fs - set q | q in fs && p <= q
  }

  function RenameTree(fs: FileMap, src: Path, dst: Path): FileMap {
    RemoveTree(CopyTree(fs, src, dst), src)
  }

  lemma TargetsAre(fs: FileMap, src: Path, dst: Path, p: Path)
    ensures p in Targets(fs, src, dst) <==> dst <= p && src + p[|dst|..] in fs
  {
    if p in Targets(fs, src, dst) {
      var q :| q in fs && src <= q && p == dst + q[|src|..];
      assert src + p[|dst|..] == q;
    }
    if dst <= p && src + p[|dst|..] in fs {
      var q := src + p[|dst|..];
      assert p == dst + q[|src|..];
    }
  }

  /** A copy to a free place adds exactly one tree, a faithful one, and changes
      nothing else. */
  lemma CopyTreeAdds(fs: FileMap, src: Path, dst: Path)
    requires Free(fs, dst)
    ensures var after := CopyTree(fs, src, dst);
      && (forall p :: p in fs ==> p in after && after[p] == fs[p])
      && (forall p :: p in after && p !in fs ==> dst <= p)
      && SameTree(fs, src, after, dst)
  {
    var after := CopyTree(fs, src, dst);
    forall p
      ensures p in after <==> p in fs || p in Targets(fs, src, dst)
      ensures p in Targets(fs, src, dst) ==> dst <= p && p !in fs && after[p] == fs[src + p[|dst|..]]
    {
      TargetsAre(fs, src, dst, p);
    }
    forall r | src + r in fs
      ensures dst + r in after && after[dst + r] == fs[src + r]
    {
      TargetsAre(fs, src, dst, dst + r);
      assert (dst + r)[|dst|..] == r;
    }
    forall r | dst + r in after
      ensures src + r in fs
    {
      TargetsAre(fs, src, dst, dst + r);
      assert (dst + r)[|dst|..] == r;
    }
  }

  /** The folder of a copied node is the copy of its folder. */
  lemma CopiedParent(fs: FileMap, src: Path, dst: Path, r: Path)
    requires Closed(fs) && Free(fs, dst) && src + r in fs && r != []
    ensures IsFolder(CopyTree(fs, src, dst), Parent(dst + r))
  {
    CopyTreeAdds(fs, src, dst);
    var up := r[..|r| - 1];
    assert Parent(src + r) == src + up;
    assert Parent(dst + r) == dst + up;
  }

  lemma CopyTreeClosed(fs: FileMap, src: Path, dst: Path)
    requires Closed(fs) && dst !in fs
    requires dst != [] && IsFolder(fs, Parent(dst))
    ensures Closed(CopyTree(fs, src, dst))
  {
    AbsentIsFree(fs, dst);
    CopyTreeAdds(fs, src, dst);
    var after := CopyTree(fs, src, dst);
    forall p | p in after && p != []
      ensures IsFolder(after, Parent(p))
    {
      if p !in fs && p != dst {
        var r := p[|dst|..];
        assert p == dst + r;
        CopiedParent(fs, src, dst, r);
      }
    }
  }

  /** A rename to a free place outside `src` moves one tree whole and changes nothing else. */
  lemma RenameTreeMoves(fs: FileMap, src: Path, dst: Path)
    requires Free(fs, dst) && !(src <= dst) && src in fs
    ensures var after := RenameTree(fs, src, dst);
      && (forall p :: p in fs && !(src <= p) ==> p in after && after[p] == fs[p])
      && (forall p :: p in after ==> !(src <= p) && (p in fs || dst <= p))
      && SameTree(fs, src, after, dst)
  {
    CopyTreeAdds(fs, src, dst);
    var copied, after := CopyTree(fs, src, dst), RenameTree(fs, src, dst);
    assert !(dst <= src);
    forall r
      ensures !(src <= dst + r)
    {
      NotBelow(src, dst, r);
    }
    forall r | src + r in fs
      ensures dst + r in after && after[dst + r] == fs[src + r]
    {
      assert dst + r in copied;
    }
  }

  lemma NotBelow(src: Path, dst: Path, r: Path)
    requires !(src <= dst) && !(dst <= src)
    ensures !(src <= dst + r)
  {
    assert |src| <= |dst| ==> (dst + r)[..|src|] == dst[..|src|];
    assert |dst| <= |src| <= |dst + r| ==> (dst + r)[..|src|][..|dst|] == dst;
  }

  lemma RenameTreeClosed(fs: FileMap, src: Path, dst: Path)
    requires Closed(fs) && dst !in fs && src in fs && src != [] && !(src <= dst)
    requires dst != [] && IsFolder(fs, Parent(dst))
    ensures Closed(RenameTree(fs, src, dst))
  {
    CopyTreeClosed(fs, src, dst);
    RemoveTreeClosed(CopyTree(fs, src, dst), src);
  }

  lemma RemoveTreeClosed(fs: FileMap, p: Path)
    requires Closed(fs) && p != []
    ensures Closed(RemoveTree(fs, p))
  {
    var after := RemoveTree(fs, p);
    assert !(p <= []);
    forall q | q in after && q != []
      ensures IsFolder(after, Parent(q))
    {
      assert Parent(q) <= q;
    }
  }
}
