/**
 The trash: `api_trash`, `api_restore` and `api_empty_trash`
 (files-app/backend.py:841-873, 1554-1585, 1711-1742). The trashed items are the
 children of one folder, and each should have a record of where it came from.
 */
module Trash {
  import opened Wrappers
  import opened FileTree
  import opened FileOps
  import opened Texts
  import opened TrashRecords

  /** The trash's folder of items and the person's home. */
  datatype Places = Places(bin: Path, home: Path)

  /** The filesystem, and the records by the name of the item each is for. */
  datatype Store = Store(fs: FileMap, info: map<string, string>)

  datatype Answer<T> = Answer(store: Store, r: Result<T, Problem>)

  // ---------------------------------------------------------------------
  // Putting in.

  /** What is in the record's file once it is closed: nothing, if encoding failed. */
  function Written(src: Path, date: string): string
    requires IsBytes(PathText(src))
  {
    var record := Record(PathText(src), date);
    if record.Some? then record.value else ""
  }

  /** The item is moved first; then its record's file is made, which the filesystem may
      refuse; and then the record is encoded. */
  function PutIn(t: Store, at: Places, src: Path, date: string, opens: bool): Answer<string>
    requires src != [] && IsBytes(PathText(src))
  {
    if src !in t.fs then Answer(t, Err(Missing)) else
    var target := UniquePath(t.fs, at.bin, Leaf(src));
    if src <= target then Answer(t, Err(OsError))
    else if !opens then Answer(Store(RenameTree(t.fs, src, target), t.info), Err(NotFiled))
    else
      Answer(Store(RenameTree(t.fs, src, target), t.info[Leaf(target) := Written(src, date)]),
        if Record(PathText(src), date).Some? then Ok(Leaf(target)) else Err(NotText))
  }

  // ---------------------------------------------------------------------
  // Giving back.

  /** The name asked for, without spaces and then slashes around it. */
  function AskedName(raw: string): string {
    Trimmed(Strip(raw), c => c == '/')
  }

  /** Creates the folders missing on the way to `p`. */
  function MakeFolders(fs: FileMap, p: Path): Option<FileMap>
    decreases |p|
  {
    if p in fs then (if fs[p] == Folder then Some(fs) else None)
    else if p == [] then None
    else
      var up :- MakeFolders(fs, Parent(p));
      Some(up[p := Folder])
  }

  /** Where an item goes back to: its recorded path, or the home folder without one. */
  function HomeFor(t: Store, at: Places, name: string): Path {
    var orig := if name in t.info then Components(ReadRecord(t.info[name])) else [];
    if orig != [] then UniquePath(t.fs, Parent(orig), Leaf(orig)) else UniquePath(t.fs, at.home, name)
  }

  function GiveBack(t: Store, at: Places, raw: string): Answer<Path> {
    var name := AskedName(raw);
    var src := at.bin + [name];
    if name == "" || '/' in name then Answer(t, Err(Incomplete))
    else if src !in t.fs then Answer(t, Err(Missing))
    else
      var dst := HomeFor(t, at, name);
      var made := MakeFolders(t.fs, Parent(dst));
      if made.None? || src <= dst then Answer(t, Err(OsError))
      else Answer(Store(RenameTree(made.value, src, dst), t.info - {name}), Ok(dst))
  }

  // ---------------------------------------------------------------------
  // Emptying.

  function ItemNames(fs: FileMap, bin: Path): set<string> {
    set p | p in fs && p != [] && Parent(p) == bin :: Leaf(p)
  }

  function Emptied(t: Store, at: Places): Store {
    Store(t.fs - (set p | p in t.fs && at.bin < p), t.info - ItemNames(t.fs, at.bin))
  }

  // ---------------------------------------------------------------------
  // The operations.

  class TrashCan {
    var nodes: FileMap
    var info: map<string, string>
    const at: Places

    constructor (nodes: FileMap, at: Places)
      ensures this.nodes == nodes && info == map[] && this.at == at
    {
      this.nodes, info, this.at := nodes, map[], at;
    }

    function View(): Store
      reads this
    {
      Store(nodes, info)
    }

    method TrashPath(src: Path, date: string, opens: bool) returns (r: Result<string, Problem>)
      requires src != [] && IsBytes(PathText(src))
      modifies this
      ensures Answer(View(), r) == PutIn(old(View()), at, src, date, opens)
    {
      if src !in nodes {
        return Err(Missing);
      }
      var target := FindUnique(nodes, at.bin, Leaf(src));
      if src <= target {
        return Err(OsError);
      }
      nodes := RenameTree(nodes, src, target);
      if !opens {
        return Err(NotFiled);
      }
      info := info[Leaf(target) := ""];
      var record := Record(PathText(src), date);
      if record.None? {
        return Err(NotText);
      }
      info := info[Leaf(target) := record.value];
      assert info == old(info)[Leaf(target) := record.value];
      r := Ok(Leaf(target));
    }

    method Restore(raw: string) returns (r: Result<Path, Problem>)
      modifies this
      ensures Answer(View(), r) == GiveBack(old(View()), at, raw)
    {
      var name := AskedName(raw);
      if name == "" || '/' in name {
        return Err(Incomplete);
      }
      var src := at.bin + [name];
      if src !in nodes {
        return Err(Missing);
      }
      var orig: Path := [];
      if name in info {
        orig := Components(ReadRecord(info[name]));
      }
      var dst;
      if orig != [] {
        dst := FindUnique(nodes, Parent(orig), Leaf(orig));
      } else {
        dst := FindUnique(nodes, at.home, name);
      }
      var made := MakeFolders(nodes, Parent(dst));
      if made.None? || src <= dst {
        return Err(OsError);
      }
      nodes := RenameTree(made.value, src, dst);
      info := info - {name};
      r := Ok(dst);
    }

    method Empty()
      requires Closed(nodes)
      modifies this
      ensures View() == Emptied(old(View()), at)
    {
      var names := ItemNames(nodes, at.bin);
      ghost var n, k, gone := nodes, info, {};
      assert n - UnderItems(n, at.bin, {}) == n;
      var todo := names;
      while todo != {}
        invariant gone !! todo && gone + todo == names
        invariant nodes == n - UnderItems(n, at.bin, gone)
        invariant info == k - gone
        decreases todo
      {
        var name :| name in todo;
        OneItemLess(n, at.bin, gone, name);
        nodes := RemoveTree(nodes, at.bin + [name]);
        info := info - {name};
        todo, gone := todo - {name}, gone + {name};
      }
      assert gone == names;
      AllItems(n, at.bin);
    }
  }

  /** What lies in, or is, one of some items of the trash. */
  function UnderItems(fs: FileMap, bin: Path, names: set<string>): set<Path> {
    set p | p in fs && bin < p && p[|bin|] in names
  }

  lemma OneItemLess(fs: FileMap, bin: Path, gone: set<string>, name: string)
    ensures RemoveTree(fs - UnderItems(fs, bin, gone), bin + [name]) == fs - UnderItems(fs, bin, gone + {name})
  {
    forall p
      ensures bin + [name] <= p <==> bin < p && p[|bin|] == name
    {
      BelowItem(bin, name, p);
    }
  }

  lemma AllItems(fs: FileMap, bin: Path)
    requires Closed(fs)
    ensures UnderItems(fs, bin, ItemNames(fs, bin)) == set p | p in fs && bin < p
  {
    forall p | p in fs && bin < p
      ensures p[|bin|] in ItemNames(fs, bin)
    {
      ItemAbove(fs, bin, p);
    }
  }

  lemma BelowItem(bin: Path, name: string, p: Path)
    ensures bin + [name] <= p <==> bin < p && p[|bin|] == name
  {
    if bin < p {
      assert p[..|bin| + 1] == bin + [p[|bin|]];
    }
  }

  /** Whatever lies in the trash lies in, or is, one of its items. */
  lemma ItemAbove(fs: FileMap, bin: Path, p: Path)
    requires Closed(fs) && p in fs && bin < p
    ensures p[|bin|] in ItemNames(fs, bin) && bin + [p[|bin|]] <= p
  {
    var item := bin + [p[|bin|]];
    assert p[..|bin| + 1] == item;
    AncestorsExist(fs, item, p);
    assert Parent(item) == bin && Leaf(item) == p[|bin|];
  }
}

/** What every run keeps, and what restoring gives back. */
module TrashRuns {
  import opened Wrappers
  import opened FileTree
  import opened FileOps
  import opened FileOpsPromises
  import opened Texts
  import opened TrashRecords
  import opened Trash
  import opened Utf8

  /** The path a record gives, if any, is a real one outside the trash. */
  ghost predicate GoodRecord(text: string, bin: Path) {
    var p := Components(ReadRecord(text));
    p != [] ==> ValidPath(p) && !(bin <= p)
  }

  /** Trashed items and records are one to one. */
  ghost predicate OneToOne(t: Store, bin: Path) {
    forall n {:trigger bin + [n]} {:trigger n in t.info} :: bin + [n] in t.fs <==> n in t.info
  }

  /** Every record is an item's. */
  ghost predicate RecordsAreOfItems(t: Store, bin: Path) {
    forall n {:trigger n in t.info} :: n in t.info ==> bin + [n] in t.fs
  }

  ghost predicate Inv(t: Store, at: Places) {
    && Closed(t.fs) && IsFolder(t.fs, at.bin) && at.bin != [] && !(at.bin <= at.home)
    && RecordsAreOfItems(t, at.bin)
    && forall n :: n in t.info ==> GoodRecord(t.info[n], at.bin)
  }

  datatype Event =
    | TrashEvent(src: Path, date: string, opens: bool)
    | RestoreEvent(raw: string)
    | EmptyEvent

  /** Sources are outside the trash, and dates are one line. */
  ghost predicate Enabled(e: Event, at: Places) {
    e.TrashEvent? ==>
      e.src != [] && ValidPath(e.src) && !(at.bin <= e.src) && OneLine(e.date) && IsBytes(PathText(e.src))
  }

  ghost function Next(t: Store, at: Places, e: Event): Store
    requires Enabled(e, at)
  {
    match e
    case TrashEvent(src, date, opens) => PutIn(t, at, src, date, opens).store
    case RestoreEvent(raw) => GiveBack(t, at, raw).store
    case EmptyEvent => Emptied(t, at)
  }

  /** The item `n` and its record are the same in both. */
  ghost predicate ItemKept(a: Store, b: Store, bin: Path, n: string) {
    && (n in a.info <==> n in b.info) && (n in a.info ==> b.info[n] == a.info[n])
    && SameTree(a.fs, bin + [n], b.fs, bin + [n])
  }

  ghost predicate Touches(e: Event, n: string) {
    match e
    case TrashEvent(_, _, _) => false
    case RestoreEvent(raw) => AskedName(raw) == n
    case EmptyEvent => true
  }

  // ---------------------------------------------------------------------
  // Putting in.

  /** The name a path gets in the trash. */
  function NewName(t: Store, at: Places, src: Path): string
    requires src != []
  {
    Leaf(UniquePath(t.fs, at.bin, Leaf(src)))
  }

  /** The path is moved into the trash, whether or not its record can be written. */
  ghost predicate GoesIn(t: Store, at: Places, src: Path)
    requires src != []
  {
    src in t.fs && !(src <= UniquePath(t.fs, at.bin, Leaf(src)))
  }

  /** Its record is written too. */
  predicate IsRecorded(src: Path, opens: bool) {
    opens && Valid(PathText(src))
  }

  lemma PutInAnswers(t: Store, at: Places, src: Path, date: string, opens: bool)
    requires Enabled(TrashEvent(src, date, opens), at) && GoesIn(t, at, src)
    ensures PutIn(t, at, src, date, opens).r ==
      if !opens then Err(NotFiled) else if Valid(PathText(src)) then Ok(NewName(t, at, src)) else Err(NotText)
  {
    RecordRoundTrips(PathText(src), date);
  }

  /** Trashing moves exactly what is there and can be moved, to a name of its own; when it
      moves nothing it changes nothing and fails. */
  lemma TrashesWhen(t: Store, at: Places, src: Path, date: string, opens: bool)
    requires Inv(t, at) && Enabled(TrashEvent(src, date, opens), at)
    ensures GoesIn(t, at, src) <==> src in t.fs && !(src <= at.bin)
    ensures !GoesIn(t, at, src) ==>
      PutIn(t, at, src, date, opens) == Answer(t, Err(if src in t.fs then OsError else Missing))
    ensures IsNamed(There(t.fs), at.bin, Leaf(src), at.bin + [NewName(t, at, src)])
  {
    UniqueIsNamed(t.fs, at.bin, Leaf(src));
    var target := UniquePath(t.fs, at.bin, Leaf(src));
    assert Parent(at.bin + [Leaf(src)]) == at.bin && Leaf(at.bin + [Leaf(src)]) == Leaf(src);
    assert target == at.bin + [NewName(t, at, src)];
    assert |src| <= |at.bin| ==> target[..|src|] == at.bin[..|src|];
    assert src in t.fs ==> src != target;
  }

  lemma PutInMoves(t: Store, at: Places, src: Path, date: string, opens: bool)
    requires Inv(t, at) && Enabled(TrashEvent(src, date, opens), at) && GoesIn(t, at, src)
    ensures var store, name := PutIn(t, at, src, date, opens).store, NewName(t, at, src); var target := at.bin + [name];
      && target !in t.fs && !(src <= target) && !(target <= src) && !(src <= at.bin)
      && store == Store(RenameTree(t.fs, src, target), if opens then t.info[name := Written(src, date)] else t.info)
      && Closed(store.fs) && SameTree(t.fs, src, store.fs, target)
      && (forall p :: p in t.fs && !(src <= p) ==> p in store.fs && store.fs[p] == t.fs[p])
      && (forall p :: p in store.fs ==> !(src <= p) && (p in t.fs || target <= p))
  {
    var target := UniquePath(t.fs, at.bin, Leaf(src));
    assert target == at.bin + [NewName(t, at, src)];
    AbsentIsFree(t.fs, target);
    RenameTreeMoves(t.fs, src, target);
    RenameTreeClosed(t.fs, src, target);
    assert src <= at.bin ==> src <= target;
  }

  /** The new item has a record exactly if its file could be made. */
  lemma PutInNew(t: Store, at: Places, src: Path, date: string, opens: bool)
    requires Inv(t, at) && Enabled(TrashEvent(src, date, opens), at) && GoesIn(t, at, src)
    ensures var store, name := PutIn(t, at, src, date, opens).store, NewName(t, at, src);
      at.bin + [name] in store.fs && (name in store.info <==> opens) && at.bin + [name] !in t.fs && name !in t.info
  {
    PutInMoves(t, at, src, date, opens);
    var target := at.bin + [NewName(t, at, src)];
    assert target + [] == target && src + [] == src;
  }

  /** Every other item is as it was. */
  lemma PutInItem(t: Store, at: Places, src: Path, date: string, opens: bool, n: string)
    requires Inv(t, at) && Enabled(TrashEvent(src, date, opens), at) && GoesIn(t, at, src) && n != NewName(t, at, src)
    ensures var a := PutIn(t, at, src, date, opens);
      (at.bin + [n] in a.store.fs <==> at.bin + [n] in t.fs) && SameTree(t.fs, at.bin + [n], a.store.fs, at.bin + [n])
  {
    PutInMoves(t, at, src, date, opens);
    var target, item := at.bin + [NewName(t, at, src)], at.bin + [n];
    ItemApart(at.bin, src, n);
    ItemsApart(at.bin, n, NewName(t, at, src));
    SiblingStays(t.fs, src, target, PutIn(t, at, src, date, opens).store.fs, item);
  }

  lemma ItemsApart(bin: Path, n: string, m: string)
    requires n != m
    ensures !(bin + [n] <= bin + [m])
    ensures !(bin + [m] <= bin + [n])
  {
    assert (bin + [n])[|bin|] == n && (bin + [m])[|bin|] == m;
  }

  lemma PutInRecord(src: Path, date: string, bin: Path)
    requires src != [] && ValidPath(src) && !(bin <= src) && OneLine(date) && IsBytes(PathText(src))
    ensures GoodRecord(Written(src, date), bin)
    ensures Components(ReadRecord(Written(src, date))) == if Valid(PathText(src)) then src else []
  {
    PathTextRoundTrips(src);
    RecordRoundTrips(PathText(src), date);
    EmptyRecord();
  }

  lemma EmptyRecord()
    ensures Components(ReadRecord("")) == []
  {
    assert Lines("") == [[]];
  }

  lemma PutInKeeps(t: Store, at: Places, src: Path, date: string, opens: bool)
    requires Inv(t, at) && Enabled(TrashEvent(src, date, opens), at)
    ensures Inv(PutIn(t, at, src, date, opens).store, at)
    ensures forall n :: at.bin + [n] in t.fs ==> ItemKept(t, PutIn(t, at, src, date, opens).store, at.bin, n)
  {
    if GoesIn(t, at, src) {
      PutInBin(t, at, src, date, opens);
      forall n
        ensures RecordIsGood(PutIn(t, at, src, date, opens).store, at.bin, n)
        ensures at.bin + [n] in t.fs ==> ItemKept(t, PutIn(t, at, src, date, opens).store, at.bin, n)
      {
        PutInOne(t, at, src, date, opens, n);
      }
    }
  }

  /** If there is a record of that name, it is an item's and good. */
  ghost predicate RecordIsGood(t: Store, bin: Path, n: string) {
    n in t.info ==> bin + [n] in t.fs && GoodRecord(t.info[n], bin)
  }

  lemma PutInBin(t: Store, at: Places, src: Path, date: string, opens: bool)
    requires Inv(t, at) && Enabled(TrashEvent(src, date, opens), at) && GoesIn(t, at, src)
    ensures var fs := PutIn(t, at, src, date, opens).store.fs; Closed(fs) && IsFolder(fs, at.bin)
  {
    PutInMoves(t, at, src, date, opens);
  }

  lemma PutInOne(t: Store, at: Places, src: Path, date: string, opens: bool, n: string)
    requires Inv(t, at) && Enabled(TrashEvent(src, date, opens), at) && GoesIn(t, at, src)
    ensures var store := PutIn(t, at, src, date, opens).store;
      RecordIsGood(store, at.bin, n) && (at.bin + [n] in t.fs ==> ItemKept(t, store, at.bin, n))
  {
    PutInNew(t, at, src, date, opens);
    PutInMoves(t, at, src, date, opens);
    PutInRecord(src, date, at.bin);
    if n != NewName(t, at, src) {
      PutInItem(t, at, src, date, opens, n);
    }
  }

  lemma ItemApart(bin: Path, src: Path, n: string)
    requires !(src <= bin) && !(bin <= src)
    ensures !(src <= bin + [n]) && !(bin + [n] <= src)
  {
    NotBelow(src, bin, [n]);
    assert bin + [n] <= src ==> bin <= src;
  }

  /** What is apart from both ends of a rename stays as it was. */
  lemma SiblingStays(fs: FileMap, src: Path, dst: Path, after: FileMap, p: Path)
    requires forall q :: q in fs && !(src <= q) ==> q in after && after[q] == fs[q]
    requires forall q :: q in after ==> !(src <= q) && (q in fs || dst <= q)
    requires !(src <= p) && !(p <= src) && !(dst <= p) && !(p <= dst)
    ensures SameTree(fs, p, after, p) && (p in after <==> p in fs)
  {
    assert p + [] == p;
    forall r
      ensures !(src <= p + r) && !(dst <= p + r)
    {
      NotBelow(src, p, r);
      NotBelow(dst, p, r);
    }
  }

  // ---------------------------------------------------------------------
  // Giving back.

  lemma {:induction false} MakeFoldersAdds(fs: FileMap, p: Path)
    requires Closed(fs) && MakeFolders(fs, p).Some?
    ensures var made := MakeFolders(fs, p).value;
      && Closed(made) && IsFolder(made, p)
      && (forall q :: q in fs ==> q in made && made[q] == fs[q])
      && (forall q :: q in made ==> q in fs || q <= p)
    decreases |p|
  {
    if p !in fs {
      MakeFoldersAdds(fs, Parent(p));
      var up, made := MakeFolders(fs, Parent(p)).value, MakeFolders(fs, p).value;
      assert made == up[p := Folder];
      assert Parent(p) <= p;
    }
  }

  /** Nothing but folders is on the way to a path, as far as it exists. */
  ghost predicate WayIsOpen(fs: FileMap, p: Path) {
    forall q :: q <= p && q in fs ==> fs[q] == Folder
  }

  /** The folders on the way are made exactly when nothing else is in the way. */
  lemma {:induction false} MakeFoldersWhen(fs: FileMap, p: Path)
    requires Closed(fs)
    ensures MakeFolders(fs, p).Some? <==> WayIsOpen(fs, p)
    decreases |p|
  {
    if p in fs {
      forall q | q <= p && q in fs && fs[p] == Folder
        ensures fs[q] == Folder
      {
        AncestorsExist(fs, q, p);
      }
    } else if p != [] {
      MakeFoldersWhen(fs, Parent(p));
      assert Parent(p) <= p;
      forall q | q in fs && q <= p
        ensures q <= Parent(p)
      {
        assert q != p;
      }
    }
  }

  /** An item goes back to a free place outside the trash. */
  lemma HomeIsOutside(t: Store, at: Places, name: string)
    requires Inv(t, at)
    ensures var dst := HomeFor(t, at, name);
      dst != [] && dst !in t.fs && !(at.bin <= dst) && !(dst <= at.bin)
  {
    var dst := HomeFor(t, at, name);
    AbsentIsFree(t.fs, dst);
    assert dst == Parent(dst) + [Leaf(dst)];
    var orig := if name in t.info then Components(ReadRecord(t.info[name])) else [];
    if orig != [] {
      assert Parent(orig) <= orig;
    }
  }

  lemma GiveBackMoves(t: Store, at: Places, raw: string)
    requires Inv(t, at) && GiveBack(t, at, raw).r.Ok?
    ensures var a, name := GiveBack(t, at, raw), AskedName(raw); var src, dst := at.bin + [name], a.r.value;
      && dst == HomeFor(t, at, name) && src in t.fs
      && a.store.info == t.info - {name}
      && Closed(a.store.fs) && SameTree(t.fs, src, a.store.fs, dst)
      && (forall p :: p in t.fs && !(src <= p) ==> p in a.store.fs && a.store.fs[p] == t.fs[p])
      && (forall p :: p in a.store.fs ==> !(src <= p) && (p in t.fs || dst <= p || p <= Parent(dst)))
  {
    var name := AskedName(raw);
    var src, dst := at.bin + [name], HomeFor(t, at, name);
    HomeIsOutside(t, at, name);
    MakeFoldersAdds(t.fs, Parent(dst));
    var made := MakeFolders(t.fs, Parent(dst)).value;
    assert dst !in made;
    AbsentIsFree(made, dst);
    RenameTreeMoves(made, src, dst);
    RenameTreeClosed(made, src, dst);
    UnderSrcUnmade(t.fs, made, src, dst);
    SameTreeTrans(t.fs, src, made, src, RenameTree(made, src, dst), dst);
  }

  lemma UnderSrcUnmade(fs: FileMap, made: FileMap, src: Path, dst: Path)
    requires dst != [] && !(src <= dst)
    requires forall q :: q in fs ==> q in made && made[q] == fs[q]
    requires forall q :: q in made ==> q in fs || q <= Parent(dst)
    ensures SameTree(fs, src, made, src)
  {
    forall r | src + r in made
      ensures src + r in fs
    {
      assert src <= src + r && Parent(dst) <= dst;
      assert !(src + r <= Parent(dst));
    }
  }

  /** Giving back works exactly for a name that can be one, of an item that is there, with the
      way open; and else it changes nothing and says what was wrong. */
  lemma GivesBackWhen(t: Store, at: Places, raw: string)
    requires Inv(t, at)
    ensures var a, name := GiveBack(t, at, raw), AskedName(raw);
      && (a.r.Ok? <==>
           name != "" && '/' !in name && at.bin + [name] in t.fs && WayIsOpen(t.fs, Parent(HomeFor(t, at, name))))
      && (a.r == Err(Incomplete) <==> name == "" || '/' in name)
      && (a.r == Err(Missing) <==> name != "" && '/' !in name && at.bin + [name] !in t.fs)
      && (a.r.Err? ==> a.store == t)
  {
    var name := AskedName(raw);
    HomeIsOutside(t, at, name);
    MakeFoldersWhen(t.fs, Parent(HomeFor(t, at, name)));
    assert at.bin + [name] <= HomeFor(t, at, name) ==> at.bin <= HomeFor(t, at, name);
  }

  /** Nothing of another item lies in, or on the way to, either end of the rename. */
  lemma ItemOutOfTheWay(bin: Path, name: string, n: string, dst: Path, r: Path)
    requires n != name && dst != [] && !(bin <= dst) && !(dst <= bin)
    ensures !(bin + [name] <= bin + [n] + r) && !(dst <= bin + [n] + r) && !(bin + [n] + r <= Parent(dst))
  {
    var src, item := bin + [name], bin + [n];
    assert src[|bin|] == name && item[|bin|] == n;
    NotBelow(src, item, r);
    assert item + r == bin + ([n] + r);
    NotBelow(dst, bin, [n] + r);
    assert bin <= item + r && Parent(dst) <= dst;
  }

  lemma OutOfTheWayStays(fs: FileMap, after: FileMap, src: Path, dst: Path, item: Path)
    requires dst != []
    requires forall p :: p in fs && !(src <= p) ==> p in after && after[p] == fs[p]
    requires forall p :: p in after ==> !(src <= p) && (p in fs || dst <= p || p <= Parent(dst))
    requires forall r {:trigger item + r} :: !(src <= item + r) && !(dst <= item + r) && !(item + r <= Parent(dst))
    ensures SameTree(fs, item, after, item)
    ensures item in after <==> item in fs
  {
    assert item + [] == item;
  }

  /** Giving one item back leaves every other item as it was. */
  lemma GiveBackItem(t: Store, at: Places, raw: string, n: string)
    requires Inv(t, at) && GiveBack(t, at, raw).r.Ok?
    ensures var a := GiveBack(t, at, raw);
      if n == AskedName(raw) then at.bin + [n] !in a.store.fs
      else
        && (at.bin + [n] in a.store.fs <==> at.bin + [n] in t.fs)
        && SameTree(t.fs, at.bin + [n], a.store.fs, at.bin + [n])
  {
    GiveBackMoves(t, at, raw);
    HomeIsOutside(t, at, AskedName(raw));
    var a := GiveBack(t, at, raw);
    var item := at.bin + [n];
    if n != AskedName(raw) {
      forall r {:trigger item + r}
        ensures !(at.bin + [AskedName(raw)] <= item + r) && !(a.r.value <= item + r) && !(item + r <= Parent(a.r.value))
      {
        ItemOutOfTheWay(at.bin, AskedName(raw), n, a.r.value, r);
      }
      OutOfTheWayStays(t.fs, a.store.fs, at.bin + [AskedName(raw)], a.r.value, item);
    }
  }

  lemma GiveBackKeeps(t: Store, at: Places, raw: string)
    requires Inv(t, at)
    ensures Inv(GiveBack(t, at, raw).store, at)
    ensures forall n :: at.bin + [n] in t.fs && n != AskedName(raw) ==>
      ItemKept(t, GiveBack(t, at, raw).store, at.bin, n)
  {
    var a := GiveBack(t, at, raw);
    if a.r.Ok? {
      GiveBackMoves(t, at, raw);
      forall n
        ensures n in a.store.info ==> at.bin + [n] in a.store.fs
        ensures at.bin + [n] in t.fs && n != AskedName(raw) ==> ItemKept(t, a.store, at.bin, n)
      {
        GiveBackItem(t, at, raw, n);
      }
    }
  }

  // ---------------------------------------------------------------------
  // Emptying, and runs.

  /** Emptying leaves the folder of the trash with nothing in it and no records, and everything
      else as it was. */
  lemma EmptyEmpties(t: Store, at: Places)
    requires Inv(t, at)
    ensures var after := Next(t, at, EmptyEvent);
      && after.info == map[] && IsFolder(after.fs, at.bin)
      && (forall p :: p in after.fs <==> p in t.fs && !(at.bin < p))
      && (forall p :: p in after.fs ==> after.fs[p] == t.fs[p])
  {
    EmptiedKeeps(t, at);
  }

  lemma EmptiedKeeps(t: Store, at: Places)
    requires Inv(t, at)
    ensures Inv(Emptied(t, at), at)
    ensures Emptied(t, at).info == map[]
    ensures forall p :: p in t.fs && !(at.bin < p) ==> p in Emptied(t, at).fs && Emptied(t, at).fs[p] == t.fs[p]
  {
    var e := Emptied(t, at);
    forall p | p in e.fs && p != []
      ensures IsFolder(e.fs, Parent(p))
    {
      assert Parent(p) <= p;
    }
    forall n | n in t.info
      ensures n in ItemNames(t.fs, at.bin)
    {
      var item := at.bin + [n];
      assert Parent(item) == at.bin && Leaf(item) == n;
    }
    forall n
      ensures at.bin + [n] !in e.fs
    {
      assert at.bin < at.bin + [n];
    }
  }

  lemma NextKeeps(t: Store, at: Places, e: Event)
    requires Inv(t, at) && Enabled(e, at)
    ensures Inv(Next(t, at, e), at)
    ensures forall n :: at.bin + [n] in t.fs && !Touches(e, n) ==> ItemKept(t, Next(t, at, e), at.bin, n)
  {
    match e {
      case TrashEvent(src, date, opens) => PutInKeeps(t, at, src, date, opens);
      case RestoreEvent(raw) => GiveBackKeeps(t, at, raw);
      case EmptyEvent => EmptiedKeeps(t, at);
    }
  }

  ghost function Run(t: Store, at: Places, events: seq<Event>): Store
    requires forall i :: 0 <= i < |events| ==> Enabled(events[i], at)
    decreases |events|
  {
    if events == [] then t else Run(Next(t, at, events[0]), at, events[1..])
  }

  /** Over every run, records are of items, and an item no event names keeps its content
      and its record, or stays without one. */
  lemma {:induction false} RunKeeps(t: Store, at: Places, events: seq<Event>, n: string)
    requires Inv(t, at)
    requires forall i :: 0 <= i < |events| ==> Enabled(events[i], at)
    ensures Inv(Run(t, at, events), at)
    ensures at.bin + [n] in t.fs && (forall i :: 0 <= i < |events| ==> !Touches(events[i], n)) ==>
      ItemKept(t, Run(t, at, events), at.bin, n)
    decreases |events|
  {
    if events != [] {
      var mid, item := Next(t, at, events[0]), at.bin + [n];
      NextKeeps(t, at, events[0]);
      assert forall i :: 0 <= i < |events[1..]| ==> events[1..][i] == events[i + 1];
      RunKeeps(mid, at, events[1..], n);
      if item in t.fs && forall i :: 0 <= i < |events| ==> !Touches(events[i], n) {
        assert !Touches(events[0], n) && ItemKept(t, mid, at.bin, n);
        assert item + [] == item;
        SameTreeTrans(t.fs, item, mid.fs, item, Run(t, at, events).fs, item);
      }
    }
  }

  /** If a path goes in, its record's file is made. */
  ghost predicate Filed(t: Store, at: Places, e: Event)
    requires Enabled(e, at)
  {
    e.TrashEvent? && GoesIn(t, at, e.src) ==> e.opens
  }

  lemma PutInIsOneToOneWhen(t: Store, at: Places, src: Path, date: string, opens: bool)
    requires Inv(t, at) && OneToOne(t, at.bin) && Enabled(TrashEvent(src, date, opens), at) && GoesIn(t, at, src)
    ensures OneToOne(PutIn(t, at, src, date, opens).store, at.bin) <==> opens
  {
    PutInNew(t, at, src, date, opens);
    forall n | n != NewName(t, at, src)
      ensures at.bin + [n] in PutIn(t, at, src, date, opens).store.fs <==> at.bin + [n] in t.fs
      ensures n in PutIn(t, at, src, date, opens).store.info <==> n in t.info
    {
      PutInItem(t, at, src, date, opens, n);
      PutInMoves(t, at, src, date, opens);
    }
  }

  lemma GiveBackIsOneToOne(t: Store, at: Places, raw: string)
    requires Inv(t, at) && OneToOne(t, at.bin)
    ensures OneToOne(GiveBack(t, at, raw).store, at.bin)
  {
    if GiveBack(t, at, raw).r.Ok? {
      GiveBackMoves(t, at, raw);
      forall n
        ensures at.bin + [n] in GiveBack(t, at, raw).store.fs <==> n in GiveBack(t, at, raw).store.info
      {
        GiveBackItem(t, at, raw, n);
      }
    }
  }

  lemma NextIsOneToOneWhen(t: Store, at: Places, e: Event)
    requires Inv(t, at) && Enabled(e, at) && OneToOne(t, at.bin)
    ensures OneToOne(Next(t, at, e), at.bin) <==> Filed(t, at, e)
  {
    match e {
      case TrashEvent(src, date, opens) =>
        if GoesIn(t, at, src) {
          PutInIsOneToOneWhen(t, at, src, date, opens);
        }
      case RestoreEvent(raw) => GiveBackIsOneToOne(t, at, raw);
      case EmptyEvent => EmptiedKeeps(t, at);
    }
  }

  ghost predicate AllFiled(t: Store, at: Places, events: seq<Event>)
    requires forall i :: 0 <= i < |events| ==> Enabled(events[i], at)
    decreases |events|
  {
    events == [] || (Filed(t, at, events[0]) && AllFiled(Next(t, at, events[0]), at, events[1..]))
  }

  /** Items and records are one to one in every state of the run. */
  ghost predicate AlwaysOneToOne(t: Store, at: Places, events: seq<Event>)
    requires forall i :: 0 <= i < |events| ==> Enabled(events[i], at)
    decreases |events|
  {
    OneToOne(t, at.bin) && (events != [] ==> AlwaysOneToOne(Next(t, at, events[0]), at, events[1..]))
  }

  /** They are exactly when the file of every record could be made. */
  lemma {:induction false} OneToOneWhen(t: Store, at: Places, events: seq<Event>)
    requires Inv(t, at) && OneToOne(t, at.bin)
    requires forall i :: 0 <= i < |events| ==> Enabled(events[i], at)
    ensures AlwaysOneToOne(t, at, events) <==> AllFiled(t, at, events)
    decreases |events|
  {
    if events != [] {
      NextKeeps(t, at, events[0]);
      NextIsOneToOneWhen(t, at, events[0]);
      if Filed(t, at, events[0]) {
        OneToOneWhen(Next(t, at, events[0]), at, events[1..]);
      }
    }
  }

  /** Where a trashed path is put back: where it came from, if that was recorded, and home
      otherwise. */
  function PutBack(t: Store, at: Places, src: Path, name: string, opens: bool): Path
    requires src != []
  {
    if IsRecorded(src, opens) then UniquePath(t.fs, Parent(src), Leaf(src)) else UniquePath(t.fs, at.home, name)
  }

  /** Nothing that happens names an item. */
  ghost predicate LeaveAlone(events: seq<Event>, at: Places, name: string) {
    forall i :: 0 <= i < |events| ==> Enabled(events[i], at) && !Touches(events[i], name)
  }

  /** The state after a path was put in and then other things happened. */
  ghost function Later(t: Store, at: Places, src: Path, date: string, opens: bool, events: seq<Event>): Store
    requires Enabled(TrashEvent(src, date, opens), at) && LeaveAlone(events, at, NewName(t, at, src))
  {
    Run(PutIn(t, at, src, date, opens).store, at, events)
  }

  /** Restoring gives back the tree that was at `src` in `fs`, with no record left: where it
      came from, if that is free and was recorded. */
  ghost predicate GoesBack(fs: FileMap, t: Store, at: Places, src: Path, opens: bool, raw: string)
    requires src != []
  {
    var a, back := GiveBack(t, at, raw), PutBack(t, at, src, AskedName(raw), opens);
    && a.r == Ok(back) && SameTree(fs, src, a.store.fs, back) && AskedName(raw) !in a.store.info
    && (src !in t.fs && IsRecorded(src, opens) ==> back == src)
  }

  /** Trash a path, let anything happen that does not name the item, and restore it: the
      same content is back and its record is gone. It is back at the path it came from, if
      that is free, the record's file could be made and all names on the path are UTF-8; if
      not, it is in the home folder, and the request that trashed it had failed. */
  lemma RestoreGivesBack(t: Store, at: Places, src: Path, date: string, opens: bool, events: seq<Event>, raw: string)
    requires Inv(t, at) && Enabled(TrashEvent(src, date, opens), at) && GoesIn(t, at, src)
    requires LeaveAlone(events, at, NewName(t, at, src))
    requires AskedName(raw) == NewName(t, at, src) && ValidName(AskedName(raw))
    requires var later := Later(t, at, src, date, opens, events);
      WayIsOpen(later.fs, Parent(PutBack(later, at, src, AskedName(raw), opens)))
    ensures PutIn(t, at, src, date, opens).r.Ok? <==> IsRecorded(src, opens)
    ensures GoesBack(t.fs, Later(t, at, src, date, opens, events), at, src, opens, raw)
  {
    PutInAnswers(t, at, src, date, opens);
    WaitsInTrash(t, at, src, date, opens, events);
    var later := Later(t, at, src, date, opens, events);
    MakeFoldersWhen(later.fs, Parent(PutBack(later, at, src, AskedName(raw), opens)));
    RestoresWhole(t.fs, Later(t, at, src, date, opens, events), at, src, date, opens, raw);
  }

  lemma RestoresWhole(fs: FileMap, t: Store, at: Places, src: Path, date: string, opens: bool, raw: string)
    requires Inv(t, at) && Enabled(TrashEvent(src, date, opens), at) && ValidName(AskedName(raw))
    requires Holds(t, at, AskedName(raw), src, date, opens) && SameTree(fs, src, t.fs, at.bin + [AskedName(raw)])
    requires MakeFolders(t.fs, Parent(PutBack(t, at, src, AskedName(raw), opens))).Some?
    ensures GoesBack(fs, t, at, src, opens, raw)
  {
    var back := PutBack(t, at, src, AskedName(raw), opens);
    ItemGoesHome(t, at, src, date, opens, raw);
    SameTreeTrans(fs, src, t.fs, at.bin + [AskedName(raw)], GiveBack(t, at, raw).store.fs, back);
    if src !in t.fs && IsRecorded(src, opens) {
      FreeIsBack(t, at, src, AskedName(raw));
    }
  }

  lemma FreeIsBack(t: Store, at: Places, src: Path, name: string)
    requires src != [] && src !in t.fs && Valid(PathText(src))
    ensures PutBack(t, at, src, name, true) == src
  {
    assert src == Parent(src) + [Leaf(src)];
    FreeIsUnique(t.fs, Parent(src), Leaf(src));
  }

  /** What the trash holds of a path put in: the item, and its record if it has one. */
  ghost predicate Holds(t: Store, at: Places, name: string, src: Path, date: string, opens: bool)
    requires IsBytes(PathText(src))
  {
    && at.bin + [name] in t.fs && (name in t.info <==> opens)
    && (opens ==> t.info[name] == Written(src, date))
  }

  /** Until an event names it, a trashed item and its record wait. */
  lemma WaitsInTrash(t: Store, at: Places, src: Path, date: string, opens: bool, events: seq<Event>)
    requires Inv(t, at) && Enabled(TrashEvent(src, date, opens), at) && GoesIn(t, at, src)
    requires LeaveAlone(events, at, NewName(t, at, src))
    ensures var later, name := Later(t, at, src, date, opens, events), NewName(t, at, src);
      Inv(later, at) && Holds(later, at, name, src, date, opens) && SameTree(t.fs, src, later.fs, at.bin + [name])
  {
    var put, name := PutIn(t, at, src, date, opens), NewName(t, at, src);
    var item, later := at.bin + [name], Run(put.store, at, events);
    PutInKeeps(t, at, src, date, opens);
    PutInMoves(t, at, src, date, opens);
    PutInNew(t, at, src, date, opens);
    RunKeeps(put.store, at, events, name);
    SameTreeTrans(t.fs, src, put.store.fs, item, later.fs, item);
    assert item + [] == item;
  }

  /** An item recorded as from `src` goes back there when it can. */
  lemma ItemGoesHome(t: Store, at: Places, src: Path, date: string, opens: bool, raw: string)
    requires Inv(t, at) && Enabled(TrashEvent(src, date, opens), at) && ValidName(AskedName(raw))
    requires Holds(t, at, AskedName(raw), src, date, opens)
    requires MakeFolders(t.fs, Parent(PutBack(t, at, src, AskedName(raw), opens))).Some?
    ensures var a, back := GiveBack(t, at, raw), PutBack(t, at, src, AskedName(raw), opens);
      && a.r == Ok(back) && SameTree(t.fs, at.bin + [AskedName(raw)], a.store.fs, back)
      && AskedName(raw) !in a.store.info
  {
    PutInRecord(src, date, at.bin);
    HomeIsOutside(t, at, AskedName(raw));
    var item, back := at.bin + [AskedName(raw)], HomeFor(t, at, AskedName(raw));
    assert back == PutBack(t, at, src, AskedName(raw), opens);
    assert item <= back ==> at.bin <= back;
    GiveBackMoves(t, at, raw);
  }

  /** A name with the lone byte E9 is enough to fail the request and lose the place. */
  lemma LatinNameLosesItsPlace(t: Store, at: Places, src: Path, date: string, opens: bool)
    requires Inv(t, at) && Enabled(TrashEvent(src, date, opens), at) && GoesIn(t, at, src)
    requires [0xE9 as char] in src
    ensures var put := PutIn(t, at, src, date, opens);
      put.r.Err? && LosesItsPlace(put.store, at, src, NewName(t, at, src))
  {
    LatinIsNotText();
    PathIsTextWhen(src);
    PutInAnswers(t, at, src, date, opens);
    PutInNew(t, at, src, date, opens);
    PutInMoves(t, at, src, date, opens);
    PutInRecord(src, date, at.bin);
  }

  /** The path is in the trash, and restoring it makes for the home folder. */
  ghost predicate LosesItsPlace(t: Store, at: Places, src: Path, name: string) {
    && src !in t.fs && at.bin + [name] in t.fs
    && HomeFor(t, at, name) == UniquePath(t.fs, at.home, name)
  }

  const NAME_MAX := 255
  const SUFFIX := ".trashinfo"

  /** On a filesystem whose names have at most 255 bytes an item may have a name and its
      record none: the request fails with the item moved, and there is no record. */
  lemma LongNameLosesItsPlace(t: Store, at: Places, src: Path, date: string, opens: bool)
    requires Inv(t, at) && Enabled(TrashEvent(src, date, opens), at) && GoesIn(t, at, src)
    requires opens ==> |NewName(t, at, src) + SUFFIX| <= NAME_MAX
    requires 245 < |NewName(t, at, src)| <= NAME_MAX
    ensures var put, name := PutIn(t, at, src, date, opens), NewName(t, at, src);
      && put.r == Err(NotFiled) && name !in put.store.info && LosesItsPlace(put.store, at, src, name)
      && !OneToOne(put.store, at.bin)
  {
    PutInNew(t, at, src, date, opens);
    PutInMoves(t, at, src, date, opens);
  }

  // ---------------------------------------------------------------------
  // Asking for an item.

  /** An item can be asked for by its plain name exactly when there is no white space
      or slash around it; put between slashes, every valid name can. */
  lemma AskingByName(name: string)
    requires ValidName(name)
    ensures AskedName(name) == name <==> !IsSpace(name[0]) && !IsSpace(name[|name| - 1])
    ensures AskedName("/" + name + "/") == name
  {
    var slash := (c: char) => c == '/';
    assert name[0] in name && name[|name| - 1] in name;
    var wrapped := "/" + name + "/";
    assert !IsSpace(wrapped[0]) && !IsSpace(wrapped[|wrapped| - 1]);
    assert wrapped[1..] == name + "/";
    assert (name + "/")[..|name + "/"| - 1] == name;
    assert Trimmed(name, slash) == name;
    assert Trimmed(name + "/", slash) == name;
  }
}
