/**
 File tags (files-app/backend.py:1032-1089): a file's own list lives in an extended
 attribute, and an index from each name to the tagged paths answers for all of them.
 Either may refuse to be written, and the index may turn out unreadable.
 */
module Tags {
  import opened Wrappers
  import opened Sequences
  import opened Texts

  type Path = string

  type Index = map<string, seq<Path>>

  // ---------------------------------------------------------------------
  // A list of names.

  predicate IsName(t: string) {
    t != "" && ',' !in t && Strip(t) == t
  }

  ghost predicate IsList(names: seq<string>) {
    && (forall t :: t in names ==> IsName(t))
    && (forall i, j :: 0 <= i < j < |names| ==> names[i] != names[j])
  }

  predicate Kept(t: string, names: seq<string>) {
    t != "" && ',' !in t && t !in names
  }

  /** The names of a request, stripped, without repeats and without the impossible. */
  function Cleaned(tags: seq<string>): seq<string> {
    if tags == [] then []
    else
      var names, t := Cleaned(tags[..|tags| - 1]), Strip(tags[|tags| - 1]);
      if Kept(t, names) then names + [t] else names
  }

  /** Cleaning gives a list, of exactly the acceptable names asked for. */
  lemma {:induction false} CleanedIsList(tags: seq<string>)
    ensures IsList(Cleaned(tags))
    ensures forall t :: t in Cleaned(tags) ==> exists i :: 0 <= i < |tags| && Strip(tags[i]) == t
    ensures forall i :: 0 <= i < |tags| && IsName(Strip(tags[i])) ==> Strip(tags[i]) in Cleaned(tags)
  {
    if tags != [] {
      var front, last := tags[..|tags| - 1], tags[|tags| - 1];
      CleanedIsList(front);
      StripTwice(last);
      forall t | t in Cleaned(tags)
        ensures exists i :: 0 <= i < |tags| && Strip(tags[i]) == t
      {
        if t in Cleaned(front) {
          var i :| 0 <= i < |front| && Strip(front[i]) == t;
          assert Strip(tags[i]) == t;
        } else {
          assert Strip(tags[|tags| - 1]) == t;
        }
      }
      forall i | 0 <= i < |tags| && IsName(Strip(tags[i]))
        ensures Strip(tags[i]) in Cleaned(tags)
      {
        if i < |front| {
          assert tags[i] == front[i];
        }
      }
    }
  }

  // ---------------------------------------------------------------------
  // The attribute.

  function NonEmpty(parts: seq<string>): seq<string> {
    if parts == [] then []
    else (if Strip(parts[0]) != "" then [Strip(parts[0])] else []) + NonEmpty(parts[1..])
  }

  function ReadBack(raw: string): seq<string> {
    NonEmpty(Split(raw))
  }

  lemma {:induction false} NonEmptyNames(names: seq<string>)
    requires forall t :: t in names ==> IsName(t)
    ensures NonEmpty(names) == names
  {
    if names != [] {
      NonEmptyNames(names[1..]);
      assert IsName(names[0]);
    }
  }

  /** Reading the joined attribute gives the list back, in order. */
  lemma ReadsBack(names: seq<string>)
    requires IsList(names)
    ensures ReadBack(Join(names)) == names
    ensures Join(names) == "" <==> names == []
  {
    if names == [] {
      assert Split("") == [""];
    } else {
      assert IsName(names[0]);
      SplitJoin(names);
      NonEmptyNames(names);
    }
  }

  // ---------------------------------------------------------------------
  // The index.

  function Others(paths: seq<Path>, path: Path): seq<Path> {
    if paths == [] then []
    else (if paths[0] != path then [paths[0]] else []) + Others(paths[1..], path)
  }

  /** The index without a path, and without the names nothing else has. */
  function Removed(idx: Index, path: Path): Index {
    map name | name in idx && Others(idx[name], path) != [] :: Others(idx[name], path)
  }

  function Under(idx: Index, name: string): seq<Path> {
    if name in idx then idx[name] else []
  }

  /** Appends the path under each name in turn. */
  function Added(idx: Index, names: seq<string>, path: Path): Index {
    if names == [] then idx
    else
      var name, before := names[|names| - 1], Added(idx, names[..|names| - 1], path);
      before[name := Under(before, name) + [path]]
  }

  function Living(paths: seq<Path>, live: set<Path>): seq<Path> {
    if paths == [] then []
    else (if paths[0] in live then [paths[0]] else []) + Living(paths[1..], live)
  }

  function Swept(idx: Index, live: set<Path>): Index {
    map name | name in idx && Living(idx[name], live) != [] :: Living(idx[name], live)
  }

  ghost predicate Dirty(idx: Index, live: set<Path>) {
    exists name :: name in idx && |Living(idx[name], live)| != |idx[name]|
  }

  // ---------------------------------------------------------------------
  // The events.

  datatype State = State(attrs: map<Path, string>, index: Index)

  /** A request to tag a path, whether the attribute could be stored, the index read
      and the index written; or a request for all tags while `live` paths exist. */
  datatype Event =
    | SetTags(path: Path, tags: seq<string>, stores: bool, reads_: bool, writes: bool)
    | AllTags(live: set<Path>, reads_: bool, writes: bool)

  function Stored(attrs: map<Path, string>, path: Path, value: string): map<Path, string> {
    if value == "" then attrs - {path} else attrs[path := value]
  }

  function Retagged(idx: Index, path: Path, names: seq<string>): Index {
    Added(Removed(idx, path), names, path)
  }

  ghost function Next(s: State, e: Event): State {
    match e
    case SetTags(path, tags, stores, reads_, writes) =>
      var names := Cleaned(tags);
      State(if stores then Stored(s.attrs, path, Join(names)) else s.attrs,
            if writes then Retagged(if reads_ then s.index else map[], path, names) else s.index)
    case AllTags(live, reads_, writes) =>
      if reads_ && writes && Dirty(s.index, live) then s.(index := Swept(s.index, live)) else s
  }

  const EMPTY := State(map[], map[])

  ghost function Run(events: seq<Event>): State {
    if events == [] then EMPTY else Next(Run(events[..|events| - 1]), events[|events| - 1])
  }

  // ---------------------------------------------------------------------
  // What every run keeps.

  /** The list last written for a path, if it has been neither lost nor swept since. */
  ghost function LastWritten(events: seq<Event>, path: Path): seq<string> {
    if events == [] then []
    else
      var e, before := events[|events| - 1], LastWritten(events[..|events| - 1], path);
      match e
      case SetTags(p, tags, _, reads_, writes) =>
        if !writes then before
        else if p == path then Cleaned(tags)
        else if reads_ then before else []
      case AllTags(live, reads_, writes) =>
        if reads_ && writes && path !in live then [] else before
  }

  /** The list last stored with the file itself. */
  ghost function LastStored(events: seq<Event>, path: Path): seq<string> {
    if events == [] then []
    else
      var e, before := events[|events| - 1], LastStored(events[..|events| - 1], path);
      if e.SetTags? && e.path == path && e.stores then Cleaned(e.tags) else before
  }

  ghost predicate Tidy(idx: Index) {
    forall name :: name in idx ==> idx[name] != [] && Distinct(idx[name])
  }

  lemma {:induction false} OthersAre(paths: seq<Path>, path: Path)
    ensures forall p :: p in Others(paths, path) <==> p in paths && p != path
    ensures Distinct(paths) ==> Distinct(Others(paths, path))
  {
    if paths != [] {
      OthersAre(paths[1..], path);
      assert forall p :: p in paths <==> p == paths[0] || p in paths[1..];
      if Distinct(paths) {
        assert paths[0] !in paths[1..];
        assert Distinct(paths[1..]);
      }
    }
  }

  lemma {:induction false} LivingAre(paths: seq<Path>, live: set<Path>)
    ensures forall p :: p in Living(paths, live) <==> p in paths && p in live
    ensures Distinct(paths) ==> Distinct(Living(paths, live))
    ensures |Living(paths, live)| <= |paths|
    ensures |Living(paths, live)| == |paths| ==> forall p :: p in paths ==> p in live
  {
    if paths != [] {
      LivingAre(paths[1..], live);
      assert forall p :: p in paths <==> p == paths[0] || p in paths[1..];
      if Distinct(paths) {
        assert paths[0] !in paths[1..];
        assert Distinct(paths[1..]);
      }
    }
  }

  lemma RemovedIs(idx: Index, path: Path)
    requires Tidy(idx)
    ensures Tidy(Removed(idx, path))
    ensures forall name, p :: p in Under(Removed(idx, path), name) <==> p in Under(idx, name) && p != path
  {
    forall name | name in idx
      ensures Distinct(Others(idx[name], path))
      ensures forall p :: p in Others(idx[name], path) <==> p in idx[name] && p != path
    {
      OthersAre(idx[name], path);
    }
  }

  lemma {:induction false} AddedIs(idx: Index, names: seq<string>, path: Path)
    requires Tidy(idx) && IsList(names) && forall name :: path !in Under(idx, name)
    ensures Tidy(Added(idx, names, path))
    ensures forall name ::
      Under(Added(idx, names, path), name) == Under(idx, name) + if name in names then [path] else []
  {
    if names != [] {
      var front, last := names[..|names| - 1], names[|names| - 1];
      AddedIs(idx, front, path);
      OneMore(Added(idx, front, path), last, path);
      assert forall name :: name in names <==> name in front || name == last;
      assert last !in front;
    }
  }

  lemma OneMore(idx: Index, last: string, path: Path)
    requires Tidy(idx) && path !in Under(idx, last)
    ensures Tidy(idx[last := Under(idx, last) + [path]])
  {
    assert Distinct(Under(idx, last));
    assert Distinct(Under(idx, last) + [path]);
  }

  /** Tagging: the path comes last under each of its names and nowhere else, and the
      other paths stay as they were, in their order. */
  lemma RetaggedIs(idx: Index, path: Path, names: seq<string>)
    requires Tidy(idx) && IsList(names)
    ensures Tidy(Retagged(idx, path, names))
    ensures forall name ::
      Under(Retagged(idx, path, names), name) == Others(Under(idx, name), path) + if name in names then [path] else []
    ensures forall name, p :: p in Under(Retagged(idx, path, names), name) <==>
      if p == path then name in names else p in Under(idx, name)
  {
    RemovedIs(idx, path);
    AddedIs(Removed(idx, path), names, path);
  }

  lemma SweptIs(idx: Index, live: set<Path>)
    requires Tidy(idx)
    ensures Tidy(Swept(idx, live))
    ensures forall name, p :: p in Under(Swept(idx, live), name) <==> p in Under(idx, name) && p in live
    ensures !Dirty(idx, live) ==> forall name, p :: p in Under(idx, name) ==> p in live
  {
    forall name | name in idx
      ensures Distinct(Living(idx[name], live))
      ensures forall p :: p in Living(idx[name], live) <==> p in idx[name] && p in live
      ensures |Living(idx[name], live)| == |idx[name]| ==> forall p :: p in idx[name] ==> p in live
    {
      LivingAre(idx[name], live);
    }
  }

  /** After any run of requests, whatever failed along the way, a path is under a name
      exactly when the name is in the list last written for it; once each, and no
      name is left empty. */
  lemma {:induction false} IndexIsRight(events: seq<Event>)
    ensures Tidy(Run(events).index)
    ensures forall name, path :: path in Under(Run(events).index, name) <==> name in LastWritten(events, path)
  {
    if events != [] {
      var e, front := events[|events| - 1], events[..|events| - 1];
      IndexIsRight(front);
      var idx := Run(front).index;
      match e {
        case SetTags(path, tags, _, reads_, writes) =>
          CleanedIsList(tags);
          RetaggedIs(if reads_ then idx else map[], path, Cleaned(tags));
        case AllTags(live, _, _) =>
          SweptIs(idx, live);
      }
    }
  }

  /** What a file's tags read as: the list last stored with it, in order. */
  lemma {:induction false} AttributeIsRight(events: seq<Event>, path: Path)
    ensures ReadBack(var attrs := Run(events).attrs; if path in attrs then attrs[path] else "") ==
      LastStored(events, path)
  {
    if events == [] {
      ReadsBack([]);
    } else {
      var e := events[|events| - 1];
      AttributeIsRight(events[..|events| - 1], path);
      if e.SetTags? {
        CleanedIsList(e.tags);
        ReadsBack(Cleaned(e.tags));
      }
    }
  }

  /** When every request went through whole, the index agrees with the files' own
      lists. */
  lemma {:induction false} IndexAgreesWithFiles(events: seq<Event>, path: Path)
    requires forall i :: 0 <= i < |events| ==>
      events[i].SetTags? && events[i].stores && events[i].reads_ && events[i].writes
    ensures LastWritten(events, path) == LastStored(events, path)
  {
    if events != [] {
      IndexAgreesWithFiles(events[..|events| - 1], path);
    }
  }

  // ---------------------------------------------------------------------
  // The store, changed in place.

  datatype Problem = NoPath | NotFound

  datatype Answer = Answer(path: Path, names: seq<string>, stored: bool)

  class TagStore {
    var attrs: map<Path, string>
    var index: Index

    constructor ()
      ensures View() == EMPTY
    {
      attrs, index := map[], map[];
    }

    ghost function View(): State
      reads this
    {
      State(attrs, index)
    }

    /** After any requests, a file's tags are the list last stored with it. */
    method GetTags(path: Path, present: bool, ghost events: seq<Event>) returns (r: Result<seq<string>, Problem>)
      requires View() == Run(events)
      ensures path == "" ==> r == Err(NoPath)
      ensures path != "" && !present ==> r == Err(NotFound)
      ensures path != "" && present ==> r == Ok(LastStored(events, path))
    {
      if path == "" {
        return Err(NoPath);
      }
      if !present {
        return Err(NotFound);
      }
      AttributeIsRight(events, path);
      r := Ok(ReadBack(if path in attrs then attrs[path] else ""));
    }

    method SetFileTags(path: Path, present: bool, tags: seq<string>, stores: bool, reads_: bool, writes: bool)
      returns (r: Result<Answer, Problem>)
      modifies this
      ensures path == "" ==> r == Err(NoPath) && View() == old(View())
      ensures path != "" && !present ==> r == Err(NotFound) && View() == old(View())
      ensures path != "" && present ==> r == Ok(Answer(path, Cleaned(tags), stores))
      ensures path != "" && present ==> View() == Next(old(View()), SetTags(path, tags, stores, reads_, writes))
    {
      if path == "" {
        return Err(NoPath);
      }
      if !present {
        return Err(NotFound);
      }
      var clean := Clean(tags);
      if stores {
        attrs := Stored(attrs, path, Join(clean));
      }
      var idx: Index := if reads_ then index else map[];
      idx := Remove(idx, path);
      idx := Append(idx, clean, path);
      if writes {
        index := idx;
      }
      r := Ok(Answer(path, clean, stores));
    }
  }

  method Clean(tags: seq<string>) returns (clean: seq<string>)
    ensures clean == Cleaned(tags)
  {
    clean := [];
    for i := 0 to |tags|
      invariant clean == Cleaned(tags[..i])
    {
      assert tags[..i + 1][..i] == tags[..i];
      var t := Strip(tags[i]);
      if t != "" && ',' !in t && t !in clean {
        clean := clean + [t];
      }
    }
    assert tags[..|tags|] == tags;
  }

  method Remove(idx: Index, path: Path) returns (out: Index)
    ensures out == Removed(idx, path)
  {
    out := idx;
    var names := idx.Keys;
    while names != {}
      invariant names <= idx.Keys && names <= out.Keys && out.Keys <= idx.Keys
      invariant forall name :: name in names ==> out[name] == idx[name]
      invariant forall name :: name in idx && name !in names ==> (name in out <==> Others(idx[name], path) != [])
      invariant forall name :: name in out && name !in names ==> out[name] == Others(idx[name], path)
      decreases |names|
    {
      var name :| name in names;
      var paths := Others(idx[name], path);
      if paths != [] {
        out := out[name := paths];
      } else {
        out := out - {name};
      }
      names := names - {name};
    }
  }

  method Append(idx: Index, names: seq<string>, path: Path) returns (out: Index)
    ensures out == Added(idx, names, path)
  {
    out := idx;
    for i := 0 to |names|
      invariant out == Added(idx, names[..i], path)
    {
      assert names[..i + 1][..i] == names[..i];
      out := out[names[i] := Under(out, names[i]) + [path]];
    }
    assert names[..|names|] == names;
  }
}
