# Aurade in Dafny

Aurade is a desktop: a file manager written in Python that serves its own pages, a
Weston shell in C that hosts Ash windows, tools that rewrite Chromium's resource
paks, an adapter that shows NetworkManager to Ash in Shill's terms, and a bridge
that runs package commands. This project models the parts of it that decide
something and proves what they are for.

`dafny verify dfyconfig.toml` checks everything.

## What is modelled

**Conditions (`JsText`, `Conditions`, `ConditionWalk`).** A command's condition is
compiled to a JavaScript predicate, with the terms the page cannot ask about taken
as unknown. `JsText` reads predicate text with JavaScript's precedence (section 13.13
of ECMA-262), so that what is emitted has a meaning of its own. `Conditions` gives a
condition its Kleene value and the pair of texts the compiler carries. `ConditionWalk`
is the recursive descent with its cursor, tied step by step to functions on the words
left, and shown to read back every printed condition.

**The shell (`Stacking`, `ShellObjects`, `SurfaceTrees`, `ShellDesk`, `Shell`,
`ShellEvents`, `OutputLine`, `PointerMotion`).** Surfaces, outputs and the seat are objects, and
`Shell.ShellState` changes them in place. `SurfaceTrees` is about the lists that are
split and re-stacked, for trees of any shape. `ShellDesk` and `ShellRuns` are the same
state as a value, with every event a function on it, and prove what all runs of
childless top-levels keep. `ShellEvents` says what each event does, from the state before
and after it. `OutputLine` turns outputs in a line; `PointerMotion` maps a motion through
two rectangles, over the reals.

**Files (`Names`, `FileTree`, `FileOps`, `FileTraces`, `FileSkips`, `Utf8`, `TrashRecords`,
`Trash`, `Texts`, `Tags`, `Jobs`).** A filesystem is a map from paths to nodes in which every
parent exists and is a folder. The conflict modes, the search for a free name, copies,
moves, the trash with its percent-encoded records (section 2.1 of RFC 3986, over UTF-8 as
in sections 3 and 4 of RFC 3629), the tag index beside the files' own attributes, and the
background jobs under every interleaving. `FileTraces` follows every path through a whole
request: where its content was at the start. `FileSkips` does so for requests that leave
alone what is there.

**The page crawl (`Discover`).** A budgeted breadth-first worklist over directories, whose
keys are paths, so that a directory is listed by its parent alone.

**Paks (`Pak`, `PakTools`, `ContentMap`).** The little-endian format with its offset
table and sentinel, the two tools that rewrite it with their guards, and the mapping
of one build's ids to another's by content, with the rewrite that uses it.

**Networks (`Networks`, `NetworkMonitor`).** The services shown for each radio and
cable, and the reverse index from access points. Service identities are hashes of a
device and a network name, taken as distinct, so a service's path is named by what is
hashed.

**Package jobs (`PackageJobs`).** One package command at a time, under a flag.

Clocks, random ids, the bus, the disk's refusals and what Weston, NetworkManager and
the shell of the operating system answer are parameters of the events.

## Where the code does something other than it says

- `api_copy` and `api_move` with `replace`: each destination is removed before its source
  is read, so a request can destroy what it was asked to copy or move.
  `FileTraces.MoveReplacesWhen` says exactly when a move leaves every source whole at a
  place of its own: the places differ, no source holds another, and none is at or below
  the place of an earlier one or of its own. `FileTraces.CopyReplacesWhen` says it for a
  copy, which reads a source below an earlier place from what landed there.
  `FileTraces.SameNameLoses` (two files of one name: the move succeeds and the first is
  nowhere) and `FileTraces.UnderPlaceLoses` are families of failing requests, and
  `FileTraces.ReplacingLeaves` is the exact outcome of every request.
- `api_move` checks each source before anything is moved, so nested or repeated sources
  pass. `FileTraces.MoveKeepsWholeWhen`: with `keep-both` every source ends whole at a place
  of its own exactly when no source holds another or is there twice. A folder and then
  something in it: the request stops, with the folder moved
  (`FileTraces.HolderFirstStops`). The other way round it succeeds, and the folder has
  arrived without what was moved out of it (`FileTraces.HeldFirstLeavesHole`). Nothing is
  lost (`FileTraces.MoveOutcome`).
- `api_trash` moves an item first, makes its record's file after and encodes the record last.
  The file's name is ten bytes longer than the item's, so for a name of 246 to 255 bytes the
  filesystem refuses it (`files-app/backend.py:868`): the request fails with the item in the
  trash and no record (`TrashRuns.LongNameLosesItsPlace`). For a path that is not UTF-8 the
  encoding raises: the request fails likewise, and the record stays empty
  (`TrashRuns.LatinNameLosesItsPlace`). Either way the item is restored to the home folder.
  `TrashRuns.OneToOneWhen` says exactly when items and records stay one to one, and
  `TrashRuns.RestoreGivesBack` where an item goes back to.
- The reverse index of access points: an access point that changes its name, where
  the old network has no other, loses the entry that was just written for it.
  `NetworkRuns.IndexIsRightWhen` says exactly when the index is right after a scan, and
  `NetworkRuns.RenamingLosesTheEntry` what such an access point is left with.
- The page crawl keeps the best budget offered to a directory so that a shallow seed
  cannot hide the folders of a deep one. `Discover.CrawlFindsAll` and
  `Discover.UnsettledSeedsHide` together say exactly for which seeds that holds on every
  tree: no seed leaves another below it more than that one has, unless the other's parent
  is a seed taken before it. The site's own seeds are such at the default depth of two and,
  with home as the one volume, as shipped, at any depth (`Discover.SiteIsComplete`). From
  three on a volume two levels below home is enough to hide folders
  (`Discover.SiteIsSettledWhen`, `Discover.DepthThreeMayHide`).
- The guard of the swap tool with ids asked for: in same-id mode, on a target that repeats
  no id, it goes through only when these are all the ids whose bytes differ, so asking for
  some of them is refused as a wrong mapping. `PakTools.SwapGoesThroughWhen`. With `--map-by-content` two donors may
  share a place; the last wins, and the guard does not see it (`PakTools.SwapIsFaithfulWhen`).
  The nine in ten that must agree do not keep this from happening:
  `ContentMap.SharedPlaceIsLost` is a family of inputs.
- An item of the trash whose name begins or ends with white space cannot be asked for
  by that name; it can be asked for between slashes. `TrashRuns.AskingByName`.

## Model

| member | source | states |
|---|---|---|
| JsText.EmitMeans | files-app/build_v3.py:174-197 | the text of any nesting of `_and`, `_or` and `_not` reads, at JavaScript's precedence, as that nesting's value on every page |
| JsText.AndMeans | files-app/build_v3.py:174-183 | `_and` of two texts means both, folding of the literals included |
| JsText.OrMeans | files-app/build_v3.py:186-190 | `_or` of two texts means either, folding of the literals included |
| JsText.FlipMeans | files-app/build_v3.py:193-197 | negating a text, literal or not, gives one of the opposite value |
| JsText.BracketsNeeded | files-app/build_v3.py:180-183 | a disjunction of any two operands, joined bare to any conjunction, reads as something else on exactly the pages where the conjunction is false and the last operand true; bracketed it reads as intended |
| JsText.JoinAnd | files-app/build_v3.py:180-183 | two conjunctions joined by `&&` read as one conjunction of both values |
| Conditions.PairMeansValue | files-app/build_v3.py:200-288 | the first text is true when the Kleene value is not No and the second when it is Yes, in every page state |
| Conditions.ValueCoversAnswers | files-app/build_v3.py:200-208 | a Kleene Yes or No is the answer under every reading of the unknown terms |
| Conditions.PairNeverDecided | files-app/build_v3.py:174-197 | the first text is never the literal false and the second never the literal true |
| Conditions.EmittersKeepUndecided | files-app/build_v3.py:174-197 | no emitter makes the literal false out of texts that are not, nor true likewise |
| Conditions.NothingKnown | files-app/build_v3.py:217-218 | with no known marker a condition has no answer, so leaving it out hides nothing |
| ConditionWalk.ConditionReads | files-app/build_v3.py:224-283 | on the words of any well-formed condition the walk consumes exactly that condition and answers its pair, whatever follows |
| ConditionWalk.CompiledIsKleene | files-app/build_v3.py:200-288 | the compiled predicate is true exactly when the condition's Kleene value is not No, in every page state |
| ConditionWalk.NeverHidden | files-app/build_v3.py:200-208 | a command whose condition holds under any reading of its unknown terms is shown |
| ConditionWalk.BadMarkerIsAlwaysOn | files-app/build_v3.py:252-254 | a marker that names nothing, anywhere in a well-formed condition, makes the command always on |
| ConditionWalk.SkipsBalanced | files-app/build_v3.py:235-247 | balanced arguments are skipped whole, whatever words they hold |
| ConditionWalk.TermReads | files-app/build_v3.py:249-264 | a term of several words, each with calls, is one unknown |
| ConditionWalk.KnownReads | files-app/build_v3.py:249-254 | a known marker followed by calls is its atom |
| ConditionWalk.FactorReads | files-app/build_v3.py:224-264 | every factor's words are read as its pair, with the rest left alone |
| ConditionWalk.ConjunctionReads | files-app/build_v3.py:266-273 | every conjunction's words are read as its pair, associating to the left |
| ConditionWalk.Walk.Call | files-app/build_v3.py:235-247 | the cursor ends where skipping the calls ends, on unbalanced words too |
| ConditionWalk.Walk.NextFactor | files-app/build_v3.py:224-264 | the cursor and the answer are those of the factor of the words left; it ends on every list |
| ConditionWalk.Walk.NextConjunction | files-app/build_v3.py:266-273 | the cursor and the answer are those of the conjunction of the words left |
| ConditionWalk.Walk.NextDisjunction | files-app/build_v3.py:275-283 | the cursor and the answer are those of the disjunction of the words left |
| ConditionWalk.CompileCondition | files-app/build_v3.py:209-288 | the text compiled from known atoms and a word list, for every list |
| Discover.CrawlFindsAll | files-app/build_v3.py:2592-2625 | for settled seeds, on every tree of listings, a crawl that runs out of directories has exactly the pages within the budget |
| Discover.CrawlIsBreadthFirst | files-app/build_v3.py:2592-2625 | for any seeds, on every tree: the seeds come first in their order, and then children in the order of the pages that list them and of each listing |
| Discover.PathGoesDown | files-app/localfs.py:31-76 | a path of listings goes down one name at a time, with nothing hidden or skipped on the way |
| Discover.UnsettledSeedsHide | files-app/build_v3.py:2600-2616 | for any seeds that are not settled there is a tree with a directory within the budget that no crawl ever makes a page |
| Discover.SiteIsSettledWhen | files-app/build_v3.py:3388-3392 | the seeds the site is built from are settled exactly when no volume that may come too early is below a deep directory by less than the depth |
| Discover.SiteIsComplete | files-app/build_v3.py:3388-3392 | so they are at a depth of two or less, and at any depth when every volume is the start or home |
| Discover.VolumeUnsettles | files-app/build_v3.py:3388-3392 | and they are not with a volume whose parent is no seed, fewer levels below a deep directory than the depth |
| Discover.DepthThreeMayHide | files-app/build_v3.py:3388-3392 | such as one two levels below home at a depth of three |
| Discover.Discover | files-app/build_v3.py:2592-2625 | the crawl ends; its pages are distinct, reachable, not skipped and within the limit, breadth first on every tree, and complete for settled seeds below the limit |
| Discover.AfterIsSafe | files-app/build_v3.py:2592-2625 | after any number of steps from any seeds: pages distinct, none to be skipped, each within a seed's budget, at most the limit |
| Discover.PathIsFollowed | files-app/build_v3.py:2611-2625 | with the queue empty, the end of every path has been offered what the path leaves |
| SurfaceTrees.SplitHoldsTrees | chromiumos-ash/aurade-weston-shell.c:466-516 | unparenting leaves every root's list holding exactly its tree |
| SurfaceTrees.SplitSharesOut | chromiumos-ash/aurade-weston-shell.c:466-516 | the old root's list is shared out between two lists, nothing lost or duplicated, each in the old order |
| SurfaceTrees.CutMakesRoot | chromiumos-ash/aurade-weston-shell.c:263-270 | cutting a surface off makes it the root of exactly its descendants |
| SurfaceTrees.RaisedHoldsTrees | chromiumos-ash/aurade-weston-shell.c:1202-1237 | raising a subtree keeps every list's tree |
| SurfaceTrees.RaisedKeepsOrder | chromiumos-ash/aurade-weston-shell.c:1202-1237 | after raising, descendants come before the rest, each group in its old order, with the same members |
| Shell.CheckDescendant | chromiumos-ash/aurade-weston-shell.c:444-456 | the climb answers whether one surface is above another |
| Shell.FindRoot | chromiumos-ash/aurade-weston-shell.c:263-270 | the climb answers a surface's root |
| Shell.TakeSubtree | chromiumos-ash/aurade-weston-shell.c:1206-1222 | the loop over the list takes out the descendants in order and leaves the rest in theirs |
| Shell.SplitLists | chromiumos-ash/aurade-weston-shell.c:499-511 | the loop over the old root's list leaves both lists as splitting has them |
| Shell.CutTree | chromiumos-ash/aurade-weston-shell.c:466-511 | parents and lists afterwards are those of the cut and the split, and still hold trees |
| Shell.ShellState.SetActiveTree | chromiumos-ash/aurade-weston-shell.c:1170-1198 | the old tree's views go under in order and the new tree's come on top in theirs |
| Shell.ShellState.RaiseSubtree | chromiumos-ash/aurade-weston-shell.c:1202-1237 | the active list becomes the raised one and the layer is re-stacked to match, for trees of any shape |
| Shell.ShellState.Unparent | chromiumos-ash/aurade-weston-shell.c:466-516 | a child becomes a root with its list, and its output shows its whole tree |
| ShellRuns.ShellIsSafe | chromiumos-ash/aurade-weston-shell.c:272-397 | in every state of every run: an active tree is that of a live surface on that output, no surface is active twice, an output with a mapped surface shows one, focus is none or counted once and all others zero |
| ShellRuns.RunKeeps | chromiumos-ash/aurade-weston-shell.c:272-397 | every run from a good state ends in a good state |
| ShellRuns.MoveKeeps | chromiumos-ash/aurade-weston-shell.c:367-397 | moving a surface to any output, or none, keeps the invariant |
| ShellRuns.AddedKeeps | chromiumos-ash/aurade-weston-shell.c:1421-1442 | a new surface, placed on the best output, keeps it |
| ShellRuns.CommittedKeeps | chromiumos-ash/aurade-weston-shell.c:1574-1648 | a commit, the first showing included, keeps it |
| ShellRuns.RemovedKeeps | chromiumos-ash/aurade-weston-shell.c:1499-1571 | a removal, with its succession of focus, keeps it |
| ShellRuns.SuccessionKeeps | chromiumos-ash/aurade-weston-shell.c:1445-1496 | the successor on the same output is shown and the output stays lit |
| ShellRuns.LastGoes | chromiumos-ash/aurade-weston-shell.c:1499-1571 | when the last surface of an output goes, nothing is shown and nothing is counted |
| ShellRuns.PluggedKeeps | chromiumos-ash/aurade-weston-shell.c:1376-1418 | a new output keeps it |
| ShellRuns.UnpluggedKeeps | chromiumos-ash/aurade-weston-shell.c:253-261 | an output that goes leaves its surfaces without one and keeps it |
| ShellRuns.RefocusKeeps | chromiumos-ash/aurade-weston-shell.c:657-691 | giving the focus to a mapped surface counts it once and no other |
| ShellEvents.RequestMoves | chromiumos-ash/aurade-weston-shell.c:367-417 | a request that names another output moves the surface there; if mapped, that output shows it on top and what was there is hidden first, and the output left shows the uppermost of its other surfaces; one that names its own changes nothing |
| ShellEvents.UnnamedRequestStays | chromiumos-ash/aurade-weston-shell.c:399-417 | a request that names no output leaves a placed surface where it was, and finds an output for one without |
| ShellEvents.NewcomerIsPlaced | chromiumos-ash/aurade-weston-shell.c:1421-1442 | a new surface has the first output that shows nothing, or else the focused or the default one, and nothing else changes until it commits |
| ShellEvents.IdleCommit | chromiumos-ash/aurade-weston-shell.c:1574-1648 | a commit without a size, or of a mapped surface on an output, changes nothing |
| ShellEvents.CommitFindsOutput | chromiumos-ash/aurade-weston-shell.c:1588-1602 | a mapped surface without an output is given one at its next commit and is shown there |
| ShellEvents.FirstCommitShows | chromiumos-ash/aurade-weston-shell.c:1574-1648 | the first sized commit maps the surface, shows it on top of its output and gives it the focus; all else but the view it covers is as it was |
| ShellEvents.ClickFocuses | chromiumos-ash/aurade-weston-shell.c:657-691 | a click gives the focus to the surface, and brings it to the top if its output shows it |
| ShellEvents.RemovalHandsOver | chromiumos-ash/aurade-weston-shell.c:1445-1571 | a removal takes the surface out of everything; its output shows the uppermost of the others there if it showed it; the focus goes to that one if it was on the surface or on another output |
| ShellEvents.PlugAddsDark | chromiumos-ash/aurade-weston-shell.c:1376-1418 | a new output comes last and shows nothing; all else is as it was |
| ShellEvents.UnplugOrphans | chromiumos-ash/aurade-weston-shell.c:253-261 | an output that goes leaves its surfaces without one; all else is as it was |
| ShellEvents.OrphanIsFoundOutput | chromiumos-ash/aurade-weston-shell.c:1588-1602 | a surface whose output was unplugged is shown at its next commit on the output found for it, if one is left |
| Shell.ShellState.Move | chromiumos-ash/aurade-weston-shell.c:367-397 | the whole state after moving a surface |
| Shell.ShellState.FindBestOutput | chromiumos-ash/aurade-weston-shell.c:284-315 | its own output, else the first empty one, else the focused, else the default |
| Shell.ShellState.FindOther | chromiumos-ash/aurade-weston-shell.c:339-365 | the topmost other view on an output, visible layer first |
| Shell.ShellState.SurfaceAdded | chromiumos-ash/aurade-weston-shell.c:1421-1442 | the whole state after an arrival, and that it is good |
| Shell.ShellState.SurfaceCommitted | chromiumos-ash/aurade-weston-shell.c:1574-1648 | the whole state after a commit, and that it is good |
| Shell.ShellState.SurfaceRemoved | chromiumos-ash/aurade-weston-shell.c:1499-1571 | the whole state after a removal, and that it is good |
| Shell.ShellState.FullscreenRequested | chromiumos-ash/aurade-weston-shell.c:1677-1694 | the whole state after a request to move, and that it is good |
| Shell.ShellState.ClickedToActivate | chromiumos-ash/aurade-weston-shell.c:657-691 | the whole state after a click, and that it is good |
| Shell.ShellState.OutputCreated | chromiumos-ash/aurade-weston-shell.c:1376-1418 | the whole state after an output is plugged in, and that it is good |
| Shell.ShellState.OutputDestroyed | chromiumos-ash/aurade-weston-shell.c:253-261 | the whole state after an output is unplugged, and that it is good |
| OutputLine.TurnOneKeepsLine | chromiumos-ash/aurade-weston-shell.c:954-983 | turning one output keeps every other's order and every gap's width, and nothing overlaps |
| OutputLine.TurnAllKeepsLine | chromiumos-ash/aurade-weston-shell.c:986-1004 | a pass keeps the line, and every placed output that is not going away has the transform wanted |
| OutputLine.StandsUpright | chromiumos-ash/aurade-weston-shell.c:931-1004 | after a pass each placed output's transform undoes Ash's rotation, in degrees, and its width is that of the side then across |
| OutputLine.UnplacedStays | chromiumos-ash/aurade-weston-shell.c:983-1004 | an output that Ash has not placed keeps its transform |
| OutputLine.GoingIsLeft | chromiumos-ash/aurade-weston-shell.c:968-993 | an output that is going away is left as it is |
| OutputLine.LayoutForIs | chromiumos-ash/aurade-weston-shell.c:697-709 | an output's entry is the first of its name, if it has a name and there is one |
| OutputLine.TurnManyKeepsLine | chromiumos-ash/aurade-weston-shell.c:986-1004 | any sequence of passes keeps the line |
| OutputLine.TurningBackRestores | chromiumos-ash/aurade-weston-shell.c:933-1004 | once every output has its first width again it stands where it first did |
| OutputLine.Compositor.TurnOutput | chromiumos-ash/aurade-weston-shell.c:954-983 | the outputs after turning one, shifted in place |
| OutputLine.Compositor.TurnOutputs | chromiumos-ash/aurade-weston-shell.c:986-1004 | the outputs after a pass over all of them |
| PointerMotion.LandsOnAnOutput | chromiumos-ash/aurade-weston-shell.c:742-813 | wherever a motion is remapped to, an existing output has that pixel |
| PointerMotion.RemapsWhen | chromiumos-ash/aurade-weston-shell.c:742-773 | a motion is remapped exactly when Ash has a layout, the output the pointer is on has a size and the motion's end is not on it, and Ash has that output in a box with a size |
| PointerMotion.OffEveryOutput | chromiumos-ash/aurade-weston-shell.c:742-764 | with the pointer on no output a motion is left alone |
| PointerMotion.MotionLands | chromiumos-ash/aurade-weston-shell.c:766-812 | where a remapped motion ends: the logical point of its end, in proportion; on the first other output Ash has there, the pixel nearest to the point as far into it; with none, the pixel of the output left nearest to the end |
| PointerMotion.CrossingKeepsThePoint | chromiumos-ash/aurade-weston-shell.c:771-812 | before the clamp the point is the same Ash point in the target's map, and the clamp moves it by less than a pixel each way |
| PointerMotion.OffTheDesktopStaysAtTheEdge | chromiumos-ash/aurade-weston-shell.c:804-812 | off Ash's desktop the pointer stays at the edge it was pushed over |
| PointerMotion.OrderDoesNotMatter | chromiumos-ash/aurade-weston-shell.c:775-796 | with outputs apart in both systems the answer does not depend on the order of the list |
| PointerMotion.MapRoundTrips | chromiumos-ash/aurade-weston-shell.c:771-803 | mapping to another box and back is where it started, and stays inside |
| PointerMotion.MapPointerMotion | chromiumos-ash/aurade-weston-shell.c:742-813 | the remapped motion, or none, for every motion |
| FileOps.LeastFree | files-app/backend.py:114-123 | the search for a free number ends, at the least one |
| FileOps.TakenShrinks | files-app/backend.py:114-123 | each number passed over is one taken name fewer |
| FileOps.FindUnique | files-app/backend.py:114-123 | the loop finds that name |
| FileOps.UniqueIs | files-app/backend.py:114-124 | the name itself if it is free, and else the first free of the numbered ones from two on |
| Names.NumberedInjective | files-app/backend.py:103-112 | two numbers never make the same name of a name |
| Names.NumberedKeepsExtension | files-app/backend.py:103-112 | a numbered name keeps its extension |
| Names.NumberedIs | files-app/backend.py:103-112 | the number goes in brackets before the extension, or at the end of a name with none or with its only dot in front |
| Names.DecimalReads | files-app/backend.py:103-112 | a number is written in decimal digits, with no zero before it, and reads as itself |
| FileOps.ResolvedIsFree | files-app/backend.py:213-237 | whatever the mode, the destination is free by the time anything is written |
| FileOps.FileSystem.ResolveDest | files-app/backend.py:213-224 | proceed, skip or refuse, as each mode has it |
| FileOps.FileSystem.CopyToResolved | files-app/backend.py:1588-1609 | the filesystem and the answer after copying one source |
| FileOps.FileSystem.Copy | files-app/backend.py:1612-1651 | the filesystem and the answer after a copy of any list, the errors included |
| FileOps.FileSystem.Move | files-app/backend.py:1654-1701 | the filesystem and the answer after a move of any list, the errors included |
| FileOpsPromises.CopyPromise | files-app/backend.py:1612-1651 | a keep-both copy that passes the checks leaves every path unchanged and gives each source its own fresh, faithful copy |
| FileOpsPromises.MovePromise | files-app/backend.py:1654-1701 | a keep-both move of sources none of which holds another conserves all content |
| FileOpsPromises.ReplaceIsFaithful | files-app/backend.py:1588-1609 | one copy with replace is faithful exactly when the destination is neither the source nor above it, and otherwise the source is gone |
| FileOpsPromises.TakenIsLeftAlone | files-app/backend.py:213-224 | skip and fail-if-exists change nothing where the destination is taken |
| FileOpsPromises.ChecksSuffice | files-app/backend.py:1612-1640 | past the checks every source is there and holds no part of the destination |
| FileOpsPromises.ChecksPassWhen | files-app/backend.py:1612-1633 | exactly which requests pass the checks, and what the first thing wrong is answered with |
| FileOpsPromises.CopyNames | files-app/backend.py:1588-1594 | each keep-both copy gets the name asked for if it is free at its turn, and else the first free of the numbered ones from two on |
| FileOpsPromises.TypedNameCounts | files-app/backend.py:183-187 | a name typed for a source is the one it is to land under, and without one its own |
| FileTraces.CopyReplacesWhen | files-app/backend.py:1612-1651 | a request to copy with replace leaves every source whole at a place of its own exactly when the places differ, none is at or above its own source, and each source is like the tree that is read for it |
| FileTraces.ClearCopyReplaces | files-app/backend.py:1612-1651 | which holds whenever the places differ and no source is at or below the place of an earlier one or of its own |
| FileTraces.MoveReplacesWhen | files-app/backend.py:1654-1701 | a request to move with replace leaves every source whole at a place of its own exactly when the places differ, no source holds another, and none is at or below the place of an earlier one or of its own |
| FileTraces.ReplacingLeaves | files-app/backend.py:1612-1701 | what any request with replace leaves, path by path: the sources before the first that is not ready have landed, and for that one its place is emptied and the request fails |
| FileTraces.RestIsAsItWas | files-app/backend.py:1612-1701 | with replace, what is under no place, and for a move under no source, is as it was, whether or not the request fails |
| FileTraces.SameNameLoses | files-app/backend.py:1654-1701 | two files of one name moved with replace: the request passes the checks and succeeds, and what the first held is nowhere |
| FileTraces.UnderPlaceLoses | files-app/backend.py:1654-1701 | a file below the place of an earlier source passes the checks and is destroyed before its turn |
| FileTraces.MoveOutcome | files-app/backend.py:1654-1701 | any keep-both move past the checks, of nested or repeated sources too: what was anywhere is in exactly one place, with the same content, under the first name free at its turn, and the request fails only at a source that went with an earlier one |
| FileTraces.MoveKeepsWholeWhen | files-app/backend.py:1654-1701 | any keep-both move past the checks leaves every source whole at a place of its own exactly when no source holds another or is there twice |
| FileTraces.HolderFirstStops | files-app/backend.py:1654-1701 | a folder and then something in it pass the checks, and the request fails at the second with the folder already moved whole |
| FileTraces.HeldFirstLeavesHole | files-app/backend.py:1654-1701 | something in a folder and then the folder pass the checks, the request succeeds, and the folder has arrived without what it held |
| FileSkips.SkippingCopyPromise | files-app/backend.py:1612-1651 | a copy that skips: a source lands exactly when nothing is at its place and no earlier source has it, whole and at that place; the answer lists these in order, and all else is as it was |
| FileSkips.SkippingMovePromise | files-app/backend.py:1654-1701 | a move that skips, of sources none of which holds another: those whose place is free at their turn land whole at that place, the others stay where they are, the answer lists the first in order, and all else is as it was |
| FileSkips.RefusingPromise | files-app/backend.py:1612-1701 | a request that refuses what is taken: the sources before the first whose place is taken have landed whole at their places, that one fails, and all else is as it was |
| FileSkips.SparingPromise | files-app/backend.py:1612-1701 | any request that skips or refuses, of nested or repeated sources too, path by path: at its turn each lands if its place is free and is else left alone; it stops only at a place taken, where that is refused, or at a source that went with an earlier one |
| FileTree.CopyTreeAdds | files-app/backend.py:1588-1609 | a copy to a free place adds one faithful tree and changes nothing else |
| FileTree.RenameTreeMoves | files-app/backend.py:1654-1701 | a rename moves one tree whole and changes nothing else |
| TrashRecords.UnquoteQuote | files-app/backend.py:415-422 | percent-encoding undone gives back exactly the byte strings that are UTF-8 |
| TrashRecords.EncodeRoundTrips | files-app/backend.py:415-422 | a path is encoded exactly when it is UTF-8, and then decoding gives the path |
| TrashRecords.RecordRoundTrips | files-app/backend.py:850-873 | a record is written exactly for a path that is UTF-8 and reads back as that path, line breaks and percent signs included |
| TrashRecords.PathTextRoundTrips | files-app/backend.py:1554-1585 | the text of a path has that path's components |
| TrashRecords.PathIsTextWhen | files-app/backend.py:415-416 | a path's text is UTF-8 exactly when every name on it is |
| TrashRecords.QuoteIsNeeded | files-app/backend.py:415-416 | exactly the bytes that RFC 3986 reserves are percent-encoded, all but the slash |
| Utf8.DecodedWhen | files-app/backend.py:419-422 | decoding with replacement keeps exactly what is UTF-8 |
| Utf8.ValidIsEncoded | files-app/backend.py:419-422 | what is taken as UTF-8 is what some characters are written as |
| Utf8.EncodedIsValid | files-app/backend.py:419-422 | and whatever characters are written as is taken as UTF-8 |
| Trash.TrashCan.TrashPath | files-app/backend.py:850-873 | files and records after trashing, the errors included: a record's file that is refused leaves the item moved with no record, and an encoding that fails leaves it with an empty one |
| Trash.TrashCan.Restore | files-app/backend.py:1554-1585 | files and records after restoring, the errors included |
| Trash.TrashCan.Empty | files-app/backend.py:1711-1742 | files and records after emptying |
| TrashRuns.RunKeeps | files-app/backend.py:850-873 | over every run, whatever is refused, records are of items, and an item no event names keeps its content and its record, or stays without one |
| TrashRuns.OneToOneWhen | files-app/backend.py:850-873 | items and records are one to one in every state of a run exactly when the record's file could be made for everything that went in |
| TrashRuns.RestoreGivesBack | files-app/backend.py:1554-1585 | whatever happens between, restoring gives the same content back: at the path it came from, when that is free and the trashing wrote a record of it, that is, its file could be made and the path is UTF-8; and else in the home folder |
| TrashRuns.TrashesWhen | files-app/backend.py:850-862 | what is moved to the trash, under which name, and that a path which is not there or holds the trash is refused with nothing changed |
| TrashRuns.GivesBackWhen | files-app/backend.py:1554-1585 | giving back works exactly for a possible name of an item that is there, with nothing but folders on the way; otherwise nothing changes, and the answer says why |
| TrashRuns.MakeFoldersWhen | files-app/backend.py:1575-1579 | the folders on the way are made exactly when nothing that is no folder is in the way |
| TrashRuns.EmptyEmpties | files-app/backend.py:1711-1742 | after emptying there are no items and no records, and all else is as it was |
| TrashRuns.LatinNameLosesItsPlace | files-app/backend.py:850-873 | trashing a name of the one byte E9 fails with the item moved and no place recorded |
| TrashRuns.LongNameLosesItsPlace | files-app/backend.py:850-873 | a name of 246 to 255 bytes, where the filesystem takes 255, fails with the item moved and no record, and is given back to the home folder |
| TrashRuns.AskingByName | files-app/backend.py:1554-1562 | which names can be asked for plainly, and that all can between slashes |
| Tags.IndexIsRight | files-app/backend.py:1046-1089 | after any requests, whatever failed, a path is under a name exactly when the name is in the list last written for it, once each, with no empty name |
| Tags.AttributeIsRight | files-app/backend.py:1032-1043 | a file's tags read as the list last stored with it, in order |
| Tags.IndexAgreesWithFiles | files-app/backend.py:1046-1073 | when nothing failed, index and attributes agree |
| Tags.ReadsBack | files-app/backend.py:1032-1034 | reading a joined list gives that list |
| Tags.CleanedIsList | files-app/backend.py:1056-1061 | cleaning keeps exactly the acceptable names, each once |
| Tags.RetaggedIs | files-app/backend.py:1063-1071 | tagging puts the path last under each of its names and nowhere else, the others in their order |
| Tags.TagStore.SetFileTags | files-app/backend.py:1046-1073 | attributes, index and answer after a request, the errors included |
| Tags.TagStore.GetTags | files-app/backend.py:1037-1043 | after any requests, the list last stored with the file, in order, or the refusal |
| Tags.Remove | files-app/backend.py:1064-1069 | the loop over the index takes the path out and drops names left empty |
| Tags.Append | files-app/backend.py:1070-1071 | the loop over the names appends the path under each |
| Texts.SplitJoin | files-app/backend.py:1032-1034 | splitting undoes joining where no part holds a comma |
| Texts.StripIs | files-app/backend.py:1032-1034 | stripping takes all white space off both ends and nothing else |
| Jobs.JobsAreSafe | files-app/backend.py:280-412 | in every state of every interleaving table and order agree, a job under way is in the table, and done without error is all processed |
| Jobs.NextIsFair | files-app/backend.py:280-307 | no event evicts a running job or changes a finished one's snapshot, and a creation leaves at most fifty jobs or none finished |
| Jobs.DoneIsFinal | files-app/backend.py:309-316 | over any continuation a finished job's snapshot never changes |
| Jobs.JobShowsItsReports | files-app/backend.py:319-360 | a job in the table shows exactly what its worker reported, in order, whatever happened between |
| Jobs.WorkersEnd | files-app/backend.py:319-412 | every step brings a worker nearer its end; one of a job marked as cancelled starts nothing more, and the last leaves its job done |
| Jobs.CreatedIsNew | files-app/backend.py:297-307 | a new job is in the table, the newest, with all its sources to come |
| Jobs.CancelStartsNothing | files-app/backend.py:319-333 | after a cancel, whatever else happens, the worker gets through at most the source it is busy with, and none if it was looking |
| Jobs.CancelStopsTheWorker | files-app/backend.py:324-333 | after a cancel, the worker's next look with a source still to come ends the job: done, cancelled, and with that error |
| Jobs.CancelLeavesOthers | files-app/backend.py:1784-1794 | a cancel leaves every other job, and the job as it is shown, as they were |
| Jobs.EndsWithItsWorker | files-app/backend.py:319-360 | a job that no one cancels is not shown as cancelled; it shows exactly the failure its worker reported, and is done exactly when there is one or all sources it was created with are through |
| Jobs.EvictKeeps | files-app/backend.py:280-294 | eviction takes finished jobs only and stops at the limit or when none is left |
| Jobs.EvictTakesOldest | files-app/backend.py:280-294 | what is evicted is older than every finished job that stays, no more goes than the limit of fifty asks for, and the rest keeps its order |
| Jobs.JobTable.EvictLocked | files-app/backend.py:280-294 | table and order after evicting the oldest finished jobs |
| Jobs.JobTable.CreateJob | files-app/backend.py:297-307 | the table after a creation |
| Jobs.JobTable.CancelJob | files-app/backend.py:1784-1794 | the table after a cancel, and whether the job was done |
| Jobs.JobTable.LookBefore | files-app/backend.py:324-333 | the table after a worker's look, and whether it goes on |
| Jobs.JobTable.ReportOne | files-app/backend.py:334-360 | the table after a worker's report, failures included |
| Jobs.JobTable.Poll | files-app/backend.py:309-316 | after any run, a job is shown with the paths its worker reported copied, in order, and how many sources it got through; all of them when done without an error |
| Pak.ParseBuild | ci/pak-swap-resources.py:41-71 | everything within the field widths comes back from a built pak exactly |
| Pak.OffsetsAreInOrder | ci/pak-set-resources.py:45-73 | offsets never go down, and the sentinel's is the length of the file |
| Pak.ParsesWhen | ci/pak-swap-resources.py:41-56 | exactly which bytes are read as a pak, and the counts and ids that are read, low byte first |
| Pak.BuildLaysOut | ci/pak-swap-resources.py:59-71 | where in a built file everything is: header, ids, offsets and bytes, without a gap |
| Pak.BuildPak | ci/pak-swap-resources.py:59-71 | the loop builds that file, or refuses what does not fit |
| PakTools.SwapByGoesThroughWhen | ci/pak-swap-resources.py:158-211 | for any placing of donors on target ids, and any target: the tool goes through exactly when something is wanted, all of it placed, nothing else differs, each place written to has other bytes somewhere, and what changes is in ascending order |
| PakTools.DistinctSwapGoesThroughWhen | ci/pak-swap-resources.py:158-211 | where the target repeats no id: what lands last at each place differs from what was there, and these places ascend in the file |
| PakTools.SwapByWrites | ci/pak-swap-resources.py:186-213 | every resource at a place holds the last wanted donor's bytes for it, and all others their old ones, with order, encoding and aliases kept |
| PakTools.SwapIsFaithfulWhen | ci/pak-swap-resources.py:182-211 | the last resource of an id ends with the bytes of every donor placed there exactly when these donors hold the same bytes, though the guard passes either way |
| PakTools.SwapGoesThroughWhen | ci/pak-swap-resources.py:137-213 | exactly when same-id mode goes through, for any target: fewer than twenty shared ids or at least half of them alike, something to do, the ids asked for shared and all that differ among them, each changing, in ascending order; where the target repeats no id, the ids asked for are all that differ |
| PakTools.SwapIsDriftedWhen | ci/pak-swap-resources.py:149-162 | the refusal of paks that have drifted comes exactly with twenty shared ids or more of which fewer than half hold the same bytes |
| PakTools.SwapByRefusesWhen | ci/pak-swap-resources.py:169-192 | which refusal comes before anything is written, and exactly when |
| PakTools.SwapGuardPassesWhen | ci/pak-swap-resources.py:198-211 | for any target, the reparse guard passes exactly when each id written to has other bytes somewhere and the resources that change are in ascending order |
| PakTools.SwapWrites | ci/pak-swap-resources.py:186-213 | the last resource of each id holds the donor's bytes where the id is shared and the old ones elsewhere, with order, encoding and aliases kept |
| PakTools.PlaceGoesThroughWhen | ci/pak-set-resources.py:158-174 | for any target, the set tool goes through exactly when the result can be packed and each id placed has other bytes in exactly one place, and what is written parses to exactly that |
| PakTools.DistinctPlaceGoesThroughWhen | ci/pak-set-resources.py:158-174 | where the target repeats no id: when each resource placed has other bytes than it had |
| ContentMap.AllAgreeing | ci/pak-swap-resources.py:83-119 | when every match agrees the mapping is one shift, injective and in order |
| ContentMap.MatchedWhen | ci/pak-swap-resources.py:88-102 | a donor is matched exactly when one target resource alone holds its bytes, and with that one |
| ContentMap.MappingIs | ci/pak-swap-resources.py:115-119 | each donor is mapped to where its bytes are, if in one place alone, and else by the shift |
| ContentMap.MapByContent | ci/pak-swap-resources.py:83-119 | the mapping, or which refusal and why: the shift most matches share, and nine in ten at least |
| ContentMap.SwapByContent | ci/pak-swap-resources.py:134-213 | with `--map-by-content`: the refusal of the mapping, or the swap by the most agreed shift |
| ContentMap.AgreeingSwapIsFaithful | ci/pak-swap-resources.py:83-213 | when every match agrees, a swap that goes through leaves each resource with the bytes of the donor one shift away |
| ContentMap.SharedPlaceIsLost | ci/pak-swap-resources.py:105-119 | a family of paks whose matches agree on the shift by nine in ten or more: the tool goes through, and the resource a donor was matched with by its bytes does not hold them in the end |
| ContentMap.MatchUnique | ci/pak-swap-resources.py:88-104 | a donor resource is matched exactly when one target resource has its bytes, and the tallies count the matches by shift |
| ContentMap.MostAgreed | ci/pak-swap-resources.py:105-107 | a shift no other outnumbers |
| NetworkRuns.SyncIsGrouping | shill-nm-adapter/shill_nm_adapter.py:1122-1180 | after a sync a radio has exactly one service for each network heard, with exactly its access points, the strongest, and a passphrase asked for when one is wanted and none is right; all else is untouched |
| NetworkRuns.SyncShowsTheAir | shill-nm-adapter/shill_nm_adapter.py:1122-1180 | read from the scan: a service is there exactly if its network has a name and is heard, with exactly its access points, for a strongest of them and what was saved |
| NetworkRuns.RefreshJudges | shill-nm-adapter/shill_nm_adapter.py:1206-1251 | a service is idle unless the device is on it, online exactly when the device is also activated, failed exactly when it failed there |
| NetworkRuns.RefreshTells | shill-nm-adapter/shill_nm_adapter.py:1206-1251 | by NetworkManager's numbers: what every service of a device says after a refresh, a cable's being on it whenever connected at all, and that all else is as it was |
| NetworkRuns.FailureSaysWhy | shill-nm-adapter/shill_nm_adapter.py:165-174 | which reason a failure is told with, and that a wrong passphrase is asked for again |
| NetworkRuns.RemovedOrForgotten | shill-nm-adapter/shill_nm_adapter.py:1379-1401 | a network in range stays and is forgotten, any other service is gone, and all else is as it was |
| NetworkRuns.SyncCableIsOne | shill-nm-adapter/shill_nm_adapter.py:1182-1204 | after a cable's sync it has exactly one service, with the saved profile; all else is untouched |
| NetworkRuns.RemovedTakesItsOwn | shill-nm-adapter/shill_nm_adapter.py:1030-1035 | a device that goes takes exactly its own services with it |
| NetworkRuns.IndexIsRightWhen | shill-nm-adapter/shill_nm_adapter.py:1170-1177 | the index finds the service of everything heard exactly when nothing heard was with a network that went away |
| NetworkRuns.RenamingLosesTheEntry | shill-nm-adapter/shill_nm_adapter.py:1173-1177 | an access point renamed, when nothing else is heard of its old network, has its new service and no entry |
| NetworkRuns.IndexStaysRight | shill-nm-adapter/shill_nm_adapter.py:1122-1180 | while access points keep their names the index is right in every state of every run |
| NetworkRuns.RunKeeps | shill-nm-adapter/shill_nm_adapter.py:1005-1036 | over every run each service belongs to a listed device of its kind and has the access points of its kind |
| Networks.StrongestIsFirst | shill-nm-adapter/shill_nm_adapter.py:1142-1143 | sorting loses nothing and puts one of the strongest first |
| Networks.OfferedIsAll | shill-nm-adapter/shill_nm_adapter.py:1141-1174 | in whatever order the networks are taken, the outcome is the same |
| NetworkMonitor.Group | shill-nm-adapter/shill_nm_adapter.py:1132-1138 | the loop groups what is heard by network, in the order listed |
| NetworkMonitor.ServiceObject.Judge | shill-nm-adapter/shill_nm_adapter.py:1236-1251 | the service after it is judged |
| NetworkMonitor.Monitor.OfferGroups | shill-nm-adapter/shill_nm_adapter.py:1141-1174 | the tables after the loop over the groups, in any order |
| NetworkMonitor.Monitor.DropServices | shill-nm-adapter/shill_nm_adapter.py:1175-1176 | the tables after the services gone are dropped, in any order |
| NetworkMonitor.Monitor.RefreshStates | shill-nm-adapter/shill_nm_adapter.py:1206-1251 | the tables after a refresh |
| NetworkMonitor.Monitor.SyncAccessPoints | shill-nm-adapter/shill_nm_adapter.py:1122-1180 | the tables after a sync |
| NetworkMonitor.Monitor.SyncEthernet | shill-nm-adapter/shill_nm_adapter.py:1182-1204 | the tables after a cable's sync |
| NetworkMonitor.Monitor.AddDevice | shill-nm-adapter/shill_nm_adapter.py:1012-1028 | the tables after a device is added or read again |
| NetworkMonitor.Monitor.RemoveDev | shill-nm-adapter/shill_nm_adapter.py:1030-1035 | the tables after a device goes |
| NetworkMonitor.Monitor.RemoveServiceAt | shill-nm-adapter/shill_nm_adapter.py:1379-1401 | the tables after a service is removed, or forgotten while in range |
| PackageJobs.OneAtATime | aurade-host-bridge/aurade_host_bridge.py:350-404 | in every state of every run the flag is set exactly when one job is running, that is the newest, and the table holds at most 32 |
| PackageJobs.FinishFindsItsJob | aurade-host-bridge/aurade_host_bridge.py:394-404 | finishing always finds its job, writes down how it ended and clears the flag |
| PackageJobs.UpgradesArePrepared | aurade-host-bridge/aurade_host_bridge.py:376-379 | no upgrade command runs unless its preparation returned first |
| PackageJobs.TrimKeeps | aurade-host-bridge/aurade_host_bridge.py:364-369 | eviction drops the oldest and never the new job |
| PackageJobs.StartIsTold | aurade-host-bridge/aurade_host_bridge.py:350-374 | a start while none runs puts its job in the table as running, the newest, and takes out none but the oldest of 32; while one runs it changes nothing |
| PackageJobs.EndsAsItRan | aurade-host-bridge/aurade_host_bridge.py:376-404 | whatever happens before it is taken, a job ends as its command ran: succeeded exactly for code zero, with the rollback it was prepared with |
| PackageJobs.RefusedPreparationEnds | aurade-host-bridge/aurade_host_bridge.py:376-404 | an upgrade whose preparation is refused fails with that, and its command does not run |
| PackageJobs.HostBridge.StartJob | aurade-host-bridge/aurade_host_bridge.py:350-374 | busy and unchanged, or the table after a start |
| PackageJobs.HostBridge.FinishJob | aurade-host-bridge/aurade_host_bridge.py:394-404 | the table after a finish |
| PackageJobs.HostBridge.JobGet | aurade-host-bridge/aurade_host_bridge.py:428-443 | a job is told to its owner and to root and to no one else, with each refusal |
| PackageJobs.RunJob | aurade-host-bridge/aurade_host_bridge.py:376-393 | what is posted, and that the command runs exactly when nothing had to be prepared or it was |

## Left out

Stated weaker than the whole code:

- ConditionWalk.CompiledIsKleene: starts from the list of words; the patterns that put markers in and cut the text into words are foreign, and so is the limit of Python's stack.
- Discover.AfterIsSafe: budgets are not negative, and a folder that cannot be listed has no entries.
- ShellRuns.ShellIsSafe: runs of childless top-levels with one seat, and a view's output is its surface's; moving a root does not move its children's outputs, so nothing is claimed for runs with children. Weston's own output of a surface is taken to be none until it is mapped and the shell's after.
- Shell.ShellState.Unparent: the closing full-screen step for a surface without an output is not part of it.
- OutputLine.TurningBackRestores: stated on horizontal positions, which are the only ones turning changes.
- PointerMotion.MapPointerMotion: over the reals, so the rounding of doubles is not modelled.
- FileOpsPromises.MovePromise: sources none of which holds another or is there twice; all requests are in FileTraces.MoveKeepsWholeWhen and FileTraces.MoveOutcome.
- FileOpsPromises.CopyPromise: symbolic links are leaves, links on the way to a path are taken as resolved, the root folder is not a source, and the checks of permission and space are one answer.
- TrashRuns.OneToOneWhen: whether a record's file can be made is a parameter, and one that is made is written whole; names are not limited otherwise, though a numbered copy of a name of 255 bytes is refused as well.
- TrashRuns.RestoreGivesBack: names are bytes other than "." and "..", records not written here are UTF-8, and white space beyond ASCII around an asked name is not modelled.
- Jobs.JobsAreSafe: workers fail only by the backend's own errors and the system's; job ids are fresh.
- Tags.AttributeIsRight: an attribute stays with a path until it is stored again; moving or deleting the file is not an event.
- PakTools.PlaceGoesThroughWhen: the resource each file replaces is given, not found by its content.
- PackageJobs.OneAtATime: a thread that cannot be started is not modelled.

Not modelled at all:

- Attaching a surface to a parent, clipping, centring, curtains, the watchdog, touch and several seats in the shell.
- The order of the shell's own list of surfaces, which nothing modelled reads.
- Reading the layout file, and drags held across outputs.
- The `--expect` checks and gzip contents; the drift check is modelled with its count of twenty.
- Connecting and disconnecting networks, scanning flags, device states, passphrases and publishing on the bus.
- What the file manager draws, searches, sorts and reports; text scrapers, validators and the weather.
- The session manager, the greeter, the boot screen, the assistant and the smoke tests.
