/**
 The launchpad as its user drives it: drops, drag-outs, reorders, opening folders and refreshed
 catalogs, over every sequence of them.
 */
module Launchpad {
  import opened Wrappers
  import opened Sorting
  import opened LaunchpadFolders
  import opened LaunchpadEdits
  import opened LaunchpadHomes

  /** The state the edits read and change. `open` is the open folder's place in the grid's folders. */
  datatype View = View(apps: seq<App>, o: Overrides, grid: Grid, open: Option<nat>, searching: bool, shown: bool)

  // ---------------------------------------------------------------------------------------------
  // The steps
  // ---------------------------------------------------------------------------------------------

  function Clipped(open: Option<nat>, folders: nat): Option<nat> {
    if open.Some? && open.value >= folders then None else open
  }

  function WithRebuild(v: View): View {
    var grid := Rebuilt(v.apps, v.o, v.searching);
    v.(grid := grid, open := Clipped(v.open, |grid.folders|))
  }

  function AfterCreate(v: View, a: string, b: string): View {
    if CanCreate(v.apps, a, b) then WithRebuild(v.(o := Created(v.o, a, b))) else v
  }

  function AfterMove(v: View, path: string, id: FolderId): View {
    if path == "" || !Known(v.apps, path) then v
    else
      var r := Moved(v.o, path, id);
      if r.1 then WithRebuild(v.(o := r.0)) else v.(o := r.0)
  }

  function FindFolder(folders: seq<Folder>, id: FolderId, k: nat): Option<nat>
    requires k <= |folders|
    decreases |folders| - k
  {
    if k == |folders| then None else if folders[k].id == id then Some(k) else FindFolder(folders, id, k + 1)
  }

  function AfterTakeOut(v: View, path: string): View {
    if v.open.None? || v.open.value >= |v.grid.folders| || path == "" then v
    else
      var id := v.grid.folders[v.open.value].id;
      var w := WithRebuild(v.(o := TakenOut(v.o, path, id)));
      w.(open := FindFolder(w.grid.folders, id, 0))
  }

  predicate CanArrange(v: View, src: nat, dst: nat) {
    v.shown && v.open.None? && !v.searching && src != dst && src < |v.grid.items| && dst < |v.grid.items|
  }

  predicate InRange(v: View, item: Item) {
    match item
    case Tile(k) => k < |v.grid.folders|
    case Cell(i) => i < |v.apps|
  }

  /** A loose app dropped on a folder moves in; on another app, the two make a folder. */
  function AfterDrop(v: View, src: nat, dst: nat): View {
    if !CanArrange(v, src, dst) then v
    else
      match (v.grid.items[src], v.grid.items[dst])
      case (Tile(_), _) => v
      case (Cell(i), Tile(k)) =>
        if i >= |v.apps| || v.apps[i].path == "" || k >= |v.grid.folders| then v
        else AfterMove(v, v.apps[i].path, v.grid.folders[k].id)
      case (Cell(i), Cell(j)) =>
        if i >= |v.apps| || v.apps[i].path == "" || j >= |v.apps| || v.apps[j].path == "" then v
        else AfterCreate(v, v.apps[i].path, v.apps[j].path)
  }

  /** `grid_item_id` of every item, in display order. */
  function Ids(apps: seq<App>, folders: seq<Folder>, items: seq<Item>): (ids: seq<Option<GridId>>)
    ensures |ids| == |items|
    ensures forall k :: 0 <= k < |items| ==> ids[k] == IdOf(apps, folders, items[k])
  {
    if items == [] then []
    else Ids(apps, folders, items[..|items| - 1]) + [IdOf(apps, folders, items[|items| - 1])]
  }

  function IndexOf<T(==)>(s: seq<T>, x: T, k: nat): (at: nat)
    requires k <= |s|
    ensures k <= at <= |s|
    ensures forall j :: k <= j < at ==> s[j] != x
    ensures at < |s| ==> s[at] == x
    decreases |s| - k
  {
    if k == |s| || s[k] == x then k else IndexOf(s, x, k + 1)
  }

  /** `s` with the item at `src` moved next to the one at `dst`, found again by value. */
  function MovedNextTo<T(==)>(s: seq<T>, src: nat, dst: nat, after: bool): seq<T>
    requires src < |s| && dst < |s|
  {
    var rest := s[..src] + s[src + 1..];
    var at := IndexOf(rest, s[dst], 0);
    if at == |rest| then s
    else
      var pos := if after then at + 1 else at;
      rest[..pos] + [s[src]] + rest[pos..]
  }

  function Values(ids: seq<Option<GridId>>): seq<GridId> {
    if ids == [] then []
    else Values(ids[..|ids| - 1]) + (if ids[|ids| - 1].Some? then [ids[|ids| - 1].value] else [])
  }

  function AfterReorder(v: View, src: nat, dst: nat, after: bool): View {
    if !CanArrange(v, src, dst) then v
    else
      var ids := Ids(v.apps, v.grid.folders, v.grid.items);
      if ids[src].None? || ids[dst].None? then v
      else WithRebuild(v.(o := v.o.(order := Values(MovedNextTo(ids, src, dst, after)))))
  }

  function AfterRefresh(v: View, apps: seq<App>, searching: bool): View {
    WithRebuild(v.(apps := apps, searching := searching, open := if searching then None else v.open))
  }

  function AfterOpen(v: View, k: nat): View {
    if k < |v.grid.folders| then v.(open := Some(k)) else v
  }

  // ---------------------------------------------------------------------------------------------
  // Every sequence of steps
  // ---------------------------------------------------------------------------------------------

  datatype Action =
    | Drop(src: nat, dst: nat)
    | Reorder(src: nat, dst: nat, after: bool)
    | DragOut(path: string)
    | Open(folder: nat)
    | Close
    | Refresh(apps: seq<App>, searching: bool)
    | Show(shown: bool)

  function Step(v: View, a: Action): View {
    match a
    case Drop(src, dst) => AfterDrop(v, src, dst)
    case Reorder(src, dst, after) => AfterReorder(v, src, dst, after)
    case DragOut(path) => AfterTakeOut(v, path)
    case Open(k) => AfterOpen(v, k)
    case Close => v.(open := None)
    case Refresh(apps, searching) => AfterRefresh(v, apps, searching)
    case Show(shown) => v.(shown := shown)
  }

  function After(v: View, run: seq<Action>): View
    decreases |run|
  {
    if run == [] then v else Step(After(v, run[..|run| - 1]), run[|run| - 1])
  }

  /** The catalogs a refresh brings name each app once. */
  ghost predicate Catalogs(run: seq<Action>) {
    forall k :: 0 <= k < |run| && run[k].Refresh? ==> DistinctPaths(run[k].apps)
  }

  /** The grid on screen is always the one a rebuild would make. */
  ghost predicate Inv(v: View) {
    && DistinctPaths(v.apps)
    && Kept(v.o)
    && NoneEmpty(v.o.manual)
    && v.grid == Rebuilt(v.apps, v.o, v.searching)
    && (v.open.Some? ==> v.open.value < |v.grid.folders|)
  }

  lemma RebuildInv(v: View)
    requires DistinctPaths(v.apps) && Kept(v.o) && NoneEmpty(v.o.manual)
    ensures Inv(WithRebuild(v))
  {
  }

  lemma LooseCell(v: View, at: nat)
    requires Inv(v) && !v.searching && at < |v.grid.items| && v.grid.items[at].Cell?
    ensures v.grid.items[at].app < |v.apps| && Home(v.apps, v.o, v.grid.items[at].app) == None
  {
    hide Home, Rebuilt, Kept, DistinctPaths;
    EveryAppIsPlacedOnce(v.apps, v.o);
    assert Cell(v.grid.items[at].app) in v.grid.items;
  }

  lemma ShownTile(v: View, at: nat)
    requires Inv(v) && !v.searching && at < |v.grid.items| && v.grid.items[at].Tile?
    ensures var k := v.grid.items[at].folder;
            k < |v.grid.folders| && HasMember(v.apps, v.o, v.grid.folders[k].id)
  {
    hide Home, Rebuilt, Kept, DistinctPaths;
    var k := v.grid.items[at].folder;
    EveryAppIsPlacedOnce(v.apps, v.o);
    assert Tile(k) in v.grid.items;
    FolderHasMember(v.apps, v.o, v.grid.folders[k]);
  }

  lemma FolderHasMember(apps: seq<App>, o: Overrides, folder: Folder)
    requires HoldsItsApps(apps, o, folder)
    ensures HasMember(apps, o, folder.id)
  {
    assert folder.members[0] in folder.members;
  }

  lemma DropKeepsInv(v: View, src: nat, dst: nat)
    requires Inv(v)
    ensures Inv(AfterDrop(v, src, dst))
  {
    hide Rebuilt, Kept, DistinctPaths, Moved, Created;
    if CanArrange(v, src, dst) && v.grid.items[src].Cell? {
      var i := v.grid.items[src].app;
      LooseCell(v, src);
      if v.grid.items[dst].Tile? {
        ShownTile(v, dst);
        var id := v.grid.folders[v.grid.items[dst].folder].id;
        MovedKept(v.o, v.apps[i].path, id);
        MoveRebuilds(v.apps, v.o, i, id);
        EditsLeaveNoneEmpty(v.o, v.apps[i].path, "", id);
        RebuildInv(v.(o := Moved(v.o, v.apps[i].path, id).0));
      } else {
        var b := v.grid.items[dst];
        if b.app < |v.apps| {
          CreatedKept(v.o, v.apps[i].path, v.apps[b.app].path);
          EditsLeaveNoneEmpty(v.o, v.apps[i].path, v.apps[b.app].path, Auto(0));
          RebuildInv(v.(o := Created(v.o, v.apps[i].path, v.apps[b.app].path)));
        }
      }
    }
  }

  /** A loose app is in no manual folder, so the move never stops half way. */
  lemma MoveRebuilds(apps: seq<App>, o: Overrides, i: nat, id: FolderId)
    requires DistinctPaths(apps) && Kept(o) && i < |apps| && Home(apps, o, i) == None && HasMember(apps, o, id)
    ensures Moved(o, apps[i].path, id).1
  {
    hide Home, Kept;
    if id.Custom? {
      DropOnManual(apps, o, i, id.number);
    }
  }

  lemma TakeOutKeepsInv(v: View, path: string)
    requires Inv(v)
    ensures Inv(AfterTakeOut(v, path))
  {
    hide Rebuilt, Kept, DistinctPaths, TakenOut;
    if v.open.Some? && path != "" {
      var id := v.grid.folders[v.open.value].id;
      var w := v.(o := TakenOut(v.o, path, id));
      TakenOutKept(v.o, path, id);
      EditsLeaveNoneEmpty(v.o, path, "", id);
      RebuildInv(w);
      FoundFolder(WithRebuild(w).grid.folders, id, 0);
    }
  }

  lemma {:induction false} FoundFolder(folders: seq<Folder>, id: FolderId, k: nat)
    requires k <= |folders|
    ensures var at := FindFolder(folders, id, k);
            if at.Some? then k <= at.value < |folders| && folders[at.value].id == id
            else forall j :: k <= j < |folders| ==> folders[j].id != id
    decreases |folders| - k
  {
    if k < |folders| && folders[k].id != id {
      FoundFolder(folders, id, k + 1);
    }
  }

  lemma ReorderKeepsInv(v: View, src: nat, dst: nat, after: bool)
    requires Inv(v)
    ensures Inv(AfterReorder(v, src, dst, after))
  {
    hide Rebuilt, DistinctPaths;
    if CanArrange(v, src, dst) {
      var w := v.(o := v.o.(order := Values(MovedNextTo(Ids(v.apps, v.grid.folders, v.grid.items), src, dst, after))));
      OrderKept(v.o, w.o.order);
      RebuildInv(w);
    }
  }

  lemma OrderKept(o: Overrides, order: seq<GridId>)
    requires Kept(o)
    ensures Kept(o.(order := order))
  {
    assert forall b :: AddedTo(o.(order := order), b) == AddedTo(o, b);
  }

  lemma StepKeepsInv(v: View, a: Action)
    requires Inv(v) && (a.Refresh? ==> DistinctPaths(a.apps))
    ensures Inv(Step(v, a))
  {
    hide Rebuilt, Kept, AfterDrop, AfterTakeOut, AfterReorder;
    match a
    case Drop(src, dst) => DropKeepsInv(v, src, dst);
    case Reorder(src, dst, after) => ReorderKeepsInv(v, src, dst, after);
    case DragOut(path) => TakeOutKeepsInv(v, path);
    case _ =>
  }

  lemma {:induction false} EveryRunKeepsInv(v: View, run: seq<Action>)
    requires Inv(v) && Catalogs(run)
    ensures Inv(After(v, run))
    decreases |run|
  {
    if run != [] {
      hide Inv, Step, DistinctPaths;
      EveryRunKeepsInv(v, run[..|run| - 1]);
      StepKeepsInv(After(v, run[..|run| - 1]), run[|run| - 1]);
    }
  }

  /** After any run of drops, drag-outs, reorders and refreshes, the grid on screen shows every app of the
      catalog in exactly one place, the one it belongs to. */
  lemma EveryRunPlacesEveryApp(v: View, run: seq<Action>, w: View)
    requires Inv(v) && Catalogs(run) && After(v, run) == w && !w.searching
    ensures Placed(w.apps, w.o, w.grid)
  {
    hide Rebuilt, Kept, DistinctPaths, Placed, After;
    EveryRunKeepsInv(v, run);
    EveryAppIsPlacedOnce(w.apps, w.o);
  }

  // ---------------------------------------------------------------------------------------------
  // What single gestures do
  // ---------------------------------------------------------------------------------------------

  /** Every app but `i` and `j` belongs where it did. */
  ghost predicate OthersStayPut(apps: seq<App>, before: Overrides, after: Overrides, i: nat, j: nat) {
    forall k :: 0 <= k < |apps| && k != i && k != j ==> Home(apps, after, k) == Home(apps, before, k)
  }

  lemma KnownApp(apps: seq<App>, i: nat)
    requires i < |apps|
    ensures Known(apps, apps[i].path)
  {
  }

  /** A loose app dropped on a folder's tile belongs to that folder, and no other app moves. */
  lemma DropOnTileMovesIn(v: View, src: nat, dst: nat)
    requires Inv(v) && CanArrange(v, src, dst)
    requires v.grid.items[src].Cell? && v.grid.items[dst].Tile?
    requires v.grid.items[src].app < |v.apps| ==> v.apps[v.grid.items[src].app].path != ""
    ensures var w, i, k := AfterDrop(v, src, dst), v.grid.items[src].app, v.grid.items[dst].folder;
            && i < |v.apps| && k < |v.grid.folders| && w.apps == v.apps
            && Home(v.apps, w.o, i) == Some(v.grid.folders[k].id)
            && OthersStayPut(v.apps, v.o, w.o, i, i)
  {
    hide Rebuilt, Home, Kept, DistinctPaths, Moved;
    var i := v.grid.items[src].app;
    LooseCell(v, src);
    ShownTile(v, dst);
    KnownApp(v.apps, i);
    var id := v.grid.folders[v.grid.items[dst].folder].id;
    match id
    case Auto(b) => DropOnBucket(v.apps, v.o, i, b);
    case Custom(n) => DropOnManual(v.apps, v.o, i, n);
  }

  /** Two loose apps make a folder of their own, and no other app moves. */
  lemma DropOnCellMakesFolder(v: View, src: nat, dst: nat)
    requires Inv(v) && CanArrange(v, src, dst)
    requires v.grid.items[src].Cell? && v.grid.items[dst].Cell?
    requires forall i :: 0 <= i < |v.apps| ==> v.apps[i].path != ""
    ensures var w, i, j := AfterDrop(v, src, dst), v.grid.items[src].app, v.grid.items[dst].app;
            && i < |v.apps| && j < |v.apps| && w.apps == v.apps
            && Home(v.apps, w.o, i) == Some(Custom(NextNumber(v.o.manual)))
            && Home(v.apps, w.o, j) == Some(Custom(NextNumber(v.o.manual)))
            && OthersStayPut(v.apps, v.o, w.o, i, j)
  {
    hide Rebuilt, Home, Kept, DistinctPaths, Created;
    var i, j := v.grid.items[src].app, v.grid.items[dst].app;
    LooseCell(v, src);
    LooseCell(v, dst);
    KnownApp(v.apps, i);
    KnownApp(v.apps, j);
    DifferentCells(v, src, dst);
    CreateFromLoose(v.apps, v.o, i, j);
    PathsDiffer(v.apps, i, j);
  }

  lemma DifferentCells(v: View, src: nat, dst: nat)
    requires Inv(v) && !v.searching && src < |v.grid.items| && dst < |v.grid.items| && src != dst
    ensures v.grid.items[src] != v.grid.items[dst]
  {
    hide Rebuilt, Home, Kept, DistinctPaths;
    EveryAppIsPlacedOnce(v.apps, v.o);
    assert if src < dst then v.grid.items[src] != v.grid.items[dst] else v.grid.items[dst] != v.grid.items[src];
  }

  /** A member dragged out of the open folder is loose afterwards exactly when no addition pins it and no
      second manual folder lists it; no other app moves. */
  lemma DragOutMovesOut(v: View, member: nat)
    requires Inv(v) && !v.searching && v.open.Some? && member < |v.grid.folders[v.open.value].members|
    requires var i := v.grid.folders[v.open.value].members[member]; i < |v.apps| ==> v.apps[i].path != ""
    ensures var folder := v.grid.folders[v.open.value];
            var i := folder.members[member];
            && i < |v.apps|
            && var w := AfterTakeOut(v, v.apps[i].path);
            && (Home(v.apps, w.o, i) == None <==> Frees(v.o, v.apps[i].path, folder.id))
            && OthersStayPut(v.apps, v.o, w.o, i, i)
  {
    hide Rebuilt, Home, Kept, DistinctPaths, TakenOut, Frees;
    var folder := v.grid.folders[v.open.value];
    EveryAppIsPlacedOnce(v.apps, v.o);
    MemberLivesThere(v.apps, v.o, folder, member);
    DragOutFreesExactlyWhen(v.apps, v.o, folder.members[member], folder.id);
  }

  lemma MemberLivesThere(apps: seq<App>, o: Overrides, folder: Folder, member: nat)
    requires HoldsItsApps(apps, o, folder) && member < |folder.members|
    ensures folder.members[member] < |apps| && Home(apps, o, folder.members[member]) == Some(folder.id)
  {
    assert folder.members[member] in folder.members;
  }

  // ---------------------------------------------------------------------------------------------
  // A reorder moves one item and nothing else
  // ---------------------------------------------------------------------------------------------

  function WithoutAt<T>(s: seq<T>, at: nat): (rest: seq<T>)
    requires at < |s|
    ensures |rest| == |s| - 1
  {
    s[..at] + s[at + 1..]
  }

  function WithAt<T>(s: seq<T>, at: nat, x: T): seq<T>
    requires at <= |s|
  {
    s[..at] + [x] + s[at..]
  }

  /** `s` with the item at `src` moved to just before or after the one at `dst`. */
  function NextTo<T>(s: seq<T>, src: nat, dst: nat, after: bool): seq<T>
    requires src < |s| && dst < |s| && src != dst
  {
    var at := (if dst > src then dst - 1 else dst) + (if after then 1 else 0);
    WithAt(WithoutAt(s, src), at, s[src])
  }

  lemma OnlyThere<T>(s: seq<T>, x: T, at: nat)
    requires at < |s| && s[at] == x && forall j :: 0 <= j < |s| && j != at ==> s[j] != x
    ensures IndexOf(s, x, 0) == at
  {
  }

  lemma FoundByValue<T>(s: seq<T>, src: nat, dst: nat, after: bool)
    requires NoDup(s) && src < |s| && dst < |s| && src != dst
    ensures MovedNextTo(s, src, dst, after) == NextTo(s, src, dst, after)
  {
    hide IndexOf;
    var rest := WithoutAt(s, src);
    var at := if dst > src then dst - 1 else dst;
    forall j | 0 <= j < |rest| && j != at
      ensures rest[j] != s[dst]
    {
      DifferentAt(s, if j < src then j else j + 1, dst);
    }
    OnlyThere(rest, s[dst], at);
  }

  lemma DifferentAt<T>(s: seq<T>, i: nat, j: nat)
    requires NoDup(s) && i < |s| && j < |s| && i != j
    ensures s[i] != s[j]
  {
    if i < j {
      assert s[i] != s[j];
    } else {
      assert s[j] != s[i];
    }
  }

  lemma InsertedAt<T>(s: seq<T>, at: nat, x: T)
    requires at <= |s|
    ensures multiset(WithAt(s, at, x)) == multiset(s) + multiset{x}
  {
    assert s == s[..at] + s[at..];
  }

  lemma TakenAt<T>(s: seq<T>, at: nat)
    requires at < |s|
    ensures multiset(WithoutAt(s, at)) + multiset{s[at]} == multiset(s)
  {
    assert s == s[..at] + [s[at]] + s[at + 1..];
  }

  lemma NextToPermutes<T>(s: seq<T>, src: nat, dst: nat, after: bool)
    requires src < |s| && dst < |s| && src != dst
    ensures multiset(NextTo(s, src, dst, after)) == multiset(s)
  {
    hide WithAt, WithoutAt;
    TakenAt(s, src);
    InsertedAt(WithoutAt(s, src), (if dst > src then dst - 1 else dst) + (if after then 1 else 0), s[src]);
  }

  /** Ids travel with their items. */
  lemma IdsFollow(apps: seq<App>, folders: seq<Folder>, items: seq<Item>, src: nat, dst: nat, after: bool)
    requires src < |items| && dst < |items| && src != dst
    ensures NextTo(Ids(apps, folders, items), src, dst, after) == Ids(apps, folders, NextTo(items, src, dst, after))
  {
    hide IdOf;
    var ids, moved := Ids(apps, folders, items), NextTo(items, src, dst, after);
    forall k | 0 <= k < |items|
      ensures NextTo(ids, src, dst, after)[k] == IdOf(apps, folders, moved[k])
    {
      SameShuffle(items, ids, src, dst, after, k);
    }
  }

  /** Where the item at place `k` of the new arrangement was before. */
  function Origin(n: nat, src: nat, dst: nat, after: bool, k: nat): (from: nat)
    requires src < n && dst < n && src != dst && k < n
    ensures from < n
  {
    var at := (if dst > src then dst - 1 else dst) + (if after then 1 else 0);
    if k == at then src
    else
      var j := if k < at then k else k - 1;
      if j < src then j else j + 1
  }

  lemma NextToAt<T>(s: seq<T>, src: nat, dst: nat, after: bool, k: nat)
    requires src < |s| && dst < |s| && src != dst && k < |s|
    ensures |NextTo(s, src, dst, after)| == |s|
    ensures NextTo(s, src, dst, after)[k] == s[Origin(|s|, src, dst, after, k)]
  {
  }

  lemma SameShuffle<A, B>(s: seq<A>, t: seq<B>, src: nat, dst: nat, after: bool, k: nat)
    requires |s| == |t| && src < |s| && dst < |s| && src != dst && k < |s|
    ensures |NextTo(s, src, dst, after)| == |NextTo(t, src, dst, after)| == |s|
    ensures NextTo(s, src, dst, after)[k] == s[Origin(|s|, src, dst, after, k)]
    ensures NextTo(t, src, dst, after)[k] == t[Origin(|s|, src, dst, after, k)]
  {
    NextToAt(s, src, dst, after, k);
    NextToAt(t, src, dst, after, k);
  }

  ghost predicate AllIds(ids: seq<Option<GridId>>) {
    forall k :: 0 <= k < |ids| ==> ids[k].Some?
  }

  lemma {:induction false} ValuesAre(ids: seq<Option<GridId>>)
    requires AllIds(ids)
    ensures |Values(ids)| == |ids|
    ensures forall k :: 0 <= k < |ids| ==> Some(Values(ids)[k]) == ids[k]
    decreases |ids|
  {
    if ids != [] {
      ValuesAre(ids[..|ids| - 1]);
    }
  }

  /** In an order without repeats every id stands at its own place. */
  lemma {:induction false} PositionIs(order: seq<GridId>, ids: seq<Option<GridId>>, k: nat)
    requires |order| <= |ids| && NoDup(ids) && k < |order|
    requires forall j :: 0 <= j < |order| ==> Some(order[j]) == ids[j]
    ensures Position(order, ids[k]) == Some(k)
    decreases |order|
  {
    if k < |order| - 1 {
      assert ids[k] != ids[|order| - 1];
      PositionIs(order[..|order| - 1], ids, k);
    }
  }

  lemma SoonerIsStrictWeak(apps: seq<App>, folders: seq<Folder>, order: seq<GridId>)
    ensures StrictWeak(Ordering(apps, folders, order))
  {
    hide Position, IdOf;
  }

  /** Items whose ids are the saved order, in that order, are strictly sorted by it. */
  lemma SavedOrderSorts(apps: seq<App>, folders: seq<Folder>, items: seq<Item>)
    requires AllIds(Ids(apps, folders, items)) && NoDup(Ids(apps, folders, items))
    ensures StrictlySorted(items, Ordering(apps, folders, Values(Ids(apps, folders, items))))
  {
    hide Position, IdOf, AllIds, Values;
    var ids := Ids(apps, folders, items);
    var order := Values(ids);
    ValuesAre(ids);
    forall i, j | 0 <= i < j < |items|
      ensures Before(apps, folders, order, items[i], items[j]) && !Before(apps, folders, order, items[j], items[i])
    {
      PositionIs(order, ids, i);
      PositionIs(order, ids, j);
    }
  }

  /** Ids of the items on screen are there and all different. */
  lemma IdsOnScreen(v: View)
    requires Inv(v) && !v.searching
    ensures AllIds(Ids(v.apps, v.grid.folders, v.grid.items)) && NoDup(Ids(v.apps, v.grid.folders, v.grid.items))
  {
    hide Rebuilt, Kept, DistinctPaths, Home, HoldsItsApps;
    EveryAppIsPlacedOnce(v.apps, v.o);
    var items, ids := v.grid.items, Ids(v.apps, v.grid.folders, v.grid.items);
    forall k | 0 <= k < |items|
      ensures ids[k].Some? && InRange(v, items[k])
    {
      assert items[k] in items;
      if items[k].Tile? {
        assert Tile(items[k].folder) in v.grid.items;
      } else {
        assert Cell(items[k].app) in v.grid.items;
      }
    }
    forall k, l | 0 <= k < l < |items|
      ensures ids[k] != ids[l]
    {
      DifferentIds(v, items[k], items[l]);
    }
  }

  lemma DifferentIds(v: View, a: Item, b: Item)
    requires a != b && InRange(v, a) && InRange(v, b) && DistinctPaths(v.apps)
    requires forall k, l :: 0 <= k < l < |v.grid.folders| ==> v.grid.folders[k].id != v.grid.folders[l].id
    ensures IdOf(v.apps, v.grid.folders, a) != IdOf(v.apps, v.grid.folders, b)
  {
    match (a, b) {
      case (Cell(i), Cell(j)) => PathsDiffer(v.apps, i, j);
      case (Tile(k), Tile(l)) =>
        assert if k < l then v.grid.folders[k].id != v.grid.folders[l].id
               else v.grid.folders[l].id != v.grid.folders[k].id;
      case _ =>
    }
  }

  lemma {:induction false} BuiltIgnoresOrder(apps: seq<App>, o: Overrides, order: seq<GridId>, n: nat)
    requires n <= OTHER + |o.manual|
    ensures Built(apps, o.(order := order), n) == Built(apps, o, n)
  {
    hide Natural, AddedHits, ManualHits;
    if n > 0 {
      BuiltIgnoresOrder(apps, o, order, n - 1);
    }
  }

  lemma HomeIgnoresOrder(apps: seq<App>, o: Overrides, order: seq<GridId>, i: nat)
    requires i < |apps|
    ensures Home(apps, o.(order := order), i) == Home(apps, o, i)
  {
    var p := o.(order := order);
    SameSlots(o, p, apps[i].path, OTHER + |o.manual|);
    assert forall b :: Touched(apps, p, b) == Touched(apps, o, b);
  }

  lemma {:induction false} SameSlots(o: Overrides, p: Overrides, path: string, n: nat)
    requires n <= OTHER + |o.manual| && p == o.(order := p.order)
    ensures FirstSlot(o, path, n) == FirstSlot(p, path, n)
  {
    if n > 0 {
      SameSlots(o, p, path, n - 1);
    }
  }

  /** The grid after a reorder is exactly the one before it with the one item moved next to its anchor. */
  lemma ReorderMovesOneItem(v: View, src: nat, dst: nat, after: bool)
    requires Inv(v) && CanArrange(v, src, dst)
    ensures var w := AfterReorder(v, src, dst, after);
            && w.grid.folders == v.grid.folders
            && w.grid.items == NextTo(v.grid.items, src, dst, after)
            && forall i :: 0 <= i < |v.apps| ==> Home(v.apps, w.o, i) == Home(v.apps, v.o, i)
  {
    hide Built, Arranged, Ids, Values, Home, Kept, DistinctPaths, NextTo, MovedNextTo;
    var items, ids := v.grid.items, Ids(v.apps, v.grid.folders, v.grid.items);
    var moved := NextTo(items, src, dst, after);
    IdsOnScreen(v);
    FoundByValue(ids, src, dst, after);
    IdsFollow(v.apps, v.grid.folders, items, src, dst, after);
    var order := Values(Ids(v.apps, v.grid.folders, moved));
    IdsThere(ids, src, dst);
    assert AfterReorder(v, src, dst, after) == WithRebuild(v.(o := v.o.(order := order)));
    BuiltIgnoresOrder(v.apps, v.o, order, OTHER + |v.o.manual|);
    ArrangedAsSaved(v, moved, src, dst, after);
    forall i | 0 <= i < |v.apps|
      ensures Home(v.apps, v.o.(order := order), i) == Home(v.apps, v.o, i)
    {
      HomeIgnoresOrder(v.apps, v.o, order, i);
    }
  }

  lemma IdsThere(ids: seq<Option<GridId>>, src: nat, dst: nat)
    requires AllIds(ids) && src < |ids| && dst < |ids|
    ensures ids[src].Some? && ids[dst].Some?
  {
  }

  lemma NextToIds(apps: seq<App>, folders: seq<Folder>, items: seq<Item>, src: nat, dst: nat, after: bool)
    requires src < |items| && dst < |items| && src != dst
    requires AllIds(Ids(apps, folders, items)) && NoDup(Ids(apps, folders, items))
    ensures var moved := NextTo(items, src, dst, after);
            && |moved| == |items|
            && AllIds(Ids(apps, folders, moved)) && NoDup(Ids(apps, folders, moved))
  {
    hide Ids, IdOf;
    var ids, moved := Ids(apps, folders, items), NextTo(items, src, dst, after);
    IdsFollow(apps, folders, items, src, dst, after);
    NextToPermutes(ids, src, dst, after);
    PermutedNoDup(ids, NextTo(ids, src, dst, after));
    forall k | 0 <= k < |ids|
      ensures NextTo(ids, src, dst, after)[k].Some?
    {
      NextToAt(ids, src, dst, after, k);
    }
  }

  /** Sorting the rebuilt grid by the saved ids of `moved` gives `moved`. */
  lemma ArrangedAsSaved(v: View, moved: seq<Item>, src: nat, dst: nat, after: bool)
    requires Inv(v) && CanArrange(v, src, dst) && v.apps != []
    requires moved == NextTo(v.grid.items, src, dst, after)
    ensures var order := Values(Ids(v.apps, v.grid.folders, moved));
            var st := Built(v.apps, v.o, OTHER + |v.o.manual|);
            Arranged(v.apps, v.grid.folders, order, Tiles(|st.folders|) + Cells(st.grouped, |v.apps|)) == moved
  {
    hide Built, Ids, Values, Home, Kept, DistinctPaths, NextTo, Tiles, Cells, IdOf, Ordering;
    var order := Values(Ids(v.apps, v.grid.folders, moved));
    var st := Built(v.apps, v.o, OTHER + |v.o.manual|);
    var base := Tiles(|st.folders|) + Cells(st.grouped, |v.apps|);
    IdsOnScreen(v);
    NextToIds(v.apps, v.grid.folders, v.grid.items, src, dst, after);
    NextToPermutes(v.grid.items, src, dst, after);
    ArrangedPermutes(v.apps, v.grid.folders, v.o.order, base);
    SavedOrderSorts(v.apps, v.grid.folders, moved);
    ValuesAre(Ids(v.apps, v.grid.folders, moved));
    var less := Ordering(v.apps, v.grid.folders, order);
    SoonerIsStrictWeak(v.apps, v.grid.folders, order);
    SortSorts(base, less);
    SortPermutes(base, less);
    assert multiset(base) == multiset(moved);
    assert |multiset(base)| == |base| && |multiset(moved)| == |moved|;
    SortedIsUnique(moved, Sort(base, less), less);
  }

  // ---------------------------------------------------------------------------------------------
  // A saved order comes first, the rest keeps its order
  // ---------------------------------------------------------------------------------------------

  function Saved(apps: seq<App>, folders: seq<Folder>, order: seq<GridId>): Item -> bool {
    item => Position(order, IdOf(apps, folders, item)).Some?
  }

  /** The items with a saved position, in the order of those positions, and behind them all the others as
      they stand in `base`. */
  ghost predicate SavedFirst(apps: seq<App>, folders: seq<Folder>, order: seq<GridId>, base: seq<Item>, items: seq<Item>) {
    var saved := Saved(apps, folders, order);
    && multiset(items) == multiset(base)
    && items == Filter(saved, items) + Filter(Not(saved), base)
    && Sorted(Filter(saved, items), Ordering(apps, folders, order))
  }

  /** A saved item goes before an unsaved one, and unsaved ones tie. */
  lemma SavedIsSooner(apps: seq<App>, folders: seq<Folder>, order: seq<GridId>, a: Item, b: Item)
    requires !Saved(apps, folders, order)(a)
    ensures Ordering(apps, folders, order)(b, a) == Saved(apps, folders, order)(b)
    ensures !Ordering(apps, folders, order)(a, b)
  {
    hide Position, IdOf;
  }

  lemma SortedSavedFirst(apps: seq<App>, folders: seq<Folder>, order: seq<GridId>, base: seq<Item>)
    ensures SavedFirst(apps, folders, order, base, Sort(base, Ordering(apps, folders, order)))
  {
    hide Position, IdOf, Ordering, Saved, Sort, Filter, StrictWeak;
    var less, saved := Ordering(apps, folders, order), Saved(apps, folders, order);
    var unsaved := Not(saved);
    var items := Sort(base, less);
    SoonerIsStrictWeak(apps, folders, order);
    SortPermutes(base, less);
    SortSorts(base, less);
    forall a, b | unsaved(a)
      ensures less(b, a) == saved(b) && !less(a, b)
    {
      SavedIsSooner(apps, folders, order, a, b);
    }
    SortStable(base, less, unsaved);
    FilterSplits(items, saved);
    FilterIn(items, saved, less);
  }

  lemma ShortSavedFirst(apps: seq<App>, folders: seq<Folder>, order: seq<GridId>, base: seq<Item>)
    requires order == [] || |base| <= 1
    ensures SavedFirst(apps, folders, order, base, base)
  {
    var saved := Saved(apps, folders, order);
    if order == [] {
      assert forall x :: !saved(x);
      FilterNone(base, saved);
      FilterAll(base, Not(saved));
    } else {
      FilterSplits(base, saved);
      assert Sorted(base, Ordering(apps, folders, order));
      FilterIn(base, saved, Ordering(apps, folders, order));
    }
  }

  /** After any rebuild the items with a saved position come first, in that order, and all others follow in
      the order they have without one. */
  lemma RebuildKeepsSavedOrder(apps: seq<App>, o: Overrides)
    ensures var plain, g := Rebuilt(apps, o.(order := []), false), Rebuilt(apps, o, false);
            g.folders == plain.folders && SavedFirst(apps, g.folders, o.order, plain.items, g.items)
  {
    hide Built, Tiles, Cells, SavedFirst;
    var none: seq<GridId> := [];
    BuiltIgnoresOrder(apps, o, none, OTHER + |o.manual|);
    var plain := Rebuilt(apps, o.(order := none), false);
    NoApps();
    if apps != [] && o.order != [] && |plain.items| > 1 {
      SortedSavedFirst(apps, plain.folders, o.order, plain.items);
    } else {
      ShortSavedFirst(apps, plain.folders, o.order, plain.items);
    }
  }

  lemma NoApps()
    ensures Cells({}, 0) == []
  {
  }

  // ---------------------------------------------------------------------------------------------
  // An added app, from the start
  // ---------------------------------------------------------------------------------------------

  const NOTHING := Overrides({}, map[], [], [])

  const START := View([], NOTHING, Grid([], []), None, false, true)

  /** Two apps of one bucket and one of no bucket. */
  const CATALOG := [App("a", 0), App("b", 0), App("c", OTHER)]

  lemma StartInv()
    ensures Inv(START) && DistinctPaths(CATALOG)
    ensures Home(CATALOG, NOTHING, 0) == Some(Auto(0)) && Home(CATALOG, NOTHING, 2) == None
  {
    NoApps();
    assert CATALOG[1].path !in NOTHING.removed;
    assert Companion(CATALOG, {}, 0);
  }

  /** Somewhere on screen is the tile of a folder that some app belongs to. */
  lemma TileOf(v: View, i: nat) returns (at: nat)
    requires Inv(v) && !v.searching && i < |v.apps| && Home(v.apps, v.o, i).Some?
    ensures at < |v.grid.items| && v.grid.items[at].Tile? && v.grid.items[at].folder < |v.grid.folders|
    ensures v.grid.folders[v.grid.items[at].folder].id == Home(v.apps, v.o, i).value
  {
    hide Rebuilt, Home, Kept, DistinctPaths;
    EveryAppIsPlacedOnce(v.apps, v.o);
    var k :| 0 <= k < |v.grid.folders| && v.grid.folders[k].id == Home(v.apps, v.o, i).value;
    assert Tile(k) in v.grid.items;
    at :| 0 <= at < |v.grid.items| && v.grid.items[at] == Tile(k);
  }

  lemma CellOf(v: View, i: nat) returns (at: nat)
    requires Inv(v) && !v.searching && i < |v.apps| && Home(v.apps, v.o, i) == None
    ensures at < |v.grid.items| && v.grid.items[at] == Cell(i)
  {
    hide Rebuilt, Home, Kept, DistinctPaths;
    EveryAppIsPlacedOnce(v.apps, v.o);
    assert Cell(i) in v.grid.items;
    at :| 0 <= at < |v.grid.items| && v.grid.items[at] == Cell(i);
  }

  lemma RunOneMore(v: View, run: seq<Action>, a: Action)
    ensures After(v, run + [a]) == Step(After(v, run), a)
  {
    hide Step;
    assert (run + [a])[..|run|] == run;
  }

  lemma NoStepYet(v: View)
    ensures After(v, []) == v
  {
  }

  /** The list an app dropped on a bucket's tile is put on. */
  lemma DroppedIsAdded(v: View, src: nat, dst: nat, b: nat)
    requires Inv(v) && CanArrange(v, src, dst) && v.grid.items[src].Cell? && v.grid.items[dst].Tile?
    requires v.grid.items[src].app < |v.apps| && v.apps[v.grid.items[src].app].path != ""
    requires v.grid.items[dst].folder < |v.grid.folders| && v.grid.folders[v.grid.items[dst].folder].id == Auto(b)
    ensures var w := AfterDrop(v, src, dst);
            w.apps == v.apps && w.searching == v.searching && w.open == None
            && v.apps[v.grid.items[src].app].path in AddedTo(w.o, b)
  {
    hide Rebuilt, Kept, DistinctPaths, ShedAll, NonEmpty;
    KnownApp(v.apps, v.grid.items[src].app);
  }

  /** The run: the catalog arrives, the loose app is dropped on the bucket's tile, the folder is opened and
      the app dragged out. It is still in the folder. */
  lemma AnAddedAppCannotBeDraggedOut() returns (src: nat, dst: nat, folder: nat)
    ensures var run := [Refresh(CATALOG, false), Drop(src, dst), Open(folder), DragOut("c")];
            var end := After(START, run);
            end.apps == CATALOG && Home(CATALOG, After(START, run[..2]).o, 2) == Some(Auto(0))
            && Home(CATALOG, end.o, 2) == Some(Auto(0))
  {
    hide Rebuilt, Home, Kept, DistinctPaths, After, TakenOut, Frees;
    StartInv();
    NoStepYet(START);
    var empty: seq<Action> := [];
    var first := Refresh(CATALOG, false);
    RunOneMore(START, empty, first);
    StepKeepsInv(START, first);
    var v := After(START, empty + [first]);
    src := CellOf(v, 2);
    dst := TileOf(v, 0);
    RunOneMore(START, empty + [first], Drop(src, dst));
    DropOnTileMovesIn(v, src, dst);
    DroppedIsAdded(v, src, dst, 0);
    StepKeepsInv(v, Drop(src, dst));
    var w := AfterDrop(v, src, dst);
    var at := TileOf(w, 2);
    folder := w.grid.items[at].folder;
    RunOneMore(START, empty + [first] + [Drop(src, dst)], Open(folder));
    RunOneMore(START, empty + [first] + [Drop(src, dst)] + [Open(folder)], DragOut("c"));
    StillPinned(w, folder);
    var run := [first, Drop(src, dst), Open(folder), DragOut("c")];
    assert run == empty + [first] + [Drop(src, dst)] + [Open(folder)] + [DragOut("c")];
    assert run[..2] == empty + [first] + [Drop(src, dst)];
  }

  lemma StillPinned(w: View, folder: nat)
    requires Inv(w) && !w.searching && w.apps == CATALOG && folder < |w.grid.folders|
    requires w.grid.folders[folder].id == Auto(0) && Home(w.apps, w.o, 2) == Some(Auto(0)) && "c" in AddedTo(w.o, 0)
    ensures var end := Step(Step(w, Open(folder)), DragOut("c"));
            end.apps == CATALOG && Home(CATALOG, end.o, 2) == Some(Auto(0))
  {
    hide Rebuilt, Home, Kept, DistinctPaths, TakenOut;
    DragOutFreesExactlyWhen(w.apps, w.o, 2, Auto(0));
  }
}
