/** What a restart, which numbers the manual folders anew, does to the grid: its folders, titles and order. */
module LaunchpadRestart {
  import opened Wrappers
  import opened Sorting
  import opened LaunchpadFolders
  import opened LaunchpadEdits
  import opened LaunchpadHomes
  import opened Launchpad
  import opened LaunchpadListings
  import opened LaunchpadStore

  /** The place in the list of the folder with this number. */
  function PlaceOf(manual: seq<Manual>, number: nat): nat {
    if manual == [] then 0
    else if manual[|manual| - 1].number == number then |manual| - 1
    else PlaceOf(manual[..|manual| - 1], number)
  }

  /** The id a folder has after the restart. */
  function NewId(manual: seq<Manual>, id: FolderId): FolderId {
    match id
    case Auto(_) => id
    case Custom(n) => Custom(PlaceOf(manual, n))
  }

  function NewFolder(manual: seq<Manual>, folder: Folder): Folder {
    folder.(id := NewId(manual, folder.id))
  }

  lemma {:induction false} PlaceIs(manual: seq<Manual>, m: nat)
    requires m < |manual| && DistinctNumbers(manual)
    ensures PlaceOf(manual, manual[m].number) == m
    decreases |manual|
  {
    if m < |manual| - 1 {
      PlaceIs(manual[..|manual| - 1], m);
    }
  }

  // ---------------------------------------------------------------------------------------------
  // The same folders under new ids
  // ---------------------------------------------------------------------------------------------

  ghost predicate SameButIds(manual: seq<Manual>, before: Build, after: Build) {
    && after.grouped == before.grouped
    && |after.folders| == |before.folders|
    && forall k :: 0 <= k < |before.folders| ==> after.folders[k] == NewFolder(manual, before.folders[k])
  }

  lemma {:induction false} BuiltSameButIds(apps: seq<App>, o: Overrides, n: nat)
    requires Kept(o) && NoneEmpty(o.manual) && n <= OTHER + |o.manual|
    ensures |Loaded(ToFile(o)).manual| == |o.manual|
    ensures SameButIds(o.manual, Built(apps, o, n), Built(apps, Loaded(ToFile(o)), n))
  {
    hide AutoStep, ManualStep, Kept, Loaded, ToFile, PlaceOf;
    var p := Loaded(ToFile(o));
    Reloaded(o);
    if n > 0 {
      BuiltSameButIds(apps, o, n - 1);
      if n <= OTHER {
        SameAutoStep(apps, o, p, n - 1, Built(apps, o, n - 1), Built(apps, p, n - 1));
      } else {
        SameManualStep(apps, o, p, n - 1 - OTHER, Built(apps, o, n - 1), Built(apps, p, n - 1));
      }
    }
  }

  lemma Reloaded(o: Overrides)
    requires NoneEmpty(o.manual)
    ensures var p := Loaded(ToFile(o));
            && p == o.(manual := p.manual)
            && |p.manual| == |o.manual|
            && forall k :: 0 <= k < |o.manual| ==> p.manual[k] == Manual(k, o.manual[k].members)
  {
    hide Numbered, Customs;
    NumberedInOrder(o.manual);
  }

  lemma SameAutoStep(apps: seq<App>, o: Overrides, p: Overrides, b: nat, before: Build, after: Build)
    requires p == o.(manual := p.manual) && SameButIds(o.manual, before, after)
    ensures SameButIds(o.manual, AutoStep(apps, o, b, before), AutoStep(apps, p, b, after))
  {
    hide Natural, AddedHits, SetOf, PlaceOf;
    assert AddedTo(p, b) == AddedTo(o, b);
    assert Touched(apps, p, b) == Touched(apps, o, b);
  }

  lemma SameManualStep(apps: seq<App>, o: Overrides, p: Overrides, m: nat, before: Build, after: Build)
    requires m < |o.manual| == |p.manual| && Kept(o) && SameButIds(o.manual, before, after)
    requires p.manual[m] == Manual(m, o.manual[m].members)
    ensures SameButIds(o.manual, ManualStep(apps, o.manual[m], before), ManualStep(apps, p.manual[m], after))
  {
    hide ManualHits, SetOf, PlaceOf;
    PlaceIs(o.manual, m);
  }

  /** The rebuilt grid has the same folders with the same members, and only the ids differ. */
  lemma RestartKeepsFolders(apps: seq<App>, o: Overrides)
    requires Kept(o) && NoneEmpty(o.manual)
    ensures var before, after := Rebuilt(apps, o, false).folders, Rebuilt(apps, Loaded(ToFile(o)), false).folders;
            |after| == |before|
            && forall k :: 0 <= k < |before| ==> after[k] == NewFolder(o.manual, before[k])
  {
    hide Built, Loaded, ToFile, NewFolder, Kept, Arranged, Tiles, Cells;
    BuiltSameButIds(apps, o, OTHER + |o.manual|);
  }

  // ---------------------------------------------------------------------------------------------
  // Titles
  // ---------------------------------------------------------------------------------------------

  /** The user's title for a folder; without one it shows its label, which a restart does not change. */
  function Title(names: map<FolderId, string>, id: FolderId): Option<string> {
    if id in names && names[id] != "" then Some(names[id]) else None
  }

  /** The file keeps every title but the empty ones. */
  function LoadedNames(names: map<FolderId, string>): map<FolderId, string> {
    map id | id in names && names[id] != "" :: names[id]
  }

  /** A folder keeps its title over a restart exactly when the number it gets has the same title as the number it
      had. */
  lemma TitleSurvivesExactlyWhen(apps: seq<App>, o: Overrides, names: map<FolderId, string>, k: nat)
    requires Kept(o) && NoneEmpty(o.manual) && k < |Rebuilt(apps, o, false).folders|
    ensures var before, after := Rebuilt(apps, o, false).folders[k], Rebuilt(apps, Loaded(ToFile(o)), false).folders;
            && k < |after| && after[k].members == before.members
            && (Title(LoadedNames(names), after[k].id) == Title(names, before.id)
                <==> (before.id.Custom? ==>
                        Title(names, Custom(PlaceOf(o.manual, before.id.number))) == Title(names, before.id)))
  {
    hide Rebuilt, Loaded, ToFile, Kept, PlaceOf;
    RestartKeepsFolders(apps, o);
  }

  // ---------------------------------------------------------------------------------------------
  // The displayed order
  // ---------------------------------------------------------------------------------------------

  /** The saved order treats two items as it did, when the folders get their new ids. */
  ghost predicate SameTurn(apps: seq<App>, o: Overrides, a: Item, b: Item) {
    var before, after := Rebuilt(apps, o, false).folders, Rebuilt(apps, Loaded(ToFile(o)), false).folders;
    Before(apps, after, o.order, b, a) == Before(apps, before, o.order, b, a)
  }

  lemma NoOrder(apps: seq<App>, folders: seq<Folder>, a: Item, b: Item)
    ensures !Before(apps, folders, [], a, b)
  {
  }

  lemma ArrangedAlikeExactlyWhen(apps: seq<App>, before: seq<Folder>, after: seq<Folder>, order: seq<GridId>, base: seq<Item>)
    requires NoDup(base)
    ensures Arranged(apps, after, order, base) == Arranged(apps, before, order, base)
            <==> forall i, j :: 0 <= i < j < |base| ==>
                   Before(apps, after, order, base[j], base[i]) == Before(apps, before, order, base[j], base[i])
  {
    hide Before, Sort, NoDup;
    if order != [] && |base| > 1 {
      SoonerIsStrictWeak(apps, before, order);
      SoonerIsStrictWeak(apps, after, order);
      SameSortExactlyWhen(base, Ordering(apps, after, order), Ordering(apps, before, order));
      forall i, j | 0 <= i < j < |base|
        ensures Ordering(apps, after, order)(base[j], base[i]) == Before(apps, after, order, base[j], base[i])
        ensures Ordering(apps, before, order)(base[j], base[i]) == Before(apps, before, order, base[j], base[i])
      {
      }
    } else {
      forall i, j | 0 <= i < j < |base|
        ensures Before(apps, after, order, base[j], base[i]) == Before(apps, before, order, base[j], base[i])
      {
        NoOrder(apps, before, base[j], base[i]);
        NoOrder(apps, after, base[j], base[i]);
      }
    }
  }

  /** The grid shows its items in the same order after a restart exactly when, under the new ids, the saved
      order moves no item in front of another that it did not, and still moves those it did. */
  lemma OrderSurvivesExactlyWhen(apps: seq<App>, o: Overrides)
    requires Kept(o) && NoneEmpty(o.manual)
    ensures var base := Rebuilt(apps, o.(order := []), false).items;
            Rebuilt(apps, Loaded(ToFile(o)), false).items == Rebuilt(apps, o, false).items
            <==> forall i, j :: 0 <= i < j < |base| ==> SameTurn(apps, o, base[i], base[j])
  {
    hide Built, Loaded, ToFile, Kept, Arranged, Tiles, Cells, Before;
    var p, n := Loaded(ToFile(o)), OTHER + |o.manual|;
    var none: seq<GridId> := [];
    Reloaded(o);
    BuiltIgnoresOrder(apps, o, none, n);
    BuiltSameButIds(apps, o, n);
    if apps == [] {
      NoApps();
    } else {
      var st := Built(apps, o, n);
      var base := Tiles(|st.folders|) + Cells(st.grouped, |apps|);
      BaseItems(|st.folders|, st.grouped, |apps|);
      Unarranged(apps, st.folders, base);
      ArrangedAlikeExactlyWhen(apps, st.folders, Built(apps, p, n).folders, o.order, base);
    }
  }

  lemma Unarranged(apps: seq<App>, folders: seq<Folder>, items: seq<Item>)
    ensures Arranged(apps, folders, [], items) == items
  {
  }

  // ---------------------------------------------------------------------------------------------
  // A run after which a restart changes titles and order
  // ---------------------------------------------------------------------------------------------

  lemma FoldersOfFour(v: View)
    requires Idle(v) && v.o.manual == [Manual(1, ["c", "d"])]
    ensures forall k :: 0 <= k < |v.grid.folders| ==> v.grid.folders[k].id == Custom(1)
  {
    hide Home, Rebuilt, Kept, DistinctPaths;
    EveryAppIsPlacedOnce(v.apps, v.o);
    forall k | 0 <= k < |v.grid.folders|
      ensures v.grid.folders[k].id == Custom(1)
    {
      FolderHasMember(v.apps, v.o, v.grid.folders[k]);
      var i :| 0 <= i < |v.apps| && Home(v.apps, v.o, i) == Some(v.grid.folders[k].id);
      HomeInManual(v.o, i);
      FirstInPair(Manual(1, ["c", "d"]), Manual(1, ["c", "d"]), FOUR[i].path);
    }
  }

  /** The positions the saved order gives the two items, and the place it has for the folder's new id. */
  lemma AfterTheMove(v: View, src: nat, dst: nat)
    requires Idle(v) && v.open == None && v.o.manual == [Manual(1, ["c", "d"])]
    requires src < |v.grid.items| && dst < |v.grid.items| && v.grid.items[src].Cell? && v.grid.items[dst].Tile?
    ensures var w := AfterReorder(v, src, dst, true);
            var cell, tile := v.grid.items[src], v.grid.items[dst];
            && w.apps == FOUR && !w.searching && w.o == v.o.(order := w.o.order) && w.grid.folders == v.grid.folders
            && cell in w.grid.items && tile in w.grid.items
            && !Before(FOUR, v.grid.folders, w.o.order, cell, tile)
            && Position(w.o.order, IdOf(FOUR, v.grid.folders, cell)).Some?
            && Position(w.o.order, Some(FolderTile(Custom(0)))) == None
  {
    hide Rebuilt, Kept, DistinctPaths, Position, IdOf, NextTo, MovedNextTo, Ids, Values;
    var w := AfterReorder(v, src, dst, true);
    var items, ids := v.grid.items, Ids(v.apps, v.grid.folders, v.grid.items);
    var moved := NextTo(items, src, dst, true);
    ReorderMovesOneItem(v, src, dst, true);
    IdsOnScreen(v);
    IdsThere(ids, src, dst);
    FoundByValue(ids, src, dst, true);
    IdsFollow(v.apps, v.grid.folders, items, src, dst, true);
    var after := Ids(v.apps, v.grid.folders, moved);
    assert w.o.order == Values(after);
    NextToIds(v.apps, v.grid.folders, items, src, dst, true);
    var at := NextToThem(items, src, dst);
    ValuesAre(after);
    PositionIs(Values(after), after, at);
    PositionIs(Values(after), after, at + 1);
    FoldersOfFour(v);
    forall k | 0 <= k < |Values(after)|
      ensures Values(after)[k] != FolderTile(Custom(0))
    {
      assert Some(Values(after)[k]) == after[k] == IdOf(v.apps, v.grid.folders, moved[k]);
      NotTheFirst(v.apps, v.grid.folders, moved[k]);
    }
    NoPosition(Values(after), FolderTile(Custom(0)));
  }

  lemma NextToThem(items: seq<Item>, src: nat, dst: nat) returns (at: nat)
    requires src < |items| && dst < |items| && src != dst
    ensures var moved := NextTo(items, src, dst, true);
            at + 1 < |moved| == |items| && moved[at] == items[dst] && moved[at + 1] == items[src]
  {
    at := if dst > src then dst - 1 else dst;
  }

  lemma NotTheFirst(apps: seq<App>, folders: seq<Folder>, item: Item)
    requires forall k :: 0 <= k < |folders| ==> folders[k].id == Custom(1)
    ensures IdOf(apps, folders, item) != Some(FolderTile(Custom(0)))
  {
  }

  lemma {:induction false} NoPosition(order: seq<GridId>, id: GridId)
    requires forall k :: 0 <= k < |order| ==> order[k] != id
    ensures Position(order, Some(id)) == None
    decreases |order|
  {
    if order != [] {
      NoPosition(order[..|order| - 1], id);
    }
  }

  /** A loose app is moved behind the folder whose number is not its place. The restart puts the app first, and
      the folder's title is gone. */
  lemma ARestartReshuffles() returns (run: seq<Action>)
    ensures Catalogs(run)
    ensures var v := After(START, run);
            var after := Rebuilt(v.apps, Loaded(ToFile(v.o)), false);
            && after.items != v.grid.items
            && exists k :: 0 <= k < |v.grid.folders| && v.grid.folders[k].id == Custom(1) && k < |after.folders|
                 && Title(map[Custom(1) := "Games"], after.folders[k].id) == None
  {
    hide Home, After, Rebuilt, Loaded, ToFile, Kept, DistinctPaths, Idle, Step;
    var first := ARestartRenumbers();
    var v := After(START, first);
    RunOneMore(START, first, Close);
    var u := Step(v, Close);
    ClosedIsIdle(v);
    var src := CellOf(u, 0);
    var dst := TileOf(u, 2);
    var move := Reorder(src, dst, true);
    RunOneMore(START, first + [Close], move);
    run := first + [Close] + [move];
    Reshuffled(u, src, dst);
  }

  lemma ClosedIsIdle(v: View)
    requires Idle(v)
    ensures var u := Step(v, Close); Idle(u) && u.open == None && u.o == v.o
    ensures Inv(Step(v, Close)) && !Step(v, Close).searching && Step(v, Close).apps == FOUR
  {
    hide Rebuilt, Kept;
  }

  lemma Reshuffled(u: View, src: nat, dst: nat)
    requires Idle(u) && u.open == None && u.o.manual == [Manual(1, ["c", "d"])]
    requires src < |u.grid.items| && dst < |u.grid.items|
    requires u.grid.items[src] == Cell(0) && u.grid.items[dst].Tile? && u.grid.items[dst].folder < |u.grid.folders|
    ensures var w := Step(u, Reorder(src, dst, true));
            var after, k := Rebuilt(w.apps, Loaded(ToFile(w.o)), false), u.grid.items[dst].folder;
            && after.items != w.grid.items
            && k < |w.grid.folders| && w.grid.folders[k].id == Custom(1) && k < |after.folders|
            && Title(map[Custom(1) := "Games"], after.folders[k].id) == None
  {
    hide Rebuilt, Loaded, ToFile, Kept, DistinctPaths, Before, Position, AfterReorder;
    var w, tile := AfterReorder(u, src, dst, true), u.grid.items[dst];
    var k := tile.folder;
    AfterTheMove(u, src, dst);
    FoldersOfFour(u);
    StepKeepsInv(u, Reorder(src, dst, true));
    RestartKeepsFolders(FOUR, w.o);
    var after := Rebuilt(FOUR, Loaded(ToFile(w.o)), false).folders;
    PlaceIs(w.o.manual, 0);
    assert after[k].id == Custom(0);
    NowBefore(FOUR, after, w.o.order, Cell(0), tile);
    OrderSurvivesExactlyWhen(FOUR, w.o);
    var i, j := InPlainOrder(w, k, 0);
  }

  lemma NowBefore(apps: seq<App>, folders: seq<Folder>, order: seq<GridId>, cell: Item, tile: Item)
    requires tile.Tile? && tile.folder < |folders| && folders[tile.folder].id == Custom(0)
    requires cell.Cell? && Position(order, IdOf(apps, [], cell)).Some?
    requires Position(order, Some(FolderTile(Custom(0)))) == None
    ensures Before(apps, folders, order, cell, tile)
  {
    hide Position;
  }

  /** Unsorted, the tiles come before the cells. */
  lemma InPlainOrder(w: View, k: nat, a: nat) returns (i: nat, j: nat)
    requires Inv(w) && !w.searching && w.apps != [] && Tile(k) in w.grid.items && Cell(a) in w.grid.items
    ensures var base := Rebuilt(w.apps, w.o.(order := []), false).items;
            i < j < |base| && base[i] == Tile(k) && base[j] == Cell(a)
  {
    hide Built, Kept, DistinctPaths, Arranged, Tiles, Cells;
    var n := OTHER + |w.o.manual|;
    var none: seq<GridId> := [];
    BuiltIgnoresOrder(w.apps, w.o, none, n);
    var st := Built(w.apps, w.o, n);
    var tiles, cells := Tiles(|st.folders|), Cells(st.grouped, |w.apps|);
    ArrangedPermutes(w.apps, st.folders, w.o.order, tiles + cells);
    BaseItems(|st.folders|, st.grouped, |w.apps|);
    PermutedNoDup(tiles + cells, w.grid.items);
    Unarranged(w.apps, st.folders, tiles + cells);
    TilesAre(|st.folders|);
    CellsAre(st.grouped, |w.apps|);
    i := k;
    var c :| 0 <= c < |cells| && cells[c] == Cell(a);
    j := |tiles| + c;
  }
}
