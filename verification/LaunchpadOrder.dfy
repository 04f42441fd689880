/**
 The rebuilt grid said outright: what stands before what in the grid and in its folders, and which folder
 each app is in.
 */
module LaunchpadOrder {
  import opened Wrappers
  import opened Sorting
  import opened LaunchpadFolders
  import opened LaunchpadEdits
  import opened LaunchpadHomes
  import opened Launchpad

  // ---------------------------------------------------------------------------------------------
  // The grid without a saved order
  // ---------------------------------------------------------------------------------------------

  ghost predicate CellsBelow(items: seq<Item>, n: nat) {
    && (forall k :: 0 <= k < |items| ==> items[k].Cell? && items[k].app < n)
    && (forall k, l :: 0 <= k < l < |items| ==> items[k].Cell? && items[l].Cell? && items[k].app < items[l].app)
  }

  lemma OneMoreCell(items: seq<Item>, n: nat)
    requires CellsBelow(items, n)
    ensures CellsBelow(items, n + 1) && CellsBelow(items + [Cell(n)], n + 1)
  {
  }

  lemma {:induction false} CellsRise(grouped: set<nat>, n: nat)
    ensures CellsBelow(Cells(grouped, n), n)
    decreases n
  {
    if n > 0 {
      hide CellsBelow;
      CellsRise(grouped, n - 1);
      OneMoreCell(Cells(grouped, n - 1), n - 1);
      assert Cells(grouped, n - 1) + [] == Cells(grouped, n - 1);
    } else {
      assert CellsBelow([], 0);
    }
  }

  lemma {:induction false} AllCells(n: nat)
    ensures |Cells({}, n)| == n && forall k :: 0 <= k < n ==> Cells({}, n)[k] == Cell(k)
  {
    if n > 0 {
      AllCells(n - 1);
    }
  }

  /** A search shows its hits one after the other, in the order in which they came. */
  lemma SearchShowsHitsInOrder(apps: seq<App>, o: Overrides)
    ensures var g := Rebuilt(apps, o, true);
            && g.folders == []
            && |g.items| == |apps|
            && forall k :: 0 <= k < |apps| ==> g.items[k] == Cell(k)
  {
    AllCells(|apps|);
  }

  /** Tiles come first, and both tiles and cells rise. */
  ghost predicate InPlainOrder(items: seq<Item>) {
    forall k, l :: 0 <= k < l < |items| ==>
      match (items[k], items[l])
      case (Tile(a), Tile(b)) => a < b
      case (Cell(i), Cell(j)) => i < j
      case (Tile(_), Cell(_)) => true
      case (Cell(_), Tile(_)) => false
  }

  lemma GridInPlainOrder(apps: seq<App>, o: Overrides)
    requires o.order == []
    ensures InPlainOrder(Rebuilt(apps, o, false).items)
  {
    hide Built, Tiles, Cells;
    if apps == [] {
      AllCells(0);
    } else {
      var st := Built(apps, o, OTHER + |o.manual|);
      TilesAre(|st.folders|);
      CellsRise(st.grouped, |apps|);
      TilesThenCells(Tiles(|st.folders|), Cells(st.grouped, |apps|), |apps|);
    }
  }

  lemma TilesThenCells(tiles: seq<Item>, cells: seq<Item>, n: nat)
    requires forall k :: 0 <= k < |tiles| ==> tiles[k] == Tile(k)
    requires CellsBelow(cells, n)
    ensures InPlainOrder(tiles + cells)
  {
    var items := tiles + cells;
    forall k | 0 <= k < |items|
      ensures items[k] == if k < |tiles| then Tile(k) else cells[k - |tiles|]
    {
    }
  }

  /** With a saved order, of two items that it names the one whose id comes last earlier goes first. */
  lemma SavedItemsInSavedOrder(apps: seq<App>, o: Overrides, k: nat, l: nat, p: nat, q: nat)
    requires var g := Rebuilt(apps, o, false);
             && k < |g.items| && l < |g.items| && p < q < |o.order|
             && IdOf(apps, g.folders, g.items[k]) == Some(o.order[p])
             && IdOf(apps, g.folders, g.items[l]) == Some(o.order[q])
             && (forall m :: p < m < |o.order| ==> o.order[m] != o.order[p])
             && (forall m :: q < m < |o.order| ==> o.order[m] != o.order[q])
    ensures k < l
  {
    hide Built, Tiles, Cells, IdOf, Sort, Position;
    var g := Rebuilt(apps, o, false);
    LastPlace(o.order, p);
    LastPlace(o.order, q);
    if apps == [] {
      AllCells(0);
    } else {
      var base := Tiles(|g.folders|) + Cells(Built(apps, o, OTHER + |o.manual|).grouped, |apps|);
      if |base| > 1 {
        SoonerIsStrictWeak(apps, g.folders, o.order);
        SortSorts(base, Ordering(apps, g.folders, o.order));
      }
    }
    assert g.items[k] != g.items[l];
  }

  lemma {:induction false} LastPlace(order: seq<GridId>, p: nat)
    requires p < |order| && forall m :: p < m < |order| ==> order[m] != order[p]
    ensures Position(order, Some(order[p])) == Some(p)
    decreases |order|
  {
    if p < |order| - 1 {
      assert order[|order| - 1] != order[p];
      LastPlace(order[..|order| - 1], p);
    }
  }

  // ---------------------------------------------------------------------------------------------
  // The folders
  // ---------------------------------------------------------------------------------------------

  /** Buckets by number, then the user's folders as they stand in their list. */
  ghost predicate FolderBefore(o: Overrides, a: FolderId, b: FolderId) {
    match (a, b)
    case (Auto(x), Auto(y)) => x < y
    case (Auto(_), Custom(_)) => true
    case (Custom(_), Auto(_)) => false
    case (Custom(x), Custom(y)) =>
      exists p, q :: 0 <= p < q < |o.manual| && o.manual[p].number == x && o.manual[q].number == y
  }

  lemma FoldersInOrder(apps: seq<App>, o: Overrides)
    requires DistinctPaths(apps) && Kept(o)
    ensures var folders := Rebuilt(apps, o, false).folders;
            forall k, l :: 0 <= k < l < |folders| ==> FolderBefore(o, folders[k].id, folders[l].id)
  {
    hide Built, Kept, DistinctPaths, Arranged, Lists, Belong, BelongBelow;
    if apps != [] {
      var slots := BuiltIsDone(apps, o, Slots(o));
      var folders := Built(apps, o, Slots(o)).folders;
      forall k, l | 0 <= k < l < |folders|
        ensures FolderBefore(o, folders[k].id, folders[l].id)
      {
        assert slots[k] < slots[l] && FolderOf(apps, o, folders[k], slots[k]) && FolderOf(apps, o, folders[l], slots[l]);
      }
    }
  }

  /** `a` is named in the list before `b` is for the first time. */
  ghost predicate NamedBefore(list: seq<string>, a: string, b: string) {
    exists p, q :: 0 <= p < q < |list| && list[p] == a && list[q] == b && b !in list[..q]
  }

  /** A bucket's own apps as in the catalog, then the added ones as they were added; a manual folder as its list
      says. */
  ghost predicate MemberBefore(apps: seq<App>, o: Overrides, id: FolderId, i: nat, j: nat)
    requires i < |apps| && j < |apps|
  {
    var a, b := apps[i].path, apps[j].path;
    match id
    case Auto(bucket) =>
      if a !in o.removed then b !in o.removed ==> i < j
      else b in o.removed && bucket in o.added && NamedBefore(o.added[bucket], a, b)
    case Custom(n) =>
      exists m :: 0 <= m < |o.manual| && o.manual[m].number == n && NamedBefore(o.manual[m].members, a, b)
  }

  ghost predicate MembersInOrder(apps: seq<App>, o: Overrides, folder: Folder) {
    forall k, l :: 0 <= k < l < |folder.members| ==>
      && folder.members[k] < |apps| && folder.members[l] < |apps|
      && MemberBefore(apps, o, folder.id, folder.members[k], folder.members[l])
  }

  ghost predicate RisesBelow(s: seq<nat>, n: nat) {
    && (forall k :: 0 <= k < |s| ==> s[k] < n)
    && (forall k, l :: 0 <= k < l < |s| ==> s[k] < s[l])
  }

  lemma RisesOneMore(s: seq<nat>, n: nat)
    requires RisesBelow(s, n)
    ensures RisesBelow(s, n + 1) && RisesBelow(s + [n], n + 1)
  {
  }

  ghost predicate Unmoved(apps: seq<App>, removed: set<string>, s: seq<nat>) {
    forall k :: 0 <= k < |s| ==> s[k] < |apps| && apps[s[k]].path !in removed
  }

  lemma {:induction false} NaturalRises(apps: seq<App>, removed: set<string>, b: nat, n: nat)
    requires n <= |apps|
    ensures RisesBelow(Natural(apps, removed, b, n), n) && Unmoved(apps, removed, Natural(apps, removed, b, n))
    decreases n
  {
    if n > 0 {
      hide RisesBelow;
      NaturalRises(apps, removed, b, n - 1);
      RisesOneMore(Natural(apps, removed, b, n - 1), n - 1);
      assert Natural(apps, removed, b, n - 1) + [] == Natural(apps, removed, b, n - 1);
    } else {
      assert RisesBelow([], 0);
    }
  }

  ghost predicate HitsInOrder(apps: seq<App>, list: seq<string>, hits: seq<nat>) {
    && (forall k :: 0 <= k < |hits| ==> hits[k] < |apps| && apps[hits[k]].path in list)
    && (forall k, l :: 0 <= k < l < |hits| ==>
          && hits[k] < |apps| && hits[l] < |apps|
          && NamedBefore(list, apps[hits[k]].path, apps[hits[l]].path))
  }

  lemma NamedBeforeMore(list: seq<string>, last: string, a: string, b: string)
    requires NamedBefore(list, a, b)
    ensures NamedBefore(list + [last], a, b)
  {
    var p, q :| 0 <= p < q < |list| && list[p] == a && list[q] == b && b !in list[..q];
    var more := list + [last];
    assert more[p] == a && more[q] == b && more[..q] == list[..q];
  }

  lemma NamedLast(list: seq<string>, last: string, a: string)
    requires a in list && last !in list
    ensures NamedBefore(list + [last], a, last)
  {
    var p :| 0 <= p < |list| && list[p] == a;
    var more := list + [last];
    assert more[p] == a && more[|list|] == last && more[..|list|] == list;
  }

  lemma OneMoreHit(apps: seq<App>, list: seq<string>, hits: seq<nat>, last: string, hit: seq<nat>)
    requires HitsInOrder(apps, list, hits) && |hit| <= 1
    requires hit != [] ==> hit[0] < |apps| && apps[hit[0]].path == last && last !in list
    ensures HitsInOrder(apps, list + [last], hits + hit)
  {
    hide NamedBefore;
    var all, more := hits + hit, list + [last];
    forall k | 0 <= k < |all|
      ensures all[k] < |apps| && apps[all[k]].path in more
    {
      if k < |hits| {
        assert apps[hits[k]].path in list;
      } else {
        assert more[|list|] == last;
      }
    }
    forall k, l | 0 <= k < l < |all|
      ensures NamedBefore(more, apps[all[k]].path, apps[all[l]].path)
    {
      if l < |hits| {
        NamedBeforeMore(list, last, apps[hits[k]].path, apps[hits[l]].path);
      } else {
        assert apps[hits[k]].path in list;
        NamedLast(list, last, apps[hits[k]].path);
      }
    }
  }

  lemma HitIs(apps: seq<App>, path: string, grouped: set<nat>)
    ensures var hit := Hit(apps, path, grouped);
            |hit| <= 1 && (hit != [] ==> hit[0] < |apps| && apps[hit[0]].path == path && hit[0] !in grouped)
  {
    LookupFinds(apps, path, grouped, 0);
  }

  lemma {:induction false} AddedHitsInOrder(apps: seq<App>, list: seq<string>, grouped: set<nat>)
    requires NoDup(list)
    ensures HitsInOrder(apps, list, AddedHits(apps, list, grouped))
    decreases |list|
  {
    if list != [] {
      hide HitsInOrder, Hit;
      var front, last := list[..|list| - 1], list[|list| - 1];
      AddedHitsInOrder(apps, front, grouped);
      HitIs(apps, last, grouped);
      OneMoreHit(apps, front, AddedHits(apps, front, grouped), last, Hit(apps, last, grouped));
      assert front + [last] == list;
    }
  }

  lemma {:induction false} ManualHitsInOrder(apps: seq<App>, list: seq<string>, grouped: set<nat>)
    requires DistinctPaths(apps)
    ensures HitsInOrder(apps, list, ManualHits(apps, list, grouped))
    decreases |list|
  {
    if list != [] {
      hide HitsInOrder, Hit, DistinctPaths, Lists;
      var front, last := list[..|list| - 1], list[|list| - 1];
      var before := ManualHits(apps, front, grouped);
      var hit := Hit(apps, last, grouped + SetOf(before));
      ManualHitsInOrder(apps, front, grouped);
      HitIs(apps, last, grouped + SetOf(before));
      ManualHitsLists(apps, front, grouped);
      if hit != [] {
        NotNamedYet(apps, front, grouped, before, hit[0]);
      }
      OneMoreHit(apps, front, before, last, hit);
      assert front + [last] == list;
    }
  }

  lemma NotNamedYet(apps: seq<App>, front: seq<string>, grouped: set<nat>, before: seq<nat>, i: nat)
    requires Lists(before, NamedSet(apps, front, grouped)) && i < |apps| && i !in grouped + SetOf(before)
    ensures apps[i].path !in front
  {
    assert i !in NamedSet(apps, front, grouped);
  }

  lemma AutoMembersInOrder(apps: seq<App>, o: Overrides, b: nat, grouped: set<nat>)
    requires Kept(o)
    ensures MembersInOrder(apps, o, Folder(Auto(b), AutoMembers(apps, o, b, grouped)))
  {
    hide Natural, AddedHits, NamedBefore, NoDup;
    var natural, hits := Natural(apps, o.removed, b, |apps|), AddedHits(apps, AddedTo(o, b), grouped);
    NaturalRises(apps, o.removed, b, |apps|);
    assert NoDup(AddedTo(o, b));
    AddedHitsInOrder(apps, AddedTo(o, b), grouped);
    forall k | 0 <= k < |hits|
      ensures apps[hits[k]].path in o.removed
    {
      ListedIsRemoved(o, b, apps[hits[k]].path);
    }
    NaturalThenAdded(apps, o, b, natural, hits);
  }

  lemma NaturalThenAdded(apps: seq<App>, o: Overrides, b: nat, natural: seq<nat>, hits: seq<nat>)
    requires RisesBelow(natural, |apps|)
    requires Unmoved(apps, o.removed, natural)
    requires HitsInOrder(apps, AddedTo(o, b), hits)
    requires forall k :: 0 <= k < |hits| ==> hits[k] < |apps| && apps[hits[k]].path in o.removed
    ensures MembersInOrder(apps, o, Folder(Auto(b), natural + hits))
  {
    hide NamedBefore;
    var members, n := natural + hits, |natural|;
    forall k, l | 0 <= k < l < |members|
      ensures members[k] < |apps| && members[l] < |apps| && MemberBefore(apps, o, Auto(b), members[k], members[l])
    {
      if k >= n {
        assert NamedBefore(AddedTo(o, b), apps[hits[k - n]].path, apps[hits[l - n]].path);
        assert apps[hits[k - n]].path in AddedTo(o, b);
      }
    }
  }

  lemma ListedIsRemoved(o: Overrides, b: nat, path: string)
    requires Kept(o) && path in AddedTo(o, b)
    ensures path in o.removed && b in o.added && AddedTo(o, b) == o.added[b]
  {
    var k :| 0 <= k < |AddedTo(o, b)| && AddedTo(o, b)[k] == path;
  }

  lemma ManualMembersInOrder(apps: seq<App>, o: Overrides, m: nat, grouped: set<nat>)
    requires DistinctPaths(apps) && m < |o.manual|
    ensures MembersInOrder(apps, o, Folder(Custom(o.manual[m].number), ManualHits(apps, o.manual[m].members, grouped)))
  {
    hide NamedBefore, ManualHits;
    ManualHitsInOrder(apps, o.manual[m].members, grouped);
  }

  ghost predicate AllInOrder(apps: seq<App>, o: Overrides, folders: seq<Folder>) {
    forall k :: 0 <= k < |folders| ==> MembersInOrder(apps, o, folders[k])
  }

  lemma OneMoreFolder(apps: seq<App>, o: Overrides, folders: seq<Folder>, folder: Folder)
    requires AllInOrder(apps, o, folders) && MembersInOrder(apps, o, folder)
    ensures AllInOrder(apps, o, folders + [folder])
  {
    hide MembersInOrder;
  }

  lemma AutoStepInOrder(apps: seq<App>, o: Overrides, b: nat, st: Build)
    requires Kept(o) && AllInOrder(apps, o, st.folders)
    ensures AllInOrder(apps, o, AutoStep(apps, o, b, st).folders)
  {
    hide AllInOrder, MembersInOrder, Kept, AutoMembers, Touched, SetOf;
    AutoMembersInOrder(apps, o, b, st.grouped);
    OneMoreFolder(apps, o, st.folders, Folder(Auto(b), AutoMembers(apps, o, b, st.grouped)));
  }

  lemma ManualStepInOrder(apps: seq<App>, o: Overrides, m: nat, st: Build)
    requires DistinctPaths(apps) && m < |o.manual| && AllInOrder(apps, o, st.folders)
    ensures AllInOrder(apps, o, ManualStep(apps, o.manual[m], st).folders)
  {
    hide AllInOrder, MembersInOrder, DistinctPaths, ManualHits, SetOf;
    var list := o.manual[m];
    ManualMembersInOrder(apps, o, m, st.grouped);
    OneMoreFolder(apps, o, st.folders, Folder(Custom(list.number), ManualHits(apps, list.members, st.grouped)));
  }

  lemma {:induction false} BuiltMembersInOrder(apps: seq<App>, o: Overrides, n: nat)
    requires DistinctPaths(apps) && Kept(o) && n <= Slots(o)
    ensures AllInOrder(apps, o, Built(apps, o, n).folders)
    decreases n
  {
    hide MembersInOrder, Kept, DistinctPaths, AutoStep, ManualStep;
    if n > 0 {
      hide AllInOrder;
      BuiltMembersInOrder(apps, o, n - 1);
      if n <= OTHER {
        AutoStepInOrder(apps, o, n - 1, Built(apps, o, n - 1));
      } else {
        ManualStepInOrder(apps, o, n - 1 - OTHER, Built(apps, o, n - 1));
      }
    }
  }

  /** Every folder of the grid lists its members in that order. */
  lemma FolderMembersInOrder(apps: seq<App>, o: Overrides)
    requires DistinctPaths(apps) && Kept(o)
    ensures var folders := Rebuilt(apps, o, false).folders;
            forall k :: 0 <= k < |folders| ==> MembersInOrder(apps, o, folders[k])
  {
    hide Built, Kept, DistinctPaths, MembersInOrder, Arranged;
    if apps != [] {
      BuiltMembersInOrder(apps, o, Slots(o));
    }
  }

  // ---------------------------------------------------------------------------------------------
  // Which folder an app is in
  // ---------------------------------------------------------------------------------------------

  ghost predicate IsIn(folders: seq<Folder>, i: nat, id: FolderId) {
    exists k :: 0 <= k < |folders| && folders[k].id == id && i in folders[k].members
  }

  /** Some bucket below `n` had the path added. */
  ghost predicate AddedBelow(o: Overrides, path: string, n: nat) {
    exists b :: 0 <= b < n && b in o.added && path in o.added[b]
  }

  /** An app the user never moved is in its bucket's folder unless the bucket is the last one, or has no other app
      and no addition. An app the user moved is in the first bucket it was added to, else in the first manual
      folder that lists it, else loose. */
  ghost predicate BelongsIn(apps: seq<App>, o: Overrides, i: nat, id: FolderId)
    requires i < |apps|
  {
    var path, own := apps[i].path, apps[i].bucket;
    if path !in o.removed then
      && id == Auto(own) && own < OTHER
      && ((own in o.added && o.added[own] != []) || exists j :: 0 <= j < |apps| && j != i && apps[j].bucket == own)
    else
      match id
      case Auto(b) => b < OTHER && b in o.added && path in o.added[b] && !AddedBelow(o, path, b)
      case Custom(n) =>
        && !AddedBelow(o, path, OTHER)
        && exists m :: 0 <= m < |o.manual| && o.manual[m].number == n && path in o.manual[m].members
             && forall l :: 0 <= l < m ==> path !in o.manual[l].members
  }

  lemma HomeSaid(apps: seq<App>, o: Overrides, i: nat, id: FolderId)
    requires DistinctPaths(apps) && Kept(o) && i < |apps|
    ensures Home(apps, o, i) == Some(id) <==> BelongsIn(apps, o, i, id)
  {
    hide DistinctPaths, Claimer;
    assert DistinctNumbers(o.manual);
    if apps[i].path in o.removed {
      hide Home, Kept;
      RemovedHome(apps, o, i);
      ClaimerSaid(o, apps[i].path, id);
    } else {
      hide Home, HomeSlot, Kept;
      NaturalHome(apps, o, i);
      GroupedSaid(apps, o, i);
    }
  }

  lemma GroupedSaid(apps: seq<App>, o: Overrides, i: nat)
    requires i < |apps| && apps[i].path !in o.removed
    ensures var b := apps[i].bucket;
            Touched(apps, o, b) || Companion(apps, o.removed, i)
            <==> (b in o.added && o.added[b] != []) || exists j :: 0 <= j < |apps| && j != i && apps[j].bucket == b
  {
    var b := apps[i].bucket;
    if j :| 0 <= j < |apps| && j != i && apps[j].bucket == b {
      if apps[j].path in o.removed {
        assert Touched(apps, o, b);
      } else {
        assert Companion(apps, o.removed, i);
      }
    }
  }

  lemma ClaimerSaid(o: Overrides, path: string, id: FolderId)
    requires DistinctNumbers(o.manual)
    ensures Claimer(o, path) == Some(id)
            <==> match id
                 case Auto(b) => b < OTHER && b in o.added && path in o.added[b] && !AddedBelow(o, path, b)
                 case Custom(n) =>
                   && !AddedBelow(o, path, OTHER)
                   && exists m :: 0 <= m < |o.manual| && o.manual[m].number == n && path in o.manual[m].members
                        && forall l :: 0 <= l < m ==> path !in o.manual[l].members
  {
    hide FirstIn, FirstSlot;
    var b := FirstSlot(o, path, OTHER);
    FirstBucketSaid(o, path);
    match id
    case Auto(_) =>
    case Custom(n) =>
      FirstInSaid(o.manual, path, n);
      assert FirstIn(o.manual, path).Some? ==> FirstIn(o.manual, path) == Some(FirstIn(o.manual, path).value);
      if b < OTHER {
        assert AddedBelow(o, path, OTHER);
      }
  }

  lemma FirstBucketSaid(o: Overrides, path: string)
    ensures var b := FirstSlot(o, path, OTHER);
            && (b < OTHER ==> b in o.added && path in o.added[b])
            && !AddedBelow(o, path, b)
            && b <= OTHER
            && forall c :: b < c ==> b == OTHER || AddedBelow(o, path, c)
  {
    var b := FirstSlot(o, path, OTHER);
    if b < OTHER {
      assert path in SlotList(o, b);
    }
    forall c: nat | c < b
      ensures !(c in o.added && path in o.added[c])
    {
      assert path !in SlotList(o, c);
    }
  }

  lemma {:induction false} FirstInSaid(manual: seq<Manual>, path: string, n: nat)
    requires DistinctNumbers(manual)
    ensures FirstIn(manual, path) == Some(n)
            <==> exists m :: 0 <= m < |manual| && manual[m].number == n && path in manual[m].members
                   && forall l :: 0 <= l < m ==> path !in manual[l].members
    decreases |manual|
  {
    if manual != [] {
      var front := manual[..|manual| - 1];
      FirstInSaid(front, path, n);
      FirstInNone(front, path);
      assert forall m :: 0 <= m < |front| ==> front[m] == manual[m];
    }
  }

  /** The rebuilt grid has every app in the folder it belongs in, if there is one, and in no other. */
  lemma AppsAreWhereTheyBelong(apps: seq<App>, o: Overrides, i: nat, id: FolderId)
    requires DistinctPaths(apps) && Kept(o) && i < |apps|
    ensures IsIn(Rebuilt(apps, o, false).folders, i, id) <==> BelongsIn(apps, o, i, id)
  {
    hide Rebuilt, Kept, DistinctPaths, Home, BelongsIn;
    EveryAppIsPlacedOnce(apps, o);
    HomeSaid(apps, o, i, id);
    var folders := Rebuilt(apps, o, false).folders;
    forall k | 0 <= k < |folders|
      ensures i in folders[k].members <==> Home(apps, o, i) == Some(folders[k].id)
    {
      assert HoldsItsApps(apps, o, folders[k]);
    }
  }
}
