/**
 The launchpad's folders: how the grid is rebuilt from a catalog and the user's overrides, and where
 each app ends up. Bucket folders come first, then the user's own, then the apps left loose; a saved
 order sorts the result stably.
 */
module LaunchpadFolders {
  import opened Wrappers
  import opened Sorting

  /** The last bucket, which never becomes a folder. */
  const OTHER: nat := 6

  type Bucket = b: nat | b <= OTHER

  datatype App = App(path: string, bucket: Bucket)

  datatype FolderId = Auto(bucket: nat) | Custom(number: nat)

  datatype Manual = Manual(number: nat, members: seq<string>)

  datatype GridId = FolderTile(id: FolderId) | AppCell(path: string)

  /** What the user's edits leave behind. */
  datatype Overrides = Overrides(removed: set<string>, added: map<nat, seq<string>>,
                                 manual: seq<Manual>, order: seq<GridId>)

  /** A folder's members are places in the catalog. */
  datatype Folder = Folder(id: FolderId, members: seq<nat>)

  datatype Item = Tile(folder: nat) | Cell(app: nat)

  datatype Build = Build(folders: seq<Folder>, grouped: set<nat>)

  datatype Grid = Grid(folders: seq<Folder>, items: seq<Item>)

  function SetOf(s: seq<nat>): set<nat> {
    set x | x in s
  }

  // ---------------------------------------------------------------------------------------------
  // The rebuild
  // ---------------------------------------------------------------------------------------------

  function AddedTo(o: Overrides, b: nat): seq<string> {
    if b in o.added then o.added[b] else []
  }

  /** The apps of bucket `b` among the first `n` that were not removed. */
  function Natural(apps: seq<App>, removed: set<string>, b: nat, n: nat): seq<nat>
    requires n <= |apps|
  {
    if n == 0 then []
    else Natural(apps, removed, b, n - 1)
         + (if apps[n - 1].path !in removed && apps[n - 1].bucket == b then [n - 1] else [])
  }

  predicate Touched(apps: seq<App>, o: Overrides, b: nat) {
    AddedTo(o, b) != [] || exists i :: 0 <= i < |apps| && apps[i].bucket == b && apps[i].path in o.removed
  }

  /** The first app from `i` on with this path that is in no folder yet. */
  function Lookup(apps: seq<App>, path: string, grouped: set<nat>, i: nat): Option<nat>
    requires i <= |apps|
    decreases |apps| - i
  {
    if i == |apps| then None
    else if apps[i].path == path && i !in grouped then Some(i)
    else Lookup(apps, path, grouped, i + 1)
  }

  function Hit(apps: seq<App>, path: string, grouped: set<nat>): seq<nat> {
    var found := Lookup(apps, path, grouped, 0);
    if found.Some? then [found.value] else []
  }

  /** Added paths are looked up against the folders before this one only. */
  function AddedHits(apps: seq<App>, paths: seq<string>, grouped: set<nat>): seq<nat> {
    if paths == [] then []
    else AddedHits(apps, paths[..|paths| - 1], grouped) + Hit(apps, paths[|paths| - 1], grouped)
  }

  /** A manual folder's members are marked as they are found. */
  function ManualHits(apps: seq<App>, paths: seq<string>, grouped: set<nat>): seq<nat> {
    if paths == [] then []
    else
      var before := ManualHits(apps, paths[..|paths| - 1], grouped);
      before + Hit(apps, paths[|paths| - 1], grouped + SetOf(before))
  }

  function WithFolder(st: Build, id: FolderId, members: seq<nat>): Build {
    Build(st.folders + [Folder(id, members)], st.grouped + SetOf(members))
  }

  function AutoMembers(apps: seq<App>, o: Overrides, b: nat, grouped: set<nat>): seq<nat> {
    Natural(apps, o.removed, b, |apps|) + AddedHits(apps, AddedTo(o, b), grouped)
  }

  /** An empty bucket makes no folder; nor does a lone app, unless the user touched the bucket. */
  function AutoStep(apps: seq<App>, o: Overrides, b: nat, st: Build): Build {
    var members := AutoMembers(apps, o, b, st.grouped);
    if members == [] || (|members| < 2 && !Touched(apps, o, b)) then st
    else WithFolder(st, Auto(b), members)
  }

  function ManualStep(apps: seq<App>, folder: Manual, st: Build): Build {
    var members := ManualHits(apps, folder.members, st.grouped);
    if members == [] then st else WithFolder(st, Custom(folder.number), members)
  }

  /** The folders of the first `n` slots: the buckets, then the manual folders in creation order. */
  function Built(apps: seq<App>, o: Overrides, n: nat): Build
    requires n <= OTHER + |o.manual|
  {
    if n == 0 then Build([], {})
    else if n <= OTHER then AutoStep(apps, o, n - 1, Built(apps, o, n - 1))
    else ManualStep(apps, o.manual[n - 1 - OTHER], Built(apps, o, n - 1))
  }

  function Tiles(n: nat): seq<Item> {
    if n == 0 then [] else Tiles(n - 1) + [Tile(n - 1)]
  }

  /** The first `n` apps' cells, for those in no folder. */
  function Cells(grouped: set<nat>, n: nat): seq<Item> {
    if n == 0 then []
    else Cells(grouped, n - 1) + (if n - 1 !in grouped then [Cell(n - 1)] else [])
  }

  function IdOf(apps: seq<App>, folders: seq<Folder>, item: Item): Option<GridId> {
    match item
    case Tile(k) => if k < |folders| then Some(FolderTile(folders[k].id)) else None
    case Cell(i) => if i < |apps| then Some(AppCell(apps[i].path)) else None
  }

  /** Where an id stands in the saved order; a repeated id stands where it is last. */
  function Position(order: seq<GridId>, id: Option<GridId>): Option<nat> {
    if order == [] then None
    else if id == Some(order[|order| - 1]) then Some(|order| - 1)
    else Position(order[..|order| - 1], id)
  }

  predicate Sooner(a: Option<nat>, b: Option<nat>) {
    if a.Some? != b.Some? then a.Some? else a.Some? && a.value < b.value
  }

  predicate Before(apps: seq<App>, folders: seq<Folder>, order: seq<GridId>, a: Item, b: Item) {
    Sooner(Position(order, IdOf(apps, folders, a)), Position(order, IdOf(apps, folders, b)))
  }

  function Ordering(apps: seq<App>, folders: seq<Folder>, order: seq<GridId>): (Item, Item) -> bool {
    (a, b) => Before(apps, folders, order, a, b)
  }

  function Arranged(apps: seq<App>, folders: seq<Folder>, order: seq<GridId>, items: seq<Item>): seq<Item> {
    if order != [] && |items| > 1 then Sort(items, Ordering(apps, folders, order)) else items
  }

  /** `rebuild_grid_items`; a search shows every hit as a loose cell. */
  function Rebuilt(apps: seq<App>, o: Overrides, searching: bool): Grid {
    if searching || apps == [] then Grid([], Cells({}, |apps|))
    else
      var st := Built(apps, o, OTHER + |o.manual|);
      Grid(st.folders, Arranged(apps, st.folders, o.order, Tiles(|st.folders|) + Cells(st.grouped, |apps|)))
  }

  // ---------------------------------------------------------------------------------------------
  // Where an app belongs, said directly
  // ---------------------------------------------------------------------------------------------

  /** The number of the first slot below `n` whose list names the path, else `n`. */
  function FirstSlot(o: Overrides, path: string, n: nat): (slot: nat)
    requires n <= OTHER + |o.manual|
    ensures slot <= n
    ensures slot < n ==> path in SlotList(o, slot)
    ensures forall m :: 0 <= m < slot ==> path !in SlotList(o, m)
  {
    if n == 0 then 0
    else
      var below := FirstSlot(o, path, n - 1);
      if below < n - 1 || path in SlotList(o, n - 1) then below else n
  }

  /** The list of paths a slot was given: additions to a bucket, or a manual folder's members. */
  function SlotList(o: Overrides, n: nat): seq<string>
    requires n < OTHER + |o.manual|
  {
    if n < OTHER then AddedTo(o, n) else o.manual[n - OTHER].members
  }

  function SlotId(o: Overrides, n: nat): FolderId
    requires n < OTHER + |o.manual|
  {
    if n < OTHER then Auto(n) else Custom(o.manual[n - OTHER].number)
  }

  /** Another app of the same bucket is still there. */
  ghost predicate Companion(apps: seq<App>, removed: set<string>, i: nat)
    requires i < |apps|
  {
    exists j :: 0 <= j < |apps| && j != i && apps[j].bucket == apps[i].bucket && apps[j].path !in removed
  }

  /** The slot an app belongs to; one past the last slot stands for the loose cells. */
  ghost function HomeSlot(apps: seq<App>, o: Overrides, i: nat): (slot: nat)
    requires i < |apps|
    ensures slot <= OTHER + |o.manual|
  {
    var app, loose := apps[i], OTHER + |o.manual|;
    if app.path in o.removed then FirstSlot(o, app.path, loose)
    else if app.bucket < OTHER && (Touched(apps, o, app.bucket) || Companion(apps, o.removed, i)) then app.bucket
    else loose
  }

  /** The folder an app belongs to, or none. */
  ghost function Home(apps: seq<App>, o: Overrides, i: nat): Option<FolderId>
    requires i < |apps|
  {
    var slot := HomeSlot(apps, o, i);
    if slot < OTHER + |o.manual| then Some(SlotId(o, slot)) else None
  }

  /** What every edit keeps: who is listed anywhere is removed from the natural grouping. */
  ghost predicate Kept(o: Overrides) {
    && (forall b, k :: 0 <= k < |AddedTo(o, b)| ==> AddedTo(o, b)[k] in o.removed)
    && (forall b :: NoDup(AddedTo(o, b)))
    && (forall m, k :: 0 <= m < |o.manual| && 0 <= k < |o.manual[m].members| ==> o.manual[m].members[k] in o.removed)
    && (forall m, n :: 0 <= m < n < |o.manual| ==> o.manual[m].number != o.manual[n].number)
  }

  ghost predicate DistinctPaths(apps: seq<App>) {
    forall i, j :: 0 <= i < j < |apps| ==> apps[i].path != apps[j].path
  }

  // ---------------------------------------------------------------------------------------------
  // What each part of the rebuild gathers
  // ---------------------------------------------------------------------------------------------

  lemma SetOfSnoc(s: seq<nat>, x: nat)
    ensures SetOf(s + [x]) == SetOf(s) + {x}
  {
  }

  lemma NoDupSnoc(s: seq<nat>, x: nat)
    requires NoDup(s) && x !in SetOf(s)
    ensures NoDup(s + [x])
  {
    forall i | 0 <= i < |s|
      ensures s[i] != x
    {
      assert s[i] in SetOf(s);
    }
  }

  /** `s` lists each member of `members` once and nothing else. */
  ghost predicate Lists(s: seq<nat>, members: set<nat>) {
    NoDup(s) && SetOf(s) == members
  }

  lemma ListsSnoc(s: seq<nat>, members: set<nat>, x: nat)
    requires Lists(s, members) && x !in members
    ensures Lists(s + [x], members + {x})
  {
    SetOfSnoc(s, x);
    NoDupSnoc(s, x);
  }

  lemma ListsBoth(s: seq<nat>, a: set<nat>, t: seq<nat>, b: set<nat>)
    requires Lists(s, a) && Lists(t, b) && a * b == {}
    ensures Lists(s + t, a + b)
  {
    assert SetOf(s + t) == SetOf(s) + SetOf(t);
    forall i, j | 0 <= i < |s| && 0 <= j < |t|
      ensures s[i] != t[j]
    {
      assert s[i] in SetOf(s) && t[j] in SetOf(t);
      assert s[i] !in a * b;
    }
  }

  ghost function NaturalSet(apps: seq<App>, removed: set<string>, b: nat, n: nat): set<nat>
    requires n <= |apps|
  {
    set i | 0 <= i < n && apps[i].path !in removed && apps[i].bucket == b
  }

  lemma {:induction false} NaturalLists(apps: seq<App>, removed: set<string>, b: nat, n: nat)
    requires n <= |apps|
    ensures Lists(Natural(apps, removed, b, n), NaturalSet(apps, removed, b, n))
  {
    if n > 0 {
      var before := NaturalSet(apps, removed, b, n - 1);
      NaturalLists(apps, removed, b, n - 1);
      if apps[n - 1].path !in removed && apps[n - 1].bucket == b {
        ListsSnoc(Natural(apps, removed, b, n - 1), before, n - 1);
        assert NaturalSet(apps, removed, b, n) == before + {n - 1};
      } else {
        assert NaturalSet(apps, removed, b, n) == before;
      }
    }
  }

  ghost function NamedSet(apps: seq<App>, paths: seq<string>, grouped: set<nat>): set<nat> {
    set i | 0 <= i < |apps| && apps[i].path in paths && i !in grouped
  }

  lemma {:induction false} LookupFinds(apps: seq<App>, path: string, grouped: set<nat>, i: nat)
    requires i <= |apps|
    ensures var found := Lookup(apps, path, grouped, i);
            if found.Some? then i <= found.value < |apps| && apps[found.value].path == path && found.value !in grouped
            else forall j :: i <= j < |apps| && apps[j].path == path ==> j in grouped
    decreases |apps| - i
  {
    if i < |apps| && !(apps[i].path == path && i !in grouped) {
      LookupFinds(apps, path, grouped, i + 1);
    }
  }

  lemma HitLists(apps: seq<App>, path: string, grouped: set<nat>)
    requires DistinctPaths(apps)
    ensures Lists(Hit(apps, path, grouped), NamedSet(apps, [path], grouped))
  {
    LookupFinds(apps, path, grouped, 0);
    var found := Lookup(apps, path, grouped, 0);
    if found.Some? {
      assert NamedSet(apps, [path], grouped) == {found.value};
    } else {
      assert NamedSet(apps, [path], grouped) == {};
    }
  }

  lemma NamedSnoc(apps: seq<App>, paths: seq<string>, path: string, grouped: set<nat>)
    ensures NamedSet(apps, paths + [path], grouped) == NamedSet(apps, paths, grouped) + NamedSet(apps, [path], grouped)
    ensures NamedSet(apps, paths + [path], grouped)
            == NamedSet(apps, paths, grouped) + NamedSet(apps, [path], grouped + NamedSet(apps, paths, grouped))
  {
  }

  lemma {:induction false} AddedHitsLists(apps: seq<App>, paths: seq<string>, grouped: set<nat>)
    requires DistinctPaths(apps) && NoDup(paths)
    ensures Lists(AddedHits(apps, paths, grouped), NamedSet(apps, paths, grouped))
    decreases |paths|
  {
    if paths != [] {
      hide Lists, NamedSet, Hit, DistinctPaths;
      var front, path := paths[..|paths| - 1], paths[|paths| - 1];
      AddedHitsLists(apps, front, grouped);
      HitLists(apps, path, grouped);
      NamedSnoc(apps, front, path, grouped);
      NamedApart(apps, front, path, grouped);
      ListsBoth(AddedHits(apps, front, grouped), NamedSet(apps, front, grouped),
                Hit(apps, path, grouped), NamedSet(apps, [path], grouped));
      assert paths == front + [path];
    } else {
      assert NamedSet(apps, [], grouped) == {};
    }
  }

  lemma NamedApart(apps: seq<App>, paths: seq<string>, path: string, grouped: set<nat>)
    requires path !in paths
    ensures NamedSet(apps, paths, grouped) * NamedSet(apps, [path], grouped) == {}
  {
  }

  lemma {:induction false} ManualHitsLists(apps: seq<App>, paths: seq<string>, grouped: set<nat>)
    requires DistinctPaths(apps)
    ensures Lists(ManualHits(apps, paths, grouped), NamedSet(apps, paths, grouped))
    decreases |paths|
  {
    if paths != [] {
      hide NamedSet, Hit, DistinctPaths, NoDup, SetOf;
      var front, path := paths[..|paths| - 1], paths[|paths| - 1];
      var named := NamedSet(apps, front, grouped);
      ManualHitsLists(apps, front, grouped);
      HitLists(apps, path, grouped + named);
      NamedSnoc(apps, front, path, grouped);
      NamedLater(apps, path, grouped, named);
      ListsBoth(ManualHits(apps, front, grouped), named,
                Hit(apps, path, grouped + named), NamedSet(apps, [path], grouped + named));
      assert paths == front + [path];
    } else {
      assert NamedSet(apps, [], grouped) == {};
    }
  }

  lemma NamedLater(apps: seq<App>, path: string, grouped: set<nat>, named: set<nat>)
    ensures named * NamedSet(apps, [path], grouped + named) == {}
  {
  }

  // ---------------------------------------------------------------------------------------------
  // Slot by slot, the folders gather exactly the apps that belong there
  // ---------------------------------------------------------------------------------------------

  function Slots(o: Overrides): nat {
    OTHER + |o.manual|
  }

  ghost function Belong(apps: seq<App>, o: Overrides, n: nat): set<nat> {
    set i | 0 <= i < |apps| && HomeSlot(apps, o, i) == n
  }

  ghost function BelongBelow(apps: seq<App>, o: Overrides, n: nat): set<nat> {
    set i | 0 <= i < |apps| && HomeSlot(apps, o, i) < n
  }

  lemma BelongSplits(apps: seq<App>, o: Overrides, n: nat)
    ensures BelongBelow(apps, o, n + 1) == BelongBelow(apps, o, n) + Belong(apps, o, n)
  {
  }

  ghost predicate FolderOf(apps: seq<App>, o: Overrides, folder: Folder, n: nat) {
    n < Slots(o) && folder.id == SlotId(o, n) && Lists(folder.members, Belong(apps, o, n)) && folder.members != []
  }

  /** After `n` slots, `slots` names the slot of each folder in turn. */
  ghost predicate Done(apps: seq<App>, o: Overrides, st: Build, slots: seq<nat>, n: nat) {
    && st.grouped == BelongBelow(apps, o, n)
    && |slots| == |st.folders|
    && (forall k :: 0 <= k < |slots| ==> slots[k] < n && FolderOf(apps, o, st.folders[k], slots[k]))
    && (forall k, l :: 0 <= k < l < |slots| ==> slots[k] < slots[l])
    && (forall i :: 0 <= i < |apps| && HomeSlot(apps, o, i) < n ==> HomeSlot(apps, o, i) in slots)
  }

  lemma FolderMade(apps: seq<App>, o: Overrides, st: Build, slots: seq<nat>, n: nat, members: seq<nat>)
    requires n < Slots(o) && Done(apps, o, st, slots, n)
    requires Lists(members, Belong(apps, o, n)) && members != []
    ensures Done(apps, o, WithFolder(st, SlotId(o, n), members), slots + [n], n + 1)
  {
    hide HomeSlot, Lists;
    var next, longer := WithFolder(st, SlotId(o, n), members), slots + [n];
    BelongSplits(apps, o, n);
    assert next.grouped == BelongBelow(apps, o, n + 1) by {
      MembersSet(members, Belong(apps, o, n));
    }
    assert FolderOf(apps, o, next.folders[|slots|], n);
    forall i | 0 <= i < |apps| && HomeSlot(apps, o, i) < n + 1
      ensures HomeSlot(apps, o, i) in longer
    {
      if HomeSlot(apps, o, i) == n {
        assert longer[|slots|] == n;
      }
    }
  }

  lemma MembersSet(members: seq<nat>, who: set<nat>)
    requires Lists(members, who)
    ensures SetOf(members) == who
  {
  }

  lemma FolderSkipped(apps: seq<App>, o: Overrides, st: Build, slots: seq<nat>, n: nat)
    requires Done(apps, o, st, slots, n) && Belong(apps, o, n) == {}
    ensures Done(apps, o, st, slots, n + 1)
  {
    hide HomeSlot, FolderOf;
    BelongSplits(apps, o, n);
    forall i | 0 <= i < |apps| && HomeSlot(apps, o, i) < n + 1
      ensures HomeSlot(apps, o, i) in slots
    {
      assert i !in Belong(apps, o, n);
    }
  }

  /** The removed apps a slot's list names and no earlier folder took are those that belong there. */
  lemma NamedBelong(apps: seq<App>, o: Overrides, n: nat, i: nat)
    requires n < Slots(o) && i < |apps| && apps[i].path in o.removed
    ensures i in NamedSet(apps, SlotList(o, n), BelongBelow(apps, o, n)) <==> HomeSlot(apps, o, i) == n
  {
  }

  lemma NamedAreRemoved(apps: seq<App>, o: Overrides, n: nat, grouped: set<nat>, i: nat)
    requires Kept(o) && n < Slots(o) && i in NamedSet(apps, SlotList(o, n), grouped)
    ensures apps[i].path in o.removed
  {
    var list := SlotList(o, n);
    var k :| 0 <= k < |list| && list[k] == apps[i].path;
    if n < OTHER {
      assert AddedTo(o, n)[k] in o.removed;
    } else {
      assert o.manual[n - OTHER].members[k] in o.removed;
    }
  }

  lemma ManualBelong(apps: seq<App>, o: Overrides, n: nat)
    requires Kept(o) && OTHER <= n < Slots(o)
    ensures NamedSet(apps, SlotList(o, n), BelongBelow(apps, o, n)) == Belong(apps, o, n)
  {
    hide FirstSlot, Touched, Kept;
    forall i
      ensures i in NamedSet(apps, SlotList(o, n), BelongBelow(apps, o, n)) <==> i in Belong(apps, o, n)
    {
      if i in NamedSet(apps, SlotList(o, n), BelongBelow(apps, o, n)) {
        NamedAreRemoved(apps, o, n, BelongBelow(apps, o, n), i);
        NamedBelong(apps, o, n, i);
      } else if i in Belong(apps, o, n) {
        assert apps[i].path in o.removed;
        NamedBelong(apps, o, n, i);
      }
    }
  }

  /** Two different members make a list of two or more, and the other way round. */
  lemma TwoMembers(s: seq<nat>, who: set<nat>, i: nat)
    requires Lists(s, who) && i in who
    ensures |s| >= 2 <==> exists j :: j in who && j != i
  {
    assert i in SetOf(s);
    if |s| >= 2 {
      assert s[0] in SetOf(s) && s[1] in SetOf(s) && s[0] != s[1];
    }
    if j :| j in who && j != i {
      assert j in SetOf(s);
    }
  }

  /** A lone bucket mate decides whether an untouched bucket groups. */
  lemma NaturalBelong(apps: seq<App>, o: Overrides, b: nat, i: nat)
    requires b < OTHER && i in NaturalSet(apps, o.removed, b, |apps|)
    ensures HomeSlot(apps, o, i) == b
            <==> Touched(apps, o, b) || |Natural(apps, o.removed, b, |apps|)| >= 2
  {
    hide Natural, Touched, Lists;
    var who := NaturalSet(apps, o.removed, b, |apps|);
    NaturalLists(apps, o.removed, b, |apps|);
    TwoMembers(Natural(apps, o.removed, b, |apps|), who, i);
    if Companion(apps, o.removed, i) {
      var j :| 0 <= j < |apps| && j != i && apps[j].bucket == apps[i].bucket && apps[j].path !in o.removed;
      assert j in who;
    }
    if exists j :: j in who && j != i {
      var j :| j in who && j != i;
      assert apps[j].bucket == apps[i].bucket;
    }
  }

  lemma BucketMembers(apps: seq<App>, o: Overrides, b: nat)
    requires DistinctPaths(apps) && Kept(o) && b < OTHER
    ensures Lists(AutoMembers(apps, o, b, BelongBelow(apps, o, b)),
                  NaturalSet(apps, o.removed, b, |apps|) + NamedSet(apps, AddedTo(o, b), BelongBelow(apps, o, b)))
  {
    hide Natural, AddedHits, Lists, HomeSlot;
    var grouped := BelongBelow(apps, o, b);
    NaturalLists(apps, o.removed, b, |apps|);
    AddedHitsLists(apps, AddedTo(o, b), grouped);
    forall i | i in NamedSet(apps, AddedTo(o, b), grouped)
      ensures i !in NaturalSet(apps, o.removed, b, |apps|)
    {
      NamedAreRemoved(apps, o, b, grouped, i);
    }
    ListsBoth(Natural(apps, o.removed, b, |apps|), NaturalSet(apps, o.removed, b, |apps|),
              AddedHits(apps, AddedTo(o, b), grouped), NamedSet(apps, AddedTo(o, b), grouped));
  }

  lemma BelongInBucket(apps: seq<App>, o: Overrides, b: nat, i: nat)
    requires b < OTHER && HomeSlotIs(apps, o, i, b)
    ensures i in NaturalSet(apps, o.removed, b, |apps|) + NamedSet(apps, AddedTo(o, b), BelongBelow(apps, o, b))
  {
    hide FirstSlot, Touched;
    if apps[i].path in o.removed {
      NamedBelong(apps, o, b, i);
    }
  }

  ghost predicate HomeSlotIs(apps: seq<App>, o: Overrides, i: nat, n: nat) {
    i < |apps| && HomeSlot(apps, o, i) == n
  }

  lemma NothingAdded(apps: seq<App>, o: Overrides, b: nat, grouped: set<nat>)
    requires !Touched(apps, o, b)
    ensures NamedSet(apps, AddedTo(o, b), grouped) == {} && AddedHits(apps, AddedTo(o, b), grouped) == []
  {
  }

  lemma BucketBelong(apps: seq<App>, o: Overrides, b: nat)
    requires DistinctPaths(apps) && Kept(o) && b < OTHER
    ensures var members := AutoMembers(apps, o, b, BelongBelow(apps, o, b));
            if members == [] || (|members| < 2 && !Touched(apps, o, b)) then Belong(apps, o, b) == {}
            else Lists(members, Belong(apps, o, b))
  {
    hide Natural, AddedHits, Lists, HomeSlot, Touched, Kept, DistinctPaths;
    var grouped := BelongBelow(apps, o, b);
    var members := AutoMembers(apps, o, b, grouped);
    var natural, named := NaturalSet(apps, o.removed, b, |apps|), NamedSet(apps, AddedTo(o, b), grouped);
    var skipped := members == [] || (|members| < 2 && !Touched(apps, o, b));
    BucketMembers(apps, o, b);
    if !Touched(apps, o, b) {
      NothingAdded(apps, o, b, grouped);
    }
    EmptyLists(members, natural + named);
    forall i | 0 <= i < |apps|
      ensures HomeSlot(apps, o, i) == b <==> !skipped && i in natural + named
    {
      if i in natural {
        NaturalBelong(apps, o, b, i);
        NaturalSize(apps, o, b, grouped);
      } else if i in named {
        NamedAreRemoved(apps, o, b, grouped, i);
        NamedBelong(apps, o, b, i);
      } else if HomeSlot(apps, o, i) == b {
        BelongInBucket(apps, o, b, i);
      }
    }
    if !skipped {
      assert Belong(apps, o, b) == natural + named;
    } else {
      assert Belong(apps, o, b) == {};
    }
  }

  lemma EmptyLists(s: seq<nat>, who: set<nat>)
    requires Lists(s, who)
    ensures s == [] <==> who == {}
  {
    if s != [] {
      assert s[0] in SetOf(s);
    }
  }

  lemma NaturalSize(apps: seq<App>, o: Overrides, b: nat, grouped: set<nat>)
    ensures !Touched(apps, o, b) ==> |AutoMembers(apps, o, b, grouped)| == |Natural(apps, o.removed, b, |apps|)|
  {
    if !Touched(apps, o, b) {
      NothingAdded(apps, o, b, grouped);
    }
  }

  /** Every slot in turn: the folders built so far hold exactly the apps that belong in their slots. */
  lemma {:induction false} BuiltIsDone(apps: seq<App>, o: Overrides, n: nat) returns (slots: seq<nat>)
    requires DistinctPaths(apps) && Kept(o) && n <= Slots(o)
    ensures Done(apps, o, Built(apps, o, n), slots, n)
  {
    hide Done, Belong, BelongBelow, AutoMembers, ManualHits, Lists, Touched, Kept, DistinctPaths;
    if n == 0 {
      slots := [];
      NothingBuilt(apps, o);
    } else {
      var m, st := n - 1, Built(apps, o, n - 1);
      var before := BuiltIsDone(apps, o, m);
      DoneGrouped(apps, o, st, before, m);
      if m < OTHER {
        var members := AutoMembers(apps, o, m, st.grouped);
        BucketBelong(apps, o, m);
        slots := if members == [] || (|members| < 2 && !Touched(apps, o, m)) then before else before + [m];
        if slots == before {
          FolderSkipped(apps, o, st, before, m);
        } else {
          FolderMade(apps, o, st, before, m, members);
        }
      } else {
        var list := o.manual[m - OTHER].members;
        var members := ManualHits(apps, list, st.grouped);
        ManualHitsLists(apps, list, st.grouped);
        ManualBelong(apps, o, m);
        EmptyLists(members, Belong(apps, o, m));
        slots := if members == [] then before else before + [m];
        if members == [] {
          FolderSkipped(apps, o, st, before, m);
        } else {
          FolderMade(apps, o, st, before, m, members);
        }
      }
    }
  }

  lemma NothingBuilt(apps: seq<App>, o: Overrides)
    ensures Done(apps, o, Build([], {}), [], 0)
  {
  }

  lemma DoneGrouped(apps: seq<App>, o: Overrides, st: Build, slots: seq<nat>, n: nat)
    requires Done(apps, o, st, slots, n)
    ensures st.grouped == BelongBelow(apps, o, n)
  {
  }

  // ---------------------------------------------------------------------------------------------
  // Placement
  // ---------------------------------------------------------------------------------------------

  /** The folder has members, each listed once, and they are the apps that belong to it. */
  ghost predicate HoldsItsApps(apps: seq<App>, o: Overrides, folder: Folder) {
    && folder.members != []
    && NoDup(folder.members)
    && forall i: nat :: i in folder.members <==> i < |apps| && Home(apps, o, i) == Some(folder.id)
  }

  /** Every tile and every cell of the grid, and every member of a folder, is there once; an app is in
      the folder it belongs to and nowhere else, or loose if it belongs to none. */
  ghost predicate Placed(apps: seq<App>, o: Overrides, g: Grid) {
    && NoDup(g.items)
    && (forall k: nat :: Tile(k) in g.items <==> k < |g.folders|)
    && (forall i: nat :: Cell(i) in g.items <==> i < |apps| && Home(apps, o, i) == None)
    && (forall k, l :: 0 <= k < l < |g.folders| ==> g.folders[k].id != g.folders[l].id)
    && (forall k :: 0 <= k < |g.folders| ==> HoldsItsApps(apps, o, g.folders[k]))
    && (forall i :: 0 <= i < |apps| && Home(apps, o, i).Some? ==>
          exists k :: 0 <= k < |g.folders| && g.folders[k].id == Home(apps, o, i).value)
  }

  lemma SlotIdsDiffer(o: Overrides, m: nat, n: nat)
    requires Kept(o) && m < Slots(o) && n < Slots(o) && m != n
    ensures SlotId(o, m) != SlotId(o, n)
  {
  }

  lemma HomeIs(apps: seq<App>, o: Overrides, i: nat, n: nat)
    requires Kept(o) && i < |apps| && n < Slots(o)
    ensures Home(apps, o, i) == Some(SlotId(o, n)) <==> HomeSlot(apps, o, i) == n
  {
    hide HomeSlot, SlotId;
    if HomeSlot(apps, o, i) < Slots(o) && HomeSlot(apps, o, i) != n {
      SlotIdsDiffer(o, HomeSlot(apps, o, i), n);
    }
  }

  lemma FolderHolds(apps: seq<App>, o: Overrides, folder: Folder, n: nat)
    requires Kept(o) && FolderOf(apps, o, folder, n)
    ensures HoldsItsApps(apps, o, folder)
  {
    hide HomeSlot, Home, SlotId;
    forall i: nat
      ensures i in folder.members <==> i < |apps| && Home(apps, o, i) == Some(folder.id)
    {
      assert i in folder.members <==> i in SetOf(folder.members);
      if i < |apps| {
        HomeIs(apps, o, i, n);
      }
    }
  }

  lemma {:induction false} TilesAre(n: nat)
    ensures |Tiles(n)| == n && forall k :: 0 <= k < n ==> Tiles(n)[k] == Tile(k)
  {
    if n > 0 {
      TilesAre(n - 1);
    }
  }

  lemma {:induction false} CellsAre(grouped: set<nat>, n: nat)
    ensures NoDup(Cells(grouped, n))
    ensures forall k :: 0 <= k < |Cells(grouped, n)| ==> Cells(grouped, n)[k].Cell? && Cells(grouped, n)[k].app < n
    ensures forall i: nat :: Cell(i) in Cells(grouped, n) <==> i < n && i !in grouped
  {
    if n > 0 {
      CellsAre(grouped, n - 1);
    }
  }

  /** Before it is sorted, the grid shows each folder and each ungrouped app once. */
  lemma BaseItems(folders: nat, grouped: set<nat>, apps: nat)
    ensures var items := Tiles(folders) + Cells(grouped, apps);
            && NoDup(items)
            && (forall k: nat :: Tile(k) in items <==> k < folders)
            && (forall i: nat :: Cell(i) in items <==> i < apps && i !in grouped)
  {
    hide Tiles, Cells;
    TilesAre(folders);
    CellsAre(grouped, apps);
    forall k: nat
      ensures Tile(k) in Tiles(folders) <==> k < folders
    {
      if k < folders {
        assert Tiles(folders)[k] == Tile(k);
      }
    }
  }

  lemma ArrangedPermutes(apps: seq<App>, folders: seq<Folder>, order: seq<GridId>, items: seq<Item>)
    ensures multiset(Arranged(apps, folders, order, items)) == multiset(items)
  {
    SortPermutes(items, Ordering(apps, folders, order));
  }

  /** The rebuild puts every app of the catalog in exactly one place, the one it belongs to. */
  lemma EveryAppIsPlacedOnce(apps: seq<App>, o: Overrides)
    requires DistinctPaths(apps) && Kept(o)
    ensures Placed(apps, o, Rebuilt(apps, o, false))
  {
    hide Built, Arranged, Tiles, Cells, Home, HomeSlot, Kept, DistinctPaths;
    if apps == [] {
      NothingToPlace(o);
    } else {
      var st := Built(apps, o, Slots(o));
      var slots := BuiltIsDone(apps, o, Slots(o));
      BaseItems(|st.folders|, st.grouped, |apps|);
      var items := Tiles(|st.folders|) + Cells(st.grouped, |apps|);
      ArrangedPermutes(apps, st.folders, o.order, items);
      PermutedNoDup(items, Arranged(apps, st.folders, o.order, items));
      LooseAre(apps, o, st, slots);
      FoldersAre(apps, o, st, slots);
    }
  }

  lemma NothingToPlace(o: Overrides)
    ensures Placed([], o, Rebuilt([], o, false))
  {
    assert Cells({}, 0) == [];
  }

  lemma LooseAre(apps: seq<App>, o: Overrides, st: Build, slots: seq<nat>)
    requires Done(apps, o, st, slots, Slots(o))
    ensures forall i :: 0 <= i < |apps| ==> (i !in st.grouped <==> Home(apps, o, i) == None)
  {
    hide HomeSlot, FolderOf;
  }

  lemma FoldersAre(apps: seq<App>, o: Overrides, st: Build, slots: seq<nat>)
    requires Kept(o) && Done(apps, o, st, slots, Slots(o))
    ensures forall k, l :: 0 <= k < l < |st.folders| ==> st.folders[k].id != st.folders[l].id
    ensures forall k :: 0 <= k < |st.folders| ==> HoldsItsApps(apps, o, st.folders[k])
    ensures forall i :: 0 <= i < |apps| && Home(apps, o, i).Some? ==>
              exists k :: 0 <= k < |st.folders| && st.folders[k].id == Home(apps, o, i).value
  {
    hide HomeSlot, Kept, SlotId;
    forall k | 0 <= k < |st.folders|
      ensures HoldsItsApps(apps, o, st.folders[k])
    {
      FolderHolds(apps, o, st.folders[k], slots[k]);
    }
    forall k, l | 0 <= k < l < |st.folders|
      ensures st.folders[k].id != st.folders[l].id
    {
      SlotIdsDiffer(o, slots[k], slots[l]);
    }
    forall i | 0 <= i < |apps| && Home(apps, o, i).Some?
      ensures exists k :: 0 <= k < |st.folders| && st.folders[k].id == Home(apps, o, i).value
    {
      var k :| 0 <= k < |slots| && slots[k] == HomeSlot(apps, o, i);
      assert FolderOf(apps, o, st.folders[k], slots[k]);
    }
  }
}
