/** The launchpad host: the fields the rebuild and the edits change in place, and the loops that do it. */
module LaunchpadHost {
  import opened Wrappers
  import opened Sorting
  import opened LaunchpadFolders
  import opened LaunchpadEdits
  import opened Launchpad

  // ---------------------------------------------------------------------------------------------
  // The loops of the rebuild
  // ---------------------------------------------------------------------------------------------

  method GatherNatural(apps: seq<App>, removed: set<string>) returns (members: seq<seq<nat>>)
    ensures |members| == OTHER + 1
    ensures forall b :: 0 <= b <= OTHER ==> members[b] == Natural(apps, removed, b, |apps|)
  {
    members := seq(OTHER + 1, _ => []);
    var i := 0;
    while i < |apps|
      invariant 0 <= i <= |apps| && |members| == OTHER + 1
      invariant forall b :: 0 <= b <= OTHER ==> members[b] == Natural(apps, removed, b, i)
    {
      if apps[i].path !in removed {
        var b := apps[i].bucket;
        members := members[b := members[b] + [i]];
      }
      i := i + 1;
    }
  }

  method HasRemoved(apps: seq<App>, path: string, b: nat) returns (found: bool)
    ensures found <==> exists i :: 0 <= i < |apps| && apps[i].path == path && apps[i].bucket == b
  {
    var i := 0;
    while i < |apps|
      invariant 0 <= i <= |apps|
      invariant forall j :: 0 <= j < i ==> !(apps[j].path == path && apps[j].bucket == b)
    {
      if apps[i].path == path && apps[i].bucket == b {
        return true;
      }
      i := i + 1;
    }
    return false;
  }

  method BucketTouched(apps: seq<App>, o: Overrides, b: nat) returns (touched: bool)
    ensures touched == Touched(apps, o, b)
  {
    if b in o.added && o.added[b] != [] {
      return true;
    }
    var rest := o.removed;
    while rest != {}
      invariant rest <= o.removed
      invariant forall i :: 0 <= i < |apps| && apps[i].bucket == b && apps[i].path in o.removed ==> apps[i].path in rest
      decreases |rest|
    {
      var path :| path in rest;
      var found := HasRemoved(apps, path, b);
      if found {
        return true;
      }
      rest := rest - {path};
    }
    return false;
  }

  method FindUngrouped(apps: seq<App>, path: string, grouped: set<nat>) returns (found: Option<nat>)
    ensures found == Lookup(apps, path, grouped, 0)
  {
    var i := 0;
    while i < |apps|
      invariant 0 <= i <= |apps|
      invariant Lookup(apps, path, grouped, 0) == Lookup(apps, path, grouped, i)
    {
      if apps[i].path == path && i !in grouped {
        return Some(i);
      }
      i := i + 1;
    }
    return None;
  }

  method GatherAdded(apps: seq<App>, paths: seq<string>, grouped: set<nat>) returns (hits: seq<nat>)
    ensures hits == AddedHits(apps, paths, grouped)
  {
    hits := [];
    var k := 0;
    while k < |paths|
      invariant 0 <= k <= |paths|
      invariant hits == AddedHits(apps, paths[..k], grouped)
    {
      var found := FindUngrouped(apps, paths[k], grouped);
      assert paths[..k + 1][..k] == paths[..k];
      if found.Some? {
        hits := hits + [found.value];
      }
      k := k + 1;
    }
    assert paths[..k] == paths;
  }

  method GatherManual(apps: seq<App>, paths: seq<string>, grouped: set<nat>) returns (hits: seq<nat>, now: set<nat>)
    ensures hits == ManualHits(apps, paths, grouped) && now == grouped + SetOf(hits)
  {
    hits, now := [], grouped;
    var k := 0;
    while k < |paths|
      invariant 0 <= k <= |paths|
      invariant hits == ManualHits(apps, paths[..k], grouped) && now == grouped + SetOf(hits)
    {
      var found := FindUngrouped(apps, paths[k], now);
      assert paths[..k + 1][..k] == paths[..k];
      if found.Some? {
        SetOfSnoc(hits, found.value);
        hits, now := hits + [found.value], now + {found.value};
      }
      k := k + 1;
    }
    assert paths[..k] == paths;
  }

  /** The last place of every id in the saved order. */
  method Places(order: seq<GridId>) returns (pos: map<GridId, nat>)
    ensures forall id :: Position(order, Some(id)) == if id in pos then Some(pos[id]) else None
  {
    pos := map[];
    var i := 0;
    while i < |order|
      invariant 0 <= i <= |order|
      invariant forall id :: Position(order[..i], Some(id)) == if id in pos then Some(pos[id]) else None
    {
      assert order[..i + 1][..i] == order[..i];
      pos := pos[order[i] := i];
      i := i + 1;
    }
    assert order[..i] == order;
  }

  function Placed(pos: map<GridId, nat>, id: Option<GridId>): Option<nat> {
    if id.Some? && id.value in pos then Some(pos[id.value]) else None
  }

  lemma {:induction false} NoPosition(order: seq<GridId>)
    ensures Position(order, None) == None
    decreases |order|
  {
    if order != [] {
      NoPosition(order[..|order| - 1]);
    }
  }

  lemma {:induction false} InsertSame<T(!new)>(x: T, s: seq<T>, less: (T, T) -> bool, same: (T, T) -> bool)
    requires forall a, b :: less(a, b) == same(a, b)
    ensures Insert(x, s, less) == Insert(x, s, same)
    decreases |s|
  {
    if s != [] {
      InsertSame(x, s[1..], less, same);
    }
  }

  lemma {:induction false} SortSame<T(!new)>(s: seq<T>, less: (T, T) -> bool, same: (T, T) -> bool)
    requires forall a, b :: less(a, b) == same(a, b)
    ensures Sort(s, less) == Sort(s, same)
    decreases |s|
  {
    if s != [] {
      SortSame(s[1..], less, same);
      InsertSame(s[0], Sort(s[1..], less), less, same);
    }
  }

  method Arrange(apps: seq<App>, folders: seq<Folder>, order: seq<GridId>, items: seq<Item>)
    returns (arranged: seq<Item>)
    ensures arranged == Arranged(apps, folders, order, items)
  {
    if order == [] || |items| <= 1 {
      return items;
    }
    var pos := Places(order);
    var less := (a, b) => Sooner(Placed(pos, IdOf(apps, folders, a)), Placed(pos, IdOf(apps, folders, b)));
    arranged := Sort(items, less);
    NoPosition(order);
    forall a, b
      ensures less(a, b) == Ordering(apps, folders, order)(a, b)
    {
      SamePlace(order, pos, IdOf(apps, folders, a));
      SamePlace(order, pos, IdOf(apps, folders, b));
    }
    SortSame(items, less, Ordering(apps, folders, order));
  }

  lemma SamePlace(order: seq<GridId>, pos: map<GridId, nat>, id: Option<GridId>)
    requires forall i :: Position(order, Some(i)) == if i in pos then Some(pos[i]) else None
    ensures Placed(pos, id) == Position(order, id)
  {
    NoPosition(order);
  }

  method PutNextTo<T(==)>(s: seq<T>, src: nat, dst: nat, after: bool) returns (moved: seq<T>)
    requires src < |s| && dst < |s|
    ensures moved == MovedNextTo(s, src, dst, after)
  {
    var rest := s[..src] + s[src + 1..];
    var at := 0;
    while at < |rest| && rest[at] != s[dst]
      invariant 0 <= at <= |rest|
      invariant IndexOf(rest, s[dst], 0) == IndexOf(rest, s[dst], at)
    {
      at := at + 1;
    }
    if at == |rest| {
      return s;
    }
    var pos := if after then at + 1 else at;
    moved := rest[..pos] + [s[src]] + rest[pos..];
  }

  // ---------------------------------------------------------------------------------------------
  // The host
  // ---------------------------------------------------------------------------------------------

  class Host {
    var apps: seq<App>
    var removed: set<string>
    var added: map<nat, seq<string>>
    var manual: seq<Manual>
    var order: seq<GridId>
    var folders: seq<Folder>
    var items: seq<Item>
    var open: Option<nat>
    var searching: bool
    var shown: bool

    function O(): Overrides
      reads this
    {
      Overrides(removed, added, manual, order)
    }

    function V(): View
      reads this
    {
      View(apps, O(), Grid(folders, items), open, searching, shown)
    }

    /** The bucket's members, and whether they make a folder. */
    method GatherBucket(natural: seq<nat>, b: nat, grouped: set<nat>) returns (mem: seq<nat>, makes: bool)
      ensures mem == natural + AddedHits(apps, AddedTo(O(), b), grouped)
      ensures makes <==> mem != [] && (|mem| >= 2 || Touched(apps, O(), b))
    {
      hide AddedHits, Touched;
      mem := natural;
      if b in added {
        var hits := GatherAdded(apps, added[b], grouped);
        mem := mem + hits;
      } else {
        NoHits(apps, grouped);
      }
      var touched := BucketTouched(apps, O(), b);
      makes := mem != [] && (|mem| >= 2 || touched);
    }

    method BucketFolders() returns (grouped: set<nat>)
      requires folders == [] && items == []
      modifies this`folders, this`items
      ensures Build(folders, grouped) == Built(apps, O(), OTHER) && items == Tiles(|folders|)
    {
      hide Natural, AddedHits, Touched, SetOf, Built;
      NoBucketYet(apps, O());
      grouped := {};
      var members := GatherNatural(apps, removed);
      var b := 0;
      while b < OTHER
        invariant 0 <= b <= OTHER
        invariant Build(folders, grouped) == Built(apps, O(), b) && items == Tiles(|folders|)
      {
        var mem, makes := GatherBucket(members[b], b, grouped);
        OneMoreBucket(apps, O(), b, folders, grouped, mem);
        if makes {
          items := items + [Tile(|folders|)];
          folders := folders + [Folder(Auto(b), mem)];
          grouped := grouped + SetOf(mem);
        }
        b := b + 1;
      }
    }

    method ManualFolders(before: set<nat>) returns (grouped: set<nat>)
      requires Build(folders, before) == Built(apps, O(), OTHER) && items == Tiles(|folders|)
      modifies this`folders, this`items
      ensures Build(folders, grouped) == Built(apps, O(), OTHER + |manual|) && items == Tiles(|folders|)
    {
      hide ManualHits, AutoStep;
      grouped := before;
      var k := 0;
      while k < |manual|
        invariant 0 <= k <= |manual|
        invariant Build(folders, grouped) == Built(apps, O(), OTHER + k) && items == Tiles(|folders|)
      {
        var hits, now := GatherManual(apps, manual[k].members, grouped);
        if hits != [] {
          items := items + [Tile(|folders|)];
          folders := folders + [Folder(Custom(manual[k].number), hits)];
        } else {
          assert SetOf(hits) == {};
        }
        grouped := now;
        k := k + 1;
      }
    }

    method LooseCells(grouped: set<nat>)
      modifies this`items
      ensures items == old(items) + Cells(grouped, |apps|)
    {
      var i := 0;
      while i < |apps|
        invariant 0 <= i <= |apps|
        invariant items == old(items) + Cells(grouped, i)
      {
        if i !in grouped {
          items := items + [Cell(i)];
        }
        i := i + 1;
      }
    }

    method RebuildGridItems()
      modifies this`folders, this`items, this`open
      ensures V() == WithRebuild(old(V()))
    {
      hide Built, Tiles, Cells, Arranged;
      folders, items := [], [];
      if !searching && apps != [] {
        NoTiles();
        var grouped := BucketFolders();
        grouped := ManualFolders(grouped);
        LooseCells(grouped);
        items := Arrange(apps, folders, order, items);
      } else {
        LooseCells({});
        assert items == Cells({}, |apps|);
      }
      if open.Some? && open.value >= |folders| {
        open := None;
      }
    }

    method CreateManualFolder(a: string, b: string)
      modifies this
      ensures V() == AfterCreate(old(V()), a, b)
    {
      if a == "" || b == "" || a == b {
        return;
      }
      var hasA := FindApp(a);
      var hasB := FindApp(b);
      if !hasA || !hasB {
        return;
      }
      var n, k := 0, 0;
      while k < |manual|
        invariant 0 <= k <= |manual|
        invariant n == NextNumber(manual[..k])
      {
        assert manual[..k + 1][..k] == manual[..k];
        n := if n < manual[k].number + 1 then manual[k].number + 1 else n;
        k := k + 1;
      }
      assert manual[..k] == manual;
      removed := removed + {a, b};
      manual := manual + [Manual(n, [a, b])];
      RebuildGridItems();
    }

    method FindApp(path: string) returns (found: bool)
      ensures found == Known(apps, path)
    {
      var i := 0;
      while i < |apps|
        invariant 0 <= i <= |apps| && forall j :: 0 <= j < i ==> apps[j].path != path
      {
        if apps[i].path == path {
          return true;
        }
        i := i + 1;
      }
      return false;
    }

    /** The path leaves every manual folder, or only those of one number. */
    method ShedManual(only: Option<nat>, path: string)
      modifies this`manual
      ensures manual == ShedAll(old(manual), only, path)
    {
      hide ShedAll, DropPath;
      ghost var was := manual;
      NoneToShed(only, path);
      var k := 0;
      while k < |manual|
        invariant 0 <= k <= |manual| == |was|
        invariant manual[..k] == ShedAll(was[..k], only, path)
        invariant manual[k..] == was[k..]
      {
        assert manual[k] == manual[k..][0] == was[k];
        var last := manual[k];
        ghost var front := manual[..k];
        if only == None || only == Some(last.number) {
          manual := manual[k := Manual(last.number, DropPath(last.members, path))];
        }
        ShedOneMore(was, only, path, k);
        assert manual[..k + 1] == front + [manual[k]];
        k := k + 1;
      }
      assert manual[..k] == manual && was[..k] == was;
    }

    method MoveAppIntoFolder(path: string, id: FolderId)
      modifies this
      ensures V() == AfterMove(old(V()), path, id)
    {
      hide Shed, DropPath, Known;
      if path == "" {
        return;
      }
      var known := FindApp(path);
      if !known {
        return;
      }
      match id {
        case Custom(n) =>
          var found, already := PullInto(n, path);
          if already || !found {
            return;
          }
        case Auto(b) =>
          var list := if b in added then added[b] else [];
          added := added[b := if path in list then list else list + [path]];
          ShedManual(None, path);
      }
      removed := removed + {path};
      manual := NonEmpty(manual);
      RebuildGridItems();
    }

    /** The loop over the manual folders, which stops at a target that has the path. */
    method PullInto(n: nat, path: string) returns (found: bool, already: bool)
      modifies this`manual
      ensures Pull(manual, found, already) == Pulled(old(manual), n, path, |old(manual)|)
    {
      hide DropPath;
      found, already := false, false;
      var k := 0;
      while k < |manual|
        invariant 0 <= k <= |manual| == |old(manual)| && !already
        invariant Pull(manual, found, already) == Pulled(old(manual), n, path, k)
        invariant forall m :: k <= m < |manual| ==> manual[m] == old(manual)[m]
      {
        if manual[k].number != n {
          manual := manual[k := Manual(manual[k].number, DropPath(manual[k].members, path))];
        } else {
          found := true;
          if path in manual[k].members {
            already := true;
            StoppedStays(old(manual), n, path, k + 1, |manual|);
            return;
          }
          manual := manual[k := manual[k].(members := manual[k].members + [path])];
        }
        k := k + 1;
      }
    }

    method RemoveAppFromOpenFolder(path: string)
      modifies this
      ensures V() == AfterTakeOut(old(V()), path)
    {
      hide Built, Arranged, Rebuilt;
      if open.None? || open.value >= |folders| || path == "" {
        return;
      }
      var id := folders[open.value].id;
      match id {
        case Custom(n) =>
          ShedManual(Some(n), path);
          manual := NonEmpty(manual);
        case Auto(_) =>
          removed := removed + {path};
      }
      RebuildGridItems();
      open := None;
      var k := 0;
      while k < |folders|
        invariant 0 <= k <= |folders| && open == None
        invariant FindFolder(folders, id, 0) == FindFolder(folders, id, k)
      {
        if folders[k].id == id {
          open := Some(k);
          return;
        }
        k := k + 1;
      }
    }

    method DropGridItem(src: nat, dst: nat)
      modifies this
      ensures V() == AfterDrop(old(V()), src, dst)
    {
      hide Built, Arranged, Rebuilt, Created, Moved, Known;
      if !shown || open.Some? || searching || src == dst || src >= |items| || dst >= |items| {
        return;
      }
      if items[src].Tile? || items[src].app >= |apps| || apps[items[src].app].path == "" {
        return;
      }
      var path := apps[items[src].app].path;
      if items[dst].Tile? {
        if items[dst].folder < |folders| {
          MoveAppIntoFolder(path, folders[items[dst].folder].id);
        }
        return;
      }
      if items[dst].app >= |apps| || apps[items[dst].app].path == "" {
        return;
      }
      CreateManualFolder(path, apps[items[dst].app].path);
    }

    method GridItemIds() returns (ids: seq<Option<GridId>>)
      ensures ids == Ids(apps, folders, items)
    {
      hide IdOf;
      ids := [];
      var i := 0;
      while i < |items|
        invariant 0 <= i <= |items|
        invariant ids == Ids(apps, folders, items[..i])
      {
        assert items[..i + 1][..i] == items[..i];
        ids := ids + [IdOf(apps, folders, items[i])];
        i := i + 1;
      }
      assert items[..i] == items;
    }

    method ReorderGridItem(src: nat, dst: nat, after: bool)
      modifies this
      ensures V() == AfterReorder(old(V()), src, dst, after)
    {
      hide Built, Arranged, Rebuilt, IdOf, MovedNextTo, Values;
      if !shown || open.Some? || searching || src == dst || src >= |items| || dst >= |items| {
        return;
      }
      var ids := GridItemIds();
      if ids[src].None? || ids[dst].None? {
        return;
      }
      ids := PutNextTo(ids, src, dst, after);
      order := Values(ids);
      RebuildGridItems();
    }

    /** A search closes the open folder and shows the hits flat. */
    method RefreshAppList(hits: seq<App>, query: bool)
      modifies this
      ensures V() == AfterRefresh(old(V()), hits, query)
    {
      hide Built, Arranged, Rebuilt;
      apps, searching := hits, query;
      if query {
        open := None;
      }
      RebuildGridItems();
    }
  }

  lemma NoneToShed(only: Option<nat>, path: string)
    ensures ShedAll([], only, path) == []
  {
  }

  lemma ShedOneMore(manual: seq<Manual>, only: Option<nat>, path: string, k: nat)
    requires k < |manual|
    ensures ShedAll(manual[..k + 1], only, path)
            == ShedAll(manual[..k], only, path)
               + [if only == None || only == Some(manual[k].number) then Shed(manual[k], path) else manual[k]]
  {
    assert manual[..k + 1][..k] == manual[..k];
  }

  lemma NoBucketYet(apps: seq<App>, o: Overrides)
    ensures Built(apps, o, 0) == Build([], {}) && Tiles(0) == []
  {
  }

  /** What a round of the loop over the buckets adds. */
  lemma OneMoreBucket(apps: seq<App>, o: Overrides, b: nat, folders: seq<Folder>, grouped: set<nat>, mem: seq<nat>)
    requires b < OTHER && Build(folders, grouped) == Built(apps, o, b)
    requires mem == AutoMembers(apps, o, b, grouped)
    ensures Built(apps, o, b + 1)
            == if mem != [] && (|mem| >= 2 || Touched(apps, o, b))
               then Build(folders + [Folder(Auto(b), mem)], grouped + SetOf(mem)) else Build(folders, grouped)
    ensures Tiles(|folders| + 1) == Tiles(|folders|) + [Tile(|folders|)]
  {
    hide AutoMembers, Touched, SetOf;
  }

  lemma NoTiles()
    ensures Tiles(0) == []
  {
  }

  lemma NoHits(apps: seq<App>, grouped: set<nat>)
    ensures AddedHits(apps, [], grouped) == []
  {
  }

  lemma {:induction false} StoppedStays(manual: seq<Manual>, n: nat, path: string, k: nat, m: nat)
    requires k <= m <= |manual| && Pulled(manual, n, path, k).already
    ensures Pulled(manual, n, path, m) == Pulled(manual, n, path, k)
    decreases m
  {
    if k < m {
      StoppedStays(manual, n, path, k, m - 1);
    }
  }
}
