/** What each gesture on the launchpad leaves of the overrides, the grid and the open folder, said outright. */
module LaunchpadGestures {
  import opened Wrappers
  import opened Sorting
  import opened LaunchpadFolders
  import opened LaunchpadEdits
  import opened LaunchpadHomes
  import opened Launchpad

  // ---------------------------------------------------------------------------------------------
  // Gestures that do nothing
  // ---------------------------------------------------------------------------------------------

  /** Items may be moved while the grid is shown, with no folder open and no query. */
  lemma OnlyTheOpenGridMoves(v: View, src: nat, dst: nat, after: bool)
    requires !v.shown || v.open.Some? || v.searching || src == dst || src >= |v.grid.items| || dst >= |v.grid.items|
    ensures Step(v, Drop(src, dst)) == v && Step(v, Reorder(src, dst, after)) == v
  {
  }

  lemma FoldersAreNotDropped(v: View, src: nat, dst: nat)
    requires src < |v.grid.items| && v.grid.items[src].Tile?
    ensures Step(v, Drop(src, dst)) == v
  {
  }

  lemma NothingToTakeOut(v: View, path: string)
    requires v.open.None? || v.open.value >= |v.grid.folders| || path == ""
    ensures Step(v, DragOut(path)) == v
  {
  }

  // ---------------------------------------------------------------------------------------------
  // Dropping an app on an app
  // ---------------------------------------------------------------------------------------------

  /** One above the highest number, or zero for the first folder. */
  ghost predicate IsNextNumber(manual: seq<Manual>, n: nat) {
    && (forall m :: 0 <= m < |manual| ==> manual[m].number < n)
    && (n > 0 ==> exists m :: 0 <= m < |manual| && manual[m].number + 1 == n)
  }

  lemma {:induction false} NextNumberIs(manual: seq<Manual>)
    ensures IsNextNumber(manual, NextNumber(manual))
    decreases |manual|
  {
    if manual != [] {
      var front := manual[..|manual| - 1];
      NextNumberIs(front);
      assert forall m :: 0 <= m < |front| ==> front[m] == manual[m];
    }
  }

  /** The two make a new folder at the end of the list, the dragged one first, and are listed nowhere else. */
  lemma DropOnCellSaid(v: View, src: nat, dst: nat)
    requires Inv(v) && CanArrange(v, src, dst) && v.grid.items[src].Cell? && v.grid.items[dst].Cell?
    requires forall i :: 0 <= i < |v.apps| ==> v.apps[i].path != ""
    ensures var w, i, j := Step(v, Drop(src, dst)), v.grid.items[src].app, v.grid.items[dst].app;
            && i < |v.apps| && j < |v.apps|
            && exists n :: IsNextNumber(v.o.manual, n)
                 && w.o == v.o.(removed := v.o.removed + {v.apps[i].path, v.apps[j].path},
                                manual := v.o.manual + [Manual(n, [v.apps[i].path, v.apps[j].path])])
  {
    hide Rebuilt, Home, Kept, DistinctPaths, NextNumber, IsNextNumber;
    var i, j := v.grid.items[src].app, v.grid.items[dst].app;
    LooseCell(v, src);
    LooseCell(v, dst);
    KnownApp(v.apps, i);
    KnownApp(v.apps, j);
    DifferentCells(v, src, dst);
    PathsDiffer(v.apps, i, j);
    NextNumberIs(v.o.manual);
  }

  // ---------------------------------------------------------------------------------------------
  // Dropping an app on a folder
  // ---------------------------------------------------------------------------------------------

  lemma {:induction false} DropPathSpares(paths: seq<string>, path: string)
    requires path !in paths
    ensures DropPath(paths, path) == paths
    decreases |paths|
  {
    if paths != [] {
      DropPathSpares(paths[..|paths| - 1], path);
    }
  }

  lemma ShedSpares(folder: Manual, path: string)
    requires path !in folder.members
    ensures Shed(folder, path) == folder
  {
    hide DropPath;
    DropPathSpares(folder.members, path);
  }

  lemma UnlistedFront(manual: seq<Manual>, path: string)
    requires Unlisted(manual, path) && manual != []
    ensures Unlisted(manual[..|manual| - 1], path) && path !in manual[|manual| - 1].members
  {
  }

  lemma {:induction false} ShedNothing(manual: seq<Manual>, only: Option<nat>, path: string)
    requires Unlisted(manual, path)
    ensures ShedAll(manual, only, path) == manual
    decreases |manual|
  {
    if manual != [] {
      hide Unlisted, Shed;
      var front, last := manual[..|manual| - 1], manual[|manual| - 1];
      UnlistedFront(manual, path);
      ShedNothing(front, only, path);
      ShedSpares(last, path);
      assert manual == front + [last];
    }
  }

  lemma NoneEmptyFront(manual: seq<Manual>)
    requires NoneEmpty(manual) && manual != []
    ensures NoneEmpty(manual[..|manual| - 1]) && manual[|manual| - 1].members != []
  {
  }

  lemma {:induction false} NoneEmptyStays(manual: seq<Manual>)
    requires NoneEmpty(manual)
    ensures NonEmpty(manual) == manual
    decreases |manual|
  {
    if manual != [] {
      hide NoneEmpty;
      var front, last := manual[..|manual| - 1], manual[|manual| - 1];
      NoneEmptyFront(manual);
      NoneEmptyStays(front);
      assert manual == front + [last];
    }
  }

  lemma UnlistedAt(manual: seq<Manual>, path: string, k: nat)
    requires Unlisted(manual, path) && k < |manual|
    ensures path !in manual[k].members && Shed(manual[k], path) == manual[k]
  {
    hide Shed;
    ShedSpares(manual[k], path);
  }

  lemma NumberAt(manual: seq<Manual>, at: nat, k: nat)
    requires DistinctNumbers(manual) && at < |manual| && k < |manual|
    ensures manual[k].number == manual[at].number <==> k == at
  {
  }

  /** The list after the loop, when the path was in no folder: the target, at place `at`, has it at the end. */
  lemma {:induction false} PulledIs(manual: seq<Manual>, path: string, at: nat, k: nat)
    requires k <= |manual| && at < |manual| && DistinctNumbers(manual) && Unlisted(manual, path)
    ensures var n := manual[at].number;
            Pulled(manual, n, path, k)
            == if k <= at then Pull(manual, false, false)
               else Pull(manual[at := Manual(n, manual[at].members + [path])], true, false)
  {
    if k > 0 {
      hide DistinctNumbers, Unlisted, Shed;
      PulledIs(manual, path, at, k - 1);
      UnlistedAt(manual, path, k - 1);
      NumberAt(manual, at, k - 1);
      var next := manual[at := Manual(manual[at].number, manual[at].members + [path])];
      assert manual[k - 1 := manual[k - 1]] == manual;
      assert next[k - 1 := next[k - 1]] == next;
    }
  }

  /** The app is put at the end of the folder's list, and no other list changes. */
  lemma DropOnTileSaid(v: View, src: nat, dst: nat)
    requires Inv(v) && CanArrange(v, src, dst) && v.grid.items[src].Cell? && v.grid.items[dst].Tile?
    requires v.grid.items[src].app < |v.apps| ==> v.apps[v.grid.items[src].app].path != ""
    ensures var w, i, k := Step(v, Drop(src, dst)), v.grid.items[src].app, v.grid.items[dst].folder;
            && i < |v.apps| && k < |v.grid.folders|
            && DroppedInto(v.o, v.apps[i].path, v.grid.folders[k].id, w.o)
  {
    hide Rebuilt, Home, Kept, DistinctPaths, Moved, DroppedInto;
    var i, k := v.grid.items[src].app, v.grid.items[dst].folder;
    LooseCell(v, src);
    ShownTile(v, dst);
    KnownApp(v.apps, i);
    MoveRebuilds(v.apps, v.o, i, v.grid.folders[k].id);
    MovedSaid(v.apps, v.o, i, v.grid.folders[k].id);
  }

  ghost predicate DroppedInto(o: Overrides, path: string, id: FolderId, p: Overrides) {
    match id
    case Auto(b) =>
      var list := if b in o.added then o.added[b] else [];
      p == o.(removed := o.removed + {path}, added := o.added[b := list + [path]])
    case Custom(n) =>
      exists at :: 0 <= at < |o.manual| && o.manual[at].number == n
        && p == o.(removed := o.removed + {path}, manual := o.manual[at := Manual(n, o.manual[at].members + [path])])
  }

  lemma MovedSaid(apps: seq<App>, o: Overrides, i: nat, id: FolderId)
    requires DistinctPaths(apps) && Kept(o) && NoneEmpty(o.manual) && i < |apps|
    requires Home(apps, o, i) == None && HasMember(apps, o, id)
    ensures DroppedInto(o, apps[i].path, id, Moved(o, apps[i].path, id).0)
  {
    hide Home, Kept, DistinctPaths, Pulled, NonEmpty, ShedAll, Unlisted, HasMember;
    var path := apps[i].path;
    MembersFolderExists(apps, o, id);
    LooseIsUnlisted(apps, o, i);
    match id
    case Auto(b) =>
      ShedNothing(o.manual, None, path);
      NoneEmptyStays(o.manual);
    case Custom(n) =>
      var at :| 0 <= at < |o.manual| && o.manual[at].number == n;
      NumbersDiffer(o);
      PulledIs(o.manual, path, at, |o.manual|);
      var after := o.manual[at := Manual(n, o.manual[at].members + [path])];
      LongerIsNonEmpty(o.manual, at, path);
      NoneEmptyStays(after);
  }

  lemma NumbersDiffer(o: Overrides)
    requires Kept(o)
    ensures DistinctNumbers(o.manual)
  {
  }

  lemma LongerIsNonEmpty(manual: seq<Manual>, at: nat, path: string)
    requires NoneEmpty(manual) && at < |manual|
    ensures NoneEmpty(manual[at := Manual(manual[at].number, manual[at].members + [path])])
  {
  }

  // ---------------------------------------------------------------------------------------------
  // Dragging an app out
  // ---------------------------------------------------------------------------------------------

  function OtherThan(path: string): string -> bool {
    p => p != path
  }

  function HasApps(): Manual -> bool {
    (folder: Manual) => folder.members != []
  }

  lemma {:induction false} FilterSnoc<T(!new)>(p: T -> bool, s: seq<T>, x: T)
    ensures Filter(p, s + [x]) == Filter(p, s) + (if p(x) then [x] else [])
    decreases |s|
  {
    if s == [] {
      assert s + [x] == [x];
      FilterCons(p, x, []);
    } else {
      FilterSnoc(p, s[1..], x);
      assert s + [x] == [s[0]] + (s[1..] + [x]);
      FilterCons(p, s[0], s[1..] + [x]);
    }
  }

  lemma {:induction false} DropPathFilters(paths: seq<string>, path: string)
    ensures DropPath(paths, path) == Filter(OtherThan(path), paths)
    decreases |paths|
  {
    if paths != [] {
      hide Filter;
      var front, last := paths[..|paths| - 1], paths[|paths| - 1];
      DropPathFilters(front, path);
      FilterSnoc(OtherThan(path), front, last);
      assert paths == front + [last];
    } else {
      assert Filter(OtherThan(path), paths) == [];
    }
  }

  lemma {:induction false} NonEmptyFilters(manual: seq<Manual>)
    ensures NonEmpty(manual) == Filter(HasApps(), manual)
    decreases |manual|
  {
    if manual != [] {
      hide Filter;
      var front, last := manual[..|manual| - 1], manual[|manual| - 1];
      NonEmptyFilters(front);
      FilterSnoc(HasApps(), front, last);
      assert manual == front + [last];
    } else {
      assert Filter(HasApps(), manual) == [];
    }
  }

  lemma {:induction false} ShedAllIs(manual: seq<Manual>, n: nat, path: string)
    ensures var after := ShedAll(manual, Some(n), path);
            && |after| == |manual|
            && forall m :: 0 <= m < |manual| ==>
                 after[m] == if manual[m].number == n then Manual(n, Filter(OtherThan(path), manual[m].members)) else manual[m]
    decreases |manual|
  {
    if manual != [] {
      hide Filter, DropPath;
      ShedAllIs(manual[..|manual| - 1], n, path);
      DropPathFilters(manual[|manual| - 1].members, path);
    }
  }

  /** From a bucket's folder the app is only marked as moved. A folder of the user's own loses it, keeps the order of
      the others, and goes when it has none left; every other folder stays. */
  ghost predicate TakenFrom(o: Overrides, path: string, id: FolderId, p: Overrides) {
    match id
    case Auto(_) => p == o.(removed := o.removed + {path})
    case Custom(n) =>
      && p == o.(manual := p.manual)
      && exists left: seq<Manual> ::
           && |left| == |o.manual|
           && (forall m :: 0 <= m < |left| ==>
                 left[m] == if o.manual[m].number == n then Manual(n, Filter(OtherThan(path), o.manual[m].members))
                            else o.manual[m])
           && p.manual == Filter(HasApps(), left)
  }

  /** ... and the modal stays with the folder, or closes if it is gone. */
  lemma DragOutSaid(v: View, path: string)
    requires v.open.Some? && v.open.value < |v.grid.folders| && path != ""
    ensures var w, id := Step(v, DragOut(path)), v.grid.folders[v.open.value].id;
            && TakenFrom(v.o, path, id, w.o)
            && (if w.open.Some? then w.open.value < |w.grid.folders| && w.grid.folders[w.open.value].id == id
                else forall k :: 0 <= k < |w.grid.folders| ==> w.grid.folders[k].id != id)
  {
    hide Rebuilt, Filter, ShedAll, NonEmpty, DropPath;
    var id := v.grid.folders[v.open.value].id;
    if id.Custom? {
      ShedAllIs(v.o.manual, id.number, path);
      NonEmptyFilters(ShedAll(v.o.manual, Some(id.number), path));
    }
    FoundFolder(WithRebuild(v.(o := TakenOut(v.o, path, id))).grid.folders, id, 0);
  }

  // ---------------------------------------------------------------------------------------------
  // Moving any app, loose or not
  // ---------------------------------------------------------------------------------------------

  /** A folder without the path, the others in their order. */
  function Purged(folder: Manual, path: string): Manual {
    Manual(folder.number, Filter(OtherThan(path), folder.members))
  }

  /** What the loop has made of folder `m` after `k` rounds, `at` being the target's place: it purges every folder
      but the target, and stops at a target that has the path. */
  ghost predicate Moves(manual: seq<Manual>, path: string, at: nat, k: nat, m: nat, now: Manual)
    requires m < |manual| && at <= |manual|
  {
    var stops := at < |manual| && path in manual[at].members;
    if m >= k || (stops && m >= at) then now == manual[m]
    else if m == at then now == Manual(manual[m].number, manual[m].members + [path])
    else now == Purged(manual[m], path)
  }

  lemma ShedIsPurged(folder: Manual, path: string)
    ensures Shed(folder, path) == Purged(folder, path)
  {
    hide DropPath, Filter;
    DropPathFilters(folder.members, path);
  }

  /** The loop over the user's folders; a target at the end of the list is one that is not there. */
  lemma {:induction false} PulledSaid(manual: seq<Manual>, n: nat, path: string, at: nat, k: nat)
    requires k <= |manual| && DistinctNumbers(manual) && at <= |manual|
    requires at < |manual| ==> manual[at].number == n
    requires at == |manual| ==> forall m :: 0 <= m < |manual| ==> manual[m].number != n
    ensures var r := Pulled(manual, n, path, k);
            && r.found == (at < k) && r.already == (at < k && path in manual[at].members)
            && forall m :: 0 <= m < |manual| ==> Moves(manual, path, at, k, m, r.manual[m])
  {
    if k > 0 {
      hide Filter, Shed, DistinctNumbers;
      PulledSaid(manual, n, path, at, k - 1);
      ShedIsPurged(manual[k - 1], path);
      OnlyTheTarget(manual, n, at, k - 1);
      var r, next := Pulled(manual, n, path, k - 1), Pulled(manual, n, path, k);
      assert Moves(manual, path, at, k - 1, k - 1, r.manual[k - 1]);
      forall m | 0 <= m < |manual|
        ensures Moves(manual, path, at, k, m, next.manual[m])
      {
        assert Moves(manual, path, at, k - 1, m, r.manual[m]);
      }
    }
  }

  lemma OnlyTheTarget(manual: seq<Manual>, n: nat, at: nat, k: nat)
    requires DistinctNumbers(manual) && at <= |manual| && k < |manual|
    requires at < |manual| ==> manual[at].number == n
    requires at == |manual| ==> forall m :: 0 <= m < |manual| ==> manual[m].number != n
    ensures manual[k].number == n <==> k == at
  {
    if at < |manual| {
      NumberAt(manual, at, k);
    }
  }

  /** The grid is not rebuilt, and the app not marked, when the folder is not there or has the app already; otherwise the
      app is marked as moved and emptied folders go. */
  lemma MoveIntoManualSaid(o: Overrides, path: string, n: nat, at: nat)
    requires DistinctNumbers(o.manual) && at <= |o.manual|
    requires at < |o.manual| ==> o.manual[at].number == n
    requires at == |o.manual| ==> forall m :: 0 <= m < |o.manual| ==> o.manual[m].number != n
    ensures var r := Moved(o, path, Custom(n));
            && r.1 == (at < |o.manual| && path !in o.manual[at].members)
            && exists left: seq<Manual> ::
                 && |left| == |o.manual|
                 && (forall m :: 0 <= m < |left| ==> Moves(o.manual, path, at, |o.manual|, m, left[m]))
                 && r.0 == if r.1 then o.(manual := Filter(HasApps(), left), removed := o.removed + {path})
                           else o.(manual := left)
  {
    hide Filter, Pulled, NonEmpty, Moves;
    var k := |o.manual|;
    PulledSaid(o.manual, n, path, at, k);
    var r := Pulled(o.manual, n, path, k);
    NonEmptyFilters(r.manual);
  }

  lemma {:induction false} ShedEverywhere(manual: seq<Manual>, path: string)
    ensures var after := ShedAll(manual, None, path);
            |after| == |manual| && forall m :: 0 <= m < |manual| ==> after[m] == Purged(manual[m], path)
    decreases |manual|
  {
    if manual != [] {
      hide Filter, Shed;
      ShedEverywhere(manual[..|manual| - 1], path);
      ShedIsPurged(manual[|manual| - 1], path);
    }
  }

  /** Into a bucket: the path is put at the end of the bucket's list unless it is in it, and leaves every folder of the
      user's own. */
  lemma MoveIntoBucketSaid(o: Overrides, path: string, b: nat)
    ensures var r := Moved(o, path, Auto(b));
            && r.1
            && exists left: seq<Manual> ::
                 && |left| == |o.manual| && (forall m :: 0 <= m < |left| ==> left[m] == Purged(o.manual[m], path))
                 && var list := if b in o.added then o.added[b] else [];
                    r.0 == o.(added := o.added[b := if path in list then list else list + [path]],
                              manual := Filter(HasApps(), left), removed := o.removed + {path})
  {
    hide Filter, ShedAll, NonEmpty, Purged;
    ShedEverywhere(o.manual, path);
    NonEmptyFilters(ShedAll(o.manual, None, path));
  }

  ghost predicate InCatalog(apps: seq<App>, path: string) {
    path != "" && exists i :: 0 <= i < |apps| && apps[i].path == path
  }

  /** Paths that are empty, alike or in no catalog change nothing. */
  lemma OnlyKnownAppsMove(v: View, a: string, b: string, id: FolderId)
    ensures (!InCatalog(v.apps, a) || !InCatalog(v.apps, b) || a == b) ==> AfterCreate(v, a, b) == v
    ensures !InCatalog(v.apps, a) ==> AfterMove(v, a, id) == v
  {
  }

  // ---------------------------------------------------------------------------------------------
  // Moving an item, and the rest
  // ---------------------------------------------------------------------------------------------

  /** The moved item stands right before or right behind its anchor, and all others as they did. */
  ghost predicate MovedBeside<T>(before: seq<T>, src: nat, dst: nat, behind: bool, now: seq<T>, at: nat)
    requires src < |before| && dst < |before|
  {
    && |now| == |before| && at < |now| && now[at] == before[src]
    && now[..at] + now[at + 1..] == before[..src] + before[src + 1..]
    && if behind then at > 0 && now[at - 1] == before[dst] else at + 1 < |now| && now[at + 1] == before[dst]
  }

  lemma NextToSaid<T>(s: seq<T>, src: nat, dst: nat, after: bool)
    requires src < |s| && dst < |s| && src != dst
    ensures exists at :: MovedBeside(s, src, dst, after, NextTo(s, src, dst, after), at)
  {
    var at := (if dst > src then dst - 1 else dst) + (if after then 1 else 0);
    var rest, now := s[..src] + s[src + 1..], NextTo(s, src, dst, after);
    assert rest[if dst > src then dst - 1 else dst] == s[dst];
    assert now == rest[..at] + [s[src]] + rest[at..];
    assert now[..at] == rest[..at] && now[at + 1..] == rest[at..];
    assert MovedBeside(s, src, dst, after, now, at);
  }

  lemma ReorderSaid(v: View, src: nat, dst: nat, after: bool)
    requires Inv(v) && CanArrange(v, src, dst)
    ensures var w := Step(v, Reorder(src, dst, after));
            && w.o == v.o.(order := w.o.order) && w.grid.folders == v.grid.folders
            && exists at :: MovedBeside(v.grid.items, src, dst, after, w.grid.items, at)
  {
    hide Rebuilt, Kept, DistinctPaths, Home, NextTo, MovedNextTo;
    ReorderMovesOneItem(v, src, dst, after);
    NextToSaid(v.grid.items, src, dst, after);
  }

  /** A new catalog changes no override; a query closes the open folder, and so does a grid with too few. */
  lemma RefreshSaid(v: View, apps: seq<App>, searching: bool)
    ensures var w := Step(v, Refresh(apps, searching));
            && w.apps == apps && w.searching == searching && w.o == v.o && w.shown == v.shown
            && w.open == if !searching && v.open.Some? && v.open.value < |w.grid.folders| then v.open else None
  {
    hide Rebuilt;
  }

  lemma OpenSaid(v: View, k: nat)
    ensures Step(v, Open(k)) == v.(open := if k < |v.grid.folders| then Some(k) else v.open)
    ensures Step(v, Close) == v.(open := None)
  {
  }
}
