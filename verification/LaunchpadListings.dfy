/** In how many folders the launchpad's overrides list an app: never in more than one. */
module LaunchpadListings {
  import opened Wrappers
  import opened LaunchpadFolders
  import opened LaunchpadEdits
  import opened LaunchpadHomes
  import opened Launchpad

  function One(b: bool): nat {
    if b then 1 else 0
  }

  /** How many manual folders list the path. */
  function Listings(manual: seq<Manual>, path: string): nat {
    if manual == [] then 0
    else Listings(manual[..|manual| - 1], path) + One(path in manual[|manual| - 1].members)
  }

  /** How many of the first `n` buckets have the path added. */
  function Additions(o: Overrides, path: string, n: nat): nat {
    if n == 0 then 0 else Additions(o, path, n - 1) + One(path in AddedTo(o, n - 1))
  }

  function Places(o: Overrides, path: string): nat {
    Additions(o, path, OTHER) + Listings(o.manual, path)
  }

  ghost predicate ListsOnce(o: Overrides) {
    forall path :: Places(o, path) <= 1
  }

  // ---------------------------------------------------------------------------------------------
  // What the edits do to the two counts
  // ---------------------------------------------------------------------------------------------

  lemma ListingsSnoc(manual: seq<Manual>, last: Manual, path: string)
    ensures Listings(manual + [last], path) == Listings(manual, path) + One(path in last.members)
  {
    assert (manual + [last])[..|manual|] == manual;
  }

  lemma {:induction false} SameAdditions(o: Overrides, p: Overrides, path: string, n: nat)
    requires n <= OTHER && SameBuckets(o, p, path)
    ensures Additions(p, path, n) == Additions(o, path, n)
  {
    if n > 0 {
      SameAdditions(o, p, path, n - 1);
      assert path in AddedTo(o, n - 1) <==> path in AddedTo(p, n - 1);
    }
  }

  lemma {:induction false} ShedAllLists(manual: seq<Manual>, only: Option<nat>, path: string, other: string)
    ensures Listings(ShedAll(manual, only, path), other) <= Listings(manual, other)
    decreases |manual|
  {
    if manual != [] {
      var front, last := manual[..|manual| - 1], manual[|manual| - 1];
      ShedAllLists(front, only, path, other);
      DropPathKeeps(last.members, path);
      ListingsSnoc(ShedAll(front, only, path),
                   if only == None || only == Some(last.number) then Shed(last, path) else last, other);
    }
  }

  lemma {:induction false} NonEmptyLists(manual: seq<Manual>, path: string)
    ensures Listings(NonEmpty(manual), path) == Listings(manual, path)
    decreases |manual|
  {
    if manual != [] {
      var front, last := manual[..|manual| - 1], manual[|manual| - 1];
      NonEmptyLists(front, path);
      ListingsSnoc(NonEmpty(front), last, path);
      assert NonEmpty(front) + [] == NonEmpty(front);
    }
  }

  lemma FirstFolders(manual: seq<Manual>, k: nat, path: string)
    requires 0 < k <= |manual|
    ensures Listings(manual[..k], path) == Listings(manual[..k - 1], path) + One(path in manual[k - 1].members)
  {
    assert manual[..k][..k - 1] == manual[..k - 1];
  }

  lemma {:induction false} PulledListsOthers(manual: seq<Manual>, n: nat, path: string, k: nat, other: string)
    requires k <= |manual| && DistinctNumbers(manual) && other != path
    ensures Listings(Pulled(manual, n, path, k).manual[..k], other) == Listings(manual[..k], other)
  {
    if k > 0 {
      hide Listings, DistinctNumbers, Pulled;
      PulledListsOthers(manual, n, path, k - 1, other);
      PullEntry(manual, n, path, k, other);
      var r, next := Pulled(manual, n, path, k - 1).manual, Pulled(manual, n, path, k).manual;
      ListingsSnoc(r[..k - 1], next[k - 1], other);
      FirstFolders(manual, k, other);
    } else {
      assert Pulled(manual, n, path, k).manual[..k] == manual[..k];
    }
  }

  /** One round, for a path no folder lists: the target, met once, gets it. */
  lemma PullPath(manual: seq<Manual>, n: nat, path: string, k: nat)
    requires 0 < k <= |manual| && DistinctNumbers(manual) && Unlisted(manual, path)
    requires !Pulled(manual, n, path, k - 1).already
    ensures var r, next := Pulled(manual, n, path, k - 1), Pulled(manual, n, path, k);
            && next.manual[..k] == r.manual[..k - 1] + [next.manual[k - 1]]
            && !next.already
            && One(next.found) == One(r.found) + One(path in next.manual[k - 1].members)
  {
    hide DropPath, PulledFrom, Thinned;
    PulledShape(manual, n, path, k - 1);
    DropPathKeeps(manual[k - 1].members, path);
    assert Pulled(manual, n, path, k - 1).manual[k - 1] == manual[k - 1];
  }

  lemma {:induction false} PulledListsPath(manual: seq<Manual>, n: nat, path: string, k: nat)
    requires k <= |manual| && DistinctNumbers(manual) && Unlisted(manual, path)
    ensures var r := Pulled(manual, n, path, k);
            !r.already && Listings(r.manual[..k], path) == One(r.found)
  {
    if k > 0 {
      hide Listings, Pulled, DistinctNumbers, Unlisted;
      PulledListsPath(manual, n, path, k - 1);
      PullPath(manual, n, path, k);
      var r, next := Pulled(manual, n, path, k - 1), Pulled(manual, n, path, k);
      ListingsSnoc(r.manual[..k - 1], next.manual[k - 1], path);
    }
  }

  lemma {:induction false} UnlistedCount(manual: seq<Manual>, path: string)
    ensures Listings(manual, path) == 0 <==> Unlisted(manual, path)
    decreases |manual|
  {
    if manual != [] {
      var front, last := manual[..|manual| - 1], manual[|manual| - 1];
      UnlistedCount(front, path);
      assert forall m :: 0 <= m < |front| ==> manual[m] == front[m];
      assert Unlisted(manual, path) ==> path !in manual[|manual| - 1].members;
    }
  }

  lemma {:induction false} NoAdditions(o: Overrides, path: string, n: nat)
    requires forall b :: 0 <= b < n ==> path !in AddedTo(o, b)
    ensures Additions(o, path, n) == 0
  {
    if n > 0 {
      NoAdditions(o, path, n - 1);
    }
  }

  lemma {:induction false} OneAddition(o: Overrides, p: Overrides, path: string, b: nat, n: nat)
    requires p.added == WithAdded(o, b, path) && forall c :: 0 <= c < n ==> path !in AddedTo(o, c)
    ensures Additions(p, path, n) == One(b < n)
  {
    if n > 0 {
      OneAddition(o, p, path, b, n - 1);
      WithAddedIs(o, b, path, p);
    }
  }

  /** A loose app is listed in no place. */
  lemma LooseHasNoPlace(apps: seq<App>, o: Overrides, i: nat)
    requires Kept(o) && i < |apps| && Home(apps, o, i) == None
    ensures Places(o, apps[i].path) == 0
  {
    hide Home, Kept, Unlisted;
    LooseIsUnlisted(apps, o, i);
    UnlistedCount(o.manual, apps[i].path);
    NoAdditions(o, apps[i].path, OTHER);
  }

  // ---------------------------------------------------------------------------------------------
  // Every edit of a loose app, and every drag-out
  // ---------------------------------------------------------------------------------------------

  lemma CreatedListsOnce(o: Overrides, a: string, b: string)
    requires ListsOnce(o) && Places(o, a) == 0 && Places(o, b) == 0
    ensures ListsOnce(Created(o, a, b))
  {
    hide Listings, Additions, SameBuckets;
    var p := Created(o, a, b);
    forall path
      ensures Places(p, path) <= 1
    {
      assert Places(o, path) <= 1;
      UntouchedBuckets(o, p, path);
      SameAdditions(o, p, path, OTHER);
      ListingsSnoc(o.manual, Manual(NextNumber(o.manual), [a, b]), path);
    }
  }

  lemma MovedListsOnce(o: Overrides, path: string, id: FolderId)
    requires Kept(o) && ListsOnce(o) && Places(o, path) == 0
    ensures ListsOnce(Moved(o, path, id).0)
  {
    hide Kept, Listings, Additions, ShedAll, NonEmpty, Pulled, WithAdded, SameBuckets;
    var p := Moved(o, path, id).0;
    forall other
      ensures Places(p, other) <= 1
    {
      assert Places(o, other) <= 1;
      match id {
      case Auto(b) =>
        ShedAllLists(o.manual, None, path, other);
        NonEmptyLists(ShedAll(o.manual, None, path), other);
        AddedPlaces(o, p, path, b, other);
      case Custom(n) =>
        PulledPlaces(o, n, path, other);
        NonEmptyLists(Pulled(o.manual, n, path, |o.manual|).manual, other);
        UntouchedBuckets(o, p, other);
        SameAdditions(o, p, other, OTHER);
      }
    }
  }

  lemma AddedPlaces(o: Overrides, p: Overrides, path: string, b: nat, other: string)
    requires p.added == WithAdded(o, b, path) && Places(o, path) == 0
    ensures Additions(p, other, OTHER) <= if other == path then 1 else Additions(o, other, OTHER)
  {
    hide Listings, Additions, WithAdded;
    if other == path {
      AddedNowhere(o, path, OTHER);
      OneAddition(o, p, path, b, OTHER);
    } else {
      WithAddedIs(o, b, path, p);
      SameAdditions(o, p, other, OTHER);
    }
  }

  lemma {:induction false} AddedNowhere(o: Overrides, path: string, n: nat)
    requires Additions(o, path, n) == 0
    ensures forall b :: 0 <= b < n ==> path !in AddedTo(o, b)
  {
    if n > 0 {
      AddedNowhere(o, path, n - 1);
    }
  }

  lemma PulledPlaces(o: Overrides, n: nat, path: string, other: string)
    requires Kept(o) && Places(o, path) == 0
    ensures Listings(Pulled(o.manual, n, path, |o.manual|).manual, other)
            <= if other == path then 1 else Listings(o.manual, other)
  {
    hide Listings, Additions, Unlisted, Pulled;
    var k := |o.manual|;
    var pulled := Pulled(o.manual, n, path, k).manual;
    assert pulled[..k] == pulled && o.manual[..k] == o.manual;
    if other == path {
      UnlistedCount(o.manual, path);
      PulledListsPath(o.manual, n, path, k);
    } else {
      PulledListsOthers(o.manual, n, path, k, other);
    }
  }

  lemma TakenOutListsOnce(o: Overrides, path: string, id: FolderId)
    requires ListsOnce(o)
    ensures ListsOnce(TakenOut(o, path, id))
  {
    hide Listings, Additions, ShedAll, NonEmpty, SameBuckets;
    var p := TakenOut(o, path, id);
    forall other
      ensures Places(p, other) <= 1
    {
      assert Places(o, other) <= 1;
      UntouchedBuckets(o, p, other);
      SameAdditions(o, p, other, OTHER);
      if id.Custom? {
        ShedAllLists(o.manual, Some(id.number), path, other);
        NonEmptyLists(ShedAll(o.manual, Some(id.number), path), other);
      }
    }
  }

  lemma OrderListsOnce(o: Overrides, order: seq<GridId>)
    requires ListsOnce(o)
    ensures ListsOnce(o.(order := order))
  {
    hide Listings, Additions, SameBuckets;
    var p := o.(order := order);
    forall path
      ensures Places(p, path) <= 1
    {
      assert Places(o, path) <= 1;
      UntouchedBuckets(o, p, path);
      SameAdditions(o, p, path, OTHER);
    }
  }

  // ---------------------------------------------------------------------------------------------
  // Every run
  // ---------------------------------------------------------------------------------------------

  lemma DropListsOnce(v: View, src: nat, dst: nat)
    requires Inv(v) && ListsOnce(v.o)
    ensures ListsOnce(AfterDrop(v, src, dst).o)
  {
    hide Rebuilt, Kept, DistinctPaths, Moved, Created, ListsOnce, Places, Home;
    if CanArrange(v, src, dst) && v.grid.items[src].Cell? {
      var i := v.grid.items[src].app;
      LooseCell(v, src);
      LooseHasNoPlace(v.apps, v.o, i);
      if v.grid.items[dst].Tile? {
        ShownTile(v, dst);
        MovedListsOnce(v.o, v.apps[i].path, v.grid.folders[v.grid.items[dst].folder].id);
      } else {
        var j := v.grid.items[dst].app;
        LooseCell(v, dst);
        LooseHasNoPlace(v.apps, v.o, j);
        CreatedListsOnce(v.o, v.apps[i].path, v.apps[j].path);
      }
    }
  }

  lemma StepListsOnce(v: View, a: Action)
    requires Inv(v) && ListsOnce(v.o)
    ensures ListsOnce(Step(v, a).o)
  {
    hide Rebuilt, ListsOnce, AfterDrop, TakenOut;
    match a
    case Drop(src, dst) => DropListsOnce(v, src, dst);
    case Reorder(src, dst, after) =>
      if CanArrange(v, src, dst) {
        OrderListsOnce(v.o, Values(MovedNextTo(Ids(v.apps, v.grid.folders, v.grid.items), src, dst, after)));
      }
    case DragOut(path) =>
      if v.open.Some? {
        TakenOutListsOnce(v.o, path, v.grid.folders[v.open.value].id);
      }
    case _ =>
  }

  /** No run ever lists an app in two folders. */
  lemma {:induction false} EveryRunListsOnce(v: View, run: seq<Action>)
    requires Inv(v) && Catalogs(run) && ListsOnce(v.o)
    ensures ListsOnce(After(v, run).o)
    decreases |run|
  {
    if run != [] {
      hide Inv, Step, DistinctPaths, ListsOnce;
      var front := run[..|run| - 1];
      EveryRunKeepsInv(v, front);
      EveryRunListsOnce(v, front);
      StepListsOnce(After(v, front), run[|run| - 1]);
    }
  }

  lemma {:induction false} NoSecondFolder(manual: seq<Manual>, path: string, n: nat)
    requires Listings(manual, path) <= 1 && FirstIn(manual, path) == Some(n)
    ensures forall m :: 0 <= m < |manual| && manual[m].number != n ==> path !in manual[m].members
    decreases |manual|
  {
    var front, last := manual[..|manual| - 1], manual[|manual| - 1];
    FirstInNone(front, path);
    UnlistedCount(front, path);
    if FirstIn(front, path).Some? {
      NoSecondFolder(front, path, n);
    }
    assert forall m :: 0 <= m < |front| ==> manual[m] == front[m];
  }

  lemma ClaimedByOne(apps: seq<App>, o: Overrides, i: nat, n: nat)
    requires i < |apps| && Home(apps, o, i) == Some(Custom(n)) && Places(o, apps[i].path) <= 1
    ensures Frees(o, apps[i].path, Custom(n))
  {
    hide Home, Listings, Additions, FirstIn;
    if apps[i].path in o.removed {
      RemovedHome(apps, o, i);
      NoSecondFolder(o.manual, apps[i].path, n);
    } else {
      NaturalHome(apps, o, i);
    }
  }

  /** After any run, dragging a member out of a folder of the user's own frees it, and out of a bucket's
      folder exactly when the app was not dropped there. */
  lemma EveryRunDragsOut(v: View, run: seq<Action>, w: View, member: nat)
    requires Inv(v) && Catalogs(run) && ListsOnce(v.o) && w == After(v, run)
    requires !w.searching && w.open.Some? && w.open.value < |w.grid.folders|
    requires member < |w.grid.folders[w.open.value].members|
    requires var i := w.grid.folders[w.open.value].members[member]; i < |w.apps| ==> w.apps[i].path != ""
    ensures var folder := w.grid.folders[w.open.value];
            var i := folder.members[member];
            && i < |w.apps|
            && (Home(w.apps, AfterTakeOut(w, w.apps[i].path).o, i) == None
                <==> (folder.id.Auto? ==> w.apps[i].path !in AddedTo(w.o, folder.id.bucket)))
  {
    hide Rebuilt, Home, Kept, DistinctPaths, TakenOut, Places, After, AfterTakeOut;
    EveryRunKeepsInv(v, run);
    EveryRunListsOnce(v, run);
    DragOutMovesOut(w, member);
    var folder := w.grid.folders[w.open.value];
    EveryAppIsPlacedOnce(w.apps, w.o);
    MemberLivesThere(w.apps, w.o, folder, member);
    if folder.id.Custom? {
      assert Places(w.o, w.apps[folder.members[member]].path) <= 1;
      ClaimedByOne(w.apps, w.o, folder.members[member], folder.id.number);
    }
  }

  lemma NothingIsListed()
    ensures ListsOnce(NOTHING)
  {
    forall path
      ensures Places(NOTHING, path) <= 1
    {
      NoAdditions(NOTHING, path, OTHER);
    }
  }

  /** In particular no run from the empty launchpad does. */
  lemma EveryFirstRunListsOnce(run: seq<Action>)
    requires Catalogs(run)
    ensures Inv(After(START, run)) && ListsOnce(After(START, run).o)
  {
    hide Inv, ListsOnce, After, Catalogs;
    StartInv();
    NothingIsListed();
    EveryRunKeepsInv(START, run);
    EveryRunListsOnce(START, run);
  }
}
