/** What an edit of the launchpad's folders does to where each app belongs. */
module LaunchpadHomes {
  import opened Wrappers
  import opened LaunchpadFolders
  import opened LaunchpadEdits

  // ---------------------------------------------------------------------------------------------
  // Homes by folder id instead of by slot: emptied folders may leave without moving anyone
  // ---------------------------------------------------------------------------------------------

  /** The first manual folder that lists the path. */
  function FirstIn(manual: seq<Manual>, path: string): Option<nat> {
    if manual == [] then None
    else
      var front, last := FirstIn(manual[..|manual| - 1], path), manual[|manual| - 1];
      if front.Some? then front else if path in last.members then Some(last.number) else None
  }

  /** The folder that claims a removed path. */
  function Claimer(o: Overrides, path: string): Option<FolderId> {
    var b := FirstSlot(o, path, OTHER);
    if b < OTHER then Some(Auto(b))
    else
      var n := FirstIn(o.manual, path);
      if n.Some? then Some(Custom(n.value)) else None
  }

  lemma {:induction false} FirstSlotIs(o: Overrides, path: string, k: nat)
    requires k <= |o.manual|
    ensures var slot, b := FirstSlot(o, path, OTHER + k), FirstSlot(o, path, OTHER);
            if b < OTHER then slot == b
            else
              && slot >= OTHER
              && FirstIn(o.manual[..k], path)
                 == if slot < OTHER + k then Some(o.manual[slot - OTHER].number) else None
  {
    if k > 0 {
      FirstSlotIs(o, path, k - 1);
      assert o.manual[..k][..k - 1] == o.manual[..k - 1];
    }
  }

  lemma RemovedHome(apps: seq<App>, o: Overrides, i: nat)
    requires i < |apps| && apps[i].path in o.removed
    ensures Home(apps, o, i) == Claimer(o, apps[i].path)
  {
    FirstSlotIs(o, apps[i].path, |o.manual|);
    assert o.manual[..|o.manual|] == o.manual;
  }

  lemma NaturalHome(apps: seq<App>, o: Overrides, i: nat)
    requires i < |apps| && apps[i].path !in o.removed
    ensures Home(apps, o, i)
            == if apps[i].bucket < OTHER && (Touched(apps, o, apps[i].bucket) || Companion(apps, o.removed, i))
               then Some(Auto(apps[i].bucket)) else None
  {
  }

  /** The same buckets list the path. */
  ghost predicate SameBuckets(o: Overrides, p: Overrides, path: string) {
    forall b :: 0 <= b < OTHER ==> (path in AddedTo(o, b) <==> path in AddedTo(p, b))
  }

  lemma {:induction false} SameFirstBucket(o: Overrides, p: Overrides, path: string, n: nat)
    requires n <= OTHER && SameBuckets(o, p, path)
    ensures FirstSlot(o, path, n) == FirstSlot(p, path, n)
  {
    if n > 0 {
      SameFirstBucket(o, p, path, n - 1);
      assert path in AddedTo(o, n - 1) <==> path in AddedTo(p, n - 1);
    }
  }

  lemma SameClaimer(o: Overrides, p: Overrides, path: string)
    requires SameBuckets(o, p, path) && FirstIn(o.manual, path) == FirstIn(p.manual, path)
    ensures Claimer(o, path) == Claimer(p, path)
  {
    SameFirstBucket(o, p, path, OTHER);
  }

  // ---------------------------------------------------------------------------------------------
  // What the loops over the manual folders do to one path
  // ---------------------------------------------------------------------------------------------

  lemma FirstInSnoc(manual: seq<Manual>, last: Manual, path: string)
    ensures FirstIn(manual + [last], path)
            == if FirstIn(manual, path).Some? then FirstIn(manual, path)
               else if path in last.members then Some(last.number) else None
  {
    assert (manual + [last])[..|manual|] == manual;
  }

  /** Nothing but `path` is touched. */
  lemma {:induction false} ShedAllSpares(manual: seq<Manual>, only: Option<nat>, path: string, other: string)
    requires other != path
    ensures FirstIn(ShedAll(manual, only, path), other) == FirstIn(manual, other)
    decreases |manual|
  {
    if manual != [] {
      var front, last := manual[..|manual| - 1], manual[|manual| - 1];
      ShedAllSpares(front, only, path, other);
      DropPathKeeps(last.members, path);
      FirstInSnoc(ShedAll(front, only, path), if only == None || only == Some(last.number) then Shed(last, path) else last, other);
    }
  }

  lemma {:induction false} NonEmptySpares(manual: seq<Manual>, path: string)
    ensures FirstIn(NonEmpty(manual), path) == FirstIn(manual, path)
    decreases |manual|
  {
    if manual != [] {
      var front, last := manual[..|manual| - 1], manual[|manual| - 1];
      NonEmptySpares(front, path);
      FirstInSnoc(NonEmpty(front), last, path);
      assert NonEmpty(front) + [] == NonEmpty(front);
    }
  }

  /** No folder below `k` lists the path. */
  ghost predicate Unlisted(manual: seq<Manual>, path: string) {
    forall m :: 0 <= m < |manual| ==> path !in manual[m].members
  }

  lemma {:induction false} FirstInNone(manual: seq<Manual>, path: string)
    ensures FirstIn(manual, path) == None <==> Unlisted(manual, path)
    decreases |manual|
  {
    if manual != [] {
      var front, last := manual[..|manual| - 1], manual[|manual| - 1];
      FirstInNone(front, path);
      assert forall m :: 0 <= m < |front| ==> manual[m] == front[m];
      assert Unlisted(manual, path) ==> path !in manual[|manual| - 1].members;
    }
  }

  /** The folder the path stays in, once those of number `n` gave it up. */
  lemma {:induction false} ShedAllFrees(manual: seq<Manual>, n: nat, path: string)
    ensures FirstIn(ShedAll(manual, Some(n), path), path) == None
            <==> forall m :: 0 <= m < |manual| && manual[m].number != n ==> path !in manual[m].members
    decreases |manual|
  {
    if manual != [] {
      var front, last := manual[..|manual| - 1], manual[|manual| - 1];
      ShedAllFrees(front, n, path);
      DropPathKeeps(last.members, path);
      FirstInSnoc(ShedAll(front, Some(n), path), if last.number == n then Shed(last, path) else last, path);
      assert forall m :: 0 <= m < |front| ==> manual[m] == front[m];
    }
  }

  /** For a path no folder lists: the rounds only append it to the target. */
  lemma {:induction false} PulledUnlisted(manual: seq<Manual>, n: nat, path: string, k: nat)
    requires k <= |manual| && DistinctNumbers(manual) && Unlisted(manual, path)
    ensures var r := Pulled(manual, n, path, k);
            !r.already && FirstIn(r.manual[..k], path) == if r.found then Some(n) else None
  {
    if k > 0 {
      PulledUnlisted(manual, n, path, k - 1);
      PulledShape(manual, n, path, k - 1);
      var r, next := Pulled(manual, n, path, k - 1), Pulled(manual, n, path, k);
      DropPathKeeps(manual[k - 1].members, path);
      assert next.manual[..k] == r.manual[..k - 1] + [next.manual[k - 1]];
      FirstInSnoc(r.manual[..k - 1], next.manual[k - 1], path);
    }
  }

  /** A round changes one folder, and there only whether it lists the path. */
  lemma PullEntry(manual: seq<Manual>, n: nat, path: string, k: nat, other: string)
    requires 0 < k <= |manual| && DistinctNumbers(manual) && other != path
    ensures var r, next := Pulled(manual, n, path, k - 1).manual, Pulled(manual, n, path, k).manual;
            && next[..k] == r[..k - 1] + [next[k - 1]]
            && next[k - 1].number == manual[k - 1].number
            && (other in next[k - 1].members <==> other in manual[k - 1].members)
  {
    PulledShape(manual, n, path, k - 1);
    DropPathKeeps(manual[k - 1].members, path);
    assert Pulled(manual, n, path, k - 1).manual[k - 1] == manual[k - 1];
  }

  lemma {:induction false} PulledSpares(manual: seq<Manual>, n: nat, path: string, k: nat, other: string)
    requires k <= |manual| && DistinctNumbers(manual) && other != path
    ensures FirstIn(Pulled(manual, n, path, k).manual[..k], other) == FirstIn(manual[..k], other)
  {
    if k > 0 {
      hide FirstIn, DistinctNumbers, Pulled;
      PulledSpares(manual, n, path, k - 1, other);
      PullEntry(manual, n, path, k, other);
      var r, next := Pulled(manual, n, path, k - 1).manual, Pulled(manual, n, path, k).manual;
      assert manual[..k] == manual[..k - 1] + [manual[k - 1]];
      FirstInSnoc(r[..k - 1], next[k - 1], other);
      FirstInSnoc(manual[..k - 1], manual[k - 1], other);
    }
  }

  // ---------------------------------------------------------------------------------------------
  // One app is removed from its natural bucket: every other app keeps its home
  // ---------------------------------------------------------------------------------------------

  /** Some app is shown in the folder of bucket `b`. */
  ghost predicate Shown(apps: seq<App>, o: Overrides, b: nat) {
    exists k :: 0 <= k < |apps| && Home(apps, o, k) == Some(Auto(b))
  }

  /** `p` differs from `o` by what an edit about app `i` may change, as far as app `j` can tell. */
  ghost predicate EditFor(apps: seq<App>, o: Overrides, p: Overrides, i: nat, j: nat)
    requires i < |apps| && j < |apps|
  {
    && p.removed == o.removed + {apps[i].path}
    && Claimer(p, apps[j].path) == Claimer(o, apps[j].path)
    && (forall b :: 0 <= b < OTHER && AddedTo(o, b) != [] ==> AddedTo(p, b) != [])
    && (forall b :: 0 <= b < OTHER && AddedTo(p, b) != [] ==> AddedTo(o, b) != [] || Shown(apps, o, b))
  }

  /** A bucket whose folder is shown groups each of its natural members. */
  lemma ShownGroups(apps: seq<App>, o: Overrides, b: nat, j: nat)
    requires Shown(apps, o, b) && b < OTHER
    requires j < |apps| && apps[j].bucket == b && apps[j].path !in o.removed
    ensures Touched(apps, o, b) || Companion(apps, o.removed, j)
  {
    var k :| 0 <= k < |apps| && Home(apps, o, k) == Some(Auto(b));
    if apps[k].path in o.removed {
      RemovedHome(apps, o, k);
    } else {
      NaturalHome(apps, o, k);
      if !Touched(apps, o, b) && j == k {
        assert Companion(apps, o.removed, k);
      }
    }
  }

  lemma OthersStay(apps: seq<App>, o: Overrides, p: Overrides, i: nat, j: nat)
    requires DistinctPaths(apps) && i < |apps| && j < |apps| && i != j
    requires EditFor(apps, o, p, i, j)
    ensures Home(apps, p, j) == Home(apps, o, j)
  {
    hide Home, Claimer;
    assert apps[i].path != apps[j].path by {
      assert if i < j then apps[i].path != apps[j].path else apps[j].path != apps[i].path;
    }
    if apps[j].path in o.removed {
      RemovedHome(apps, o, j);
      RemovedHome(apps, p, j);
    } else {
      NaturalHome(apps, o, j);
      NaturalHome(apps, p, j);
      if apps[j].bucket < OTHER {
        StillGrouped(apps, o, p, i, j);
      }
    }
  }

  lemma StillGrouped(apps: seq<App>, o: Overrides, p: Overrides, i: nat, j: nat)
    requires i < |apps| && j < |apps| && i != j && apps[i].path != apps[j].path && DistinctPaths(apps)
    requires EditFor(apps, o, p, i, j) && apps[j].path !in o.removed && apps[j].bucket < OTHER
    ensures Touched(apps, p, apps[j].bucket) || Companion(apps, p.removed, j)
            <==> Touched(apps, o, apps[j].bucket) || Companion(apps, o.removed, j)
  {
    hide Home, Claimer, Shown;
    var b := apps[j].bucket;
    if Companion(apps, o.removed, j) {
      var k :| 0 <= k < |apps| && k != j && apps[k].bucket == b && apps[k].path !in o.removed;
      assert apps[k].path !in p.removed || apps[k].path in p.removed;
    }
    if AddedTo(p, b) != [] && AddedTo(o, b) == [] {
      ShownGroups(apps, o, b, j);
    }
    if k :| 0 <= k < |apps| && apps[k].bucket == b && apps[k].path in p.removed && apps[k].path !in o.removed {
      assert k != j && Companion(apps, o.removed, j);
    }
    if Companion(apps, p.removed, j) {
      var k :| 0 <= k < |apps| && k != j && apps[k].bucket == b && apps[k].path !in p.removed;
      assert apps[k].path !in o.removed;
    }
  }

  // ---------------------------------------------------------------------------------------------
  // Dropping an app on a folder
  // ---------------------------------------------------------------------------------------------

  lemma PathsDiffer(apps: seq<App>, i: nat, j: nat)
    requires DistinctPaths(apps) && i < |apps| && j < |apps| && i != j
    ensures apps[i].path != apps[j].path
  {
    assert if i < j then apps[i].path != apps[j].path else apps[j].path != apps[i].path;
  }

  /** Only removed paths are listed. */
  lemma ListedAreRemoved(o: Overrides, path: string)
    requires Kept(o) && path !in o.removed
    ensures Unlisted(o.manual, path) && forall b :: path !in AddedTo(o, b)
  {
    forall b
      ensures path !in AddedTo(o, b)
    {
      if k :| 0 <= k < |AddedTo(o, b)| && AddedTo(o, b)[k] == path {
        assert AddedTo(o, b)[k] in o.removed;
      }
    }
  }

  /** A loose app is listed nowhere. */
  lemma LooseIsUnlisted(apps: seq<App>, o: Overrides, i: nat)
    requires Kept(o) && i < |apps| && Home(apps, o, i) == None
    ensures Unlisted(o.manual, apps[i].path) && forall b :: 0 <= b < OTHER ==> apps[i].path !in AddedTo(o, b)
  {
    hide Home, Kept;
    var path := apps[i].path;
    if path in o.removed {
      RemovedHome(apps, o, i);
      FirstInNone(o.manual, path);
      forall b: nat | b < OTHER
        ensures path !in AddedTo(o, b)
      {
        assert path !in SlotList(o, b);
      }
    } else {
      ListedAreRemoved(o, path);
    }
  }

  lemma WithAddedIs(o: Overrides, b: nat, path: string, p: Overrides)
    requires p.added == WithAdded(o, b, path)
    ensures forall c :: AddedTo(p, c)
              == if c == b && path !in AddedTo(o, b) then AddedTo(o, b) + [path] else AddedTo(o, c)
    ensures forall other, c :: other != path ==> (other in AddedTo(p, c) <==> other in AddedTo(o, c))
  {
  }

  lemma ClaimedByBucket(o: Overrides, path: string, b: nat)
    requires b < OTHER && path in AddedTo(o, b)
    requires forall c :: 0 <= c < OTHER && c != b ==> path !in AddedTo(o, c)
    ensures Claimer(o, path) == Some(Auto(b))
  {
    assert SlotList(o, b) == AddedTo(o, b);
  }

  lemma NoBucketClaims(o: Overrides, path: string)
    requires forall c :: 0 <= c < OTHER ==> path !in AddedTo(o, c)
    ensures FirstSlot(o, path, OTHER) == OTHER
  {
  }

  /** The folder the app is dropped on is one the grid shows. */
  ghost predicate HasMember(apps: seq<App>, o: Overrides, id: FolderId) {
    exists k :: 0 <= k < |apps| && Home(apps, o, k) == Some(id)
  }

  lemma MembersFolderExists(apps: seq<App>, o: Overrides, id: FolderId)
    requires HasMember(apps, o, id)
    ensures match id case Auto(b) => b < OTHER
            case Custom(n) => exists m :: 0 <= m < |o.manual| && o.manual[m].number == n
  {
    var k :| 0 <= k < |apps| && Home(apps, o, k) == Some(id);
    var slot := HomeSlot(apps, o, k);
    if slot >= OTHER {
      assert o.manual[slot - OTHER].number == id.number;
    }
  }

  lemma DropOnBucket(apps: seq<App>, o: Overrides, i: nat, b: nat)
    requires DistinctPaths(apps) && Kept(o) && i < |apps| && Home(apps, o, i) == None && HasMember(apps, o, Auto(b))
    ensures var p := Moved(o, apps[i].path, Auto(b)).0;
            && Home(apps, p, i) == Some(Auto(b))
            && forall j :: 0 <= j < |apps| && j != i ==> Home(apps, p, j) == Home(apps, o, j)
  {
    hide Home, Claimer, Kept, DistinctPaths, ShedAll, NonEmpty, WithAdded, AddedTo, Unlisted;
    var path, p := apps[i].path, Moved(o, apps[i].path, Auto(b)).0;
    MembersFolderExists(apps, o, Auto(b));
    LooseIsUnlisted(apps, o, i);
    WithAddedIs(o, b, path, p);
    ClaimedByBucket(p, path, b);
    RemovedHome(apps, p, i);
    forall j | 0 <= j < |apps| && j != i
      ensures Home(apps, p, j) == Home(apps, o, j)
    {
      PathsDiffer(apps, i, j);
      ShedAllSpares(o.manual, None, path, apps[j].path);
      NonEmptySpares(ShedAll(o.manual, None, path), apps[j].path);
      SameClaimer(o, p, apps[j].path);
      OthersStay(apps, o, p, i, j);
    }
  }

  lemma DropOnManual(apps: seq<App>, o: Overrides, i: nat, n: nat)
    requires DistinctPaths(apps) && Kept(o) && i < |apps| && Home(apps, o, i) == None && HasMember(apps, o, Custom(n))
    ensures var r := Moved(o, apps[i].path, Custom(n));
            && r.1
            && Home(apps, r.0, i) == Some(Custom(n))
            && forall j :: 0 <= j < |apps| && j != i ==> Home(apps, r.0, j) == Home(apps, o, j)
  {
    hide Home, DistinctPaths, Pulled, NonEmpty, FirstIn, FirstSlot, Unlisted, SameBuckets;
    var path, k := apps[i].path, |o.manual|;
    MembersFolderExists(apps, o, Custom(n));
    LooseIsUnlisted(apps, o, i);
    PulledShape(o.manual, n, path, k);
    PulledUnlisted(o.manual, n, path, k);
    var pulled, p := Pulled(o.manual, n, path, k).manual, Moved(o, path, Custom(n)).0;
    assert pulled[..k] == pulled && o.manual[..k] == o.manual;
    NonEmptySpares(pulled, path);
    NoBucketClaims(o, path);
    UntouchedBuckets(o, p, path);
    SameFirstBucket(o, p, path, OTHER);
    RemovedHome(apps, p, i);
    forall j | 0 <= j < |apps| && j != i
      ensures Home(apps, p, j) == Home(apps, o, j)
    {
      PathsDiffer(apps, i, j);
      PulledSpares(o.manual, n, path, k, apps[j].path);
      NonEmptySpares(pulled, apps[j].path);
      UntouchedBuckets(o, p, apps[j].path);
      SameClaimer(o, p, apps[j].path);
      OthersStay(apps, o, p, i, j);
    }
  }

  lemma UntouchedBuckets(o: Overrides, p: Overrides, path: string)
    requires p.added == o.added
    ensures SameBuckets(o, p, path)
  {
  }

  // ---------------------------------------------------------------------------------------------
  // Making a folder of two loose apps
  // ---------------------------------------------------------------------------------------------

  lemma CreateFromLoose(apps: seq<App>, o: Overrides, i: nat, j: nat)
    requires DistinctPaths(apps) && Kept(o) && i < |apps| && j < |apps| && i != j
    requires Home(apps, o, i) == None && Home(apps, o, j) == None
    ensures var p, id := Created(o, apps[i].path, apps[j].path), Some(Custom(NextNumber(o.manual)));
            && Home(apps, p, i) == id && Home(apps, p, j) == id
            && forall k :: 0 <= k < |apps| && k != i && k != j ==> Home(apps, p, k) == Home(apps, o, k)
  {
    hide Home, DistinctPaths, FirstIn, FirstSlot, Unlisted, SameBuckets, Kept;
    var a, b := apps[i].path, apps[j].path;
    var p, mid := Created(o, a, b), o.(removed := o.removed + {a});
    PathsDiffer(apps, i, j);
    ClaimedByNew(apps, o, p, i);
    ClaimedByNew(apps, o, p, j);
    forall k | 0 <= k < |apps| && k != i && k != j
      ensures Home(apps, p, k) == Home(apps, o, k)
    {
      var path := apps[k].path;
      PathsDiffer(apps, i, k);
      PathsDiffer(apps, j, k);
      UntouchedBuckets(o, mid, path);
      SameClaimer(o, mid, path);
      OthersStay(apps, o, mid, i, k);
      FirstInSnoc(o.manual, Manual(NextNumber(o.manual), [a, b]), path);
      FirstInOption(o.manual, path);
      UntouchedBuckets(mid, p, path);
      SameClaimer(mid, p, path);
      OthersStay(apps, mid, p, j, k);
    }
  }

  lemma FirstInOption(manual: seq<Manual>, path: string)
    ensures FirstIn(manual, path).None? ==> FirstIn(manual, path) == None
  {
  }

  lemma ClaimedByNew(apps: seq<App>, o: Overrides, p: Overrides, i: nat)
    requires Kept(o) && i < |apps| && Home(apps, o, i) == None && apps[i].path in p.removed && p.added == o.added
    requires exists members :: p.manual == o.manual + [Manual(NextNumber(o.manual), members)] && apps[i].path in members
    ensures Home(apps, p, i) == Some(Custom(NextNumber(o.manual)))
  {
    hide Home, FirstIn, FirstSlot, Unlisted, Kept;
    var path := apps[i].path;
    var members :| p.manual == o.manual + [Manual(NextNumber(o.manual), members)] && path in members;
    LooseIsUnlisted(apps, o, i);
    FirstInNone(o.manual, path);
    FirstInSnoc(o.manual, Manual(NextNumber(o.manual), members), path);
    NoBucketClaims(o, path);
    UntouchedBuckets(o, p, path);
    SameFirstBucket(o, p, path, OTHER);
    RemovedHome(apps, p, i);
  }

  // ---------------------------------------------------------------------------------------------
  // Dragging an app out of its folder
  // ---------------------------------------------------------------------------------------------

  /** Whether dragging out frees the app: no addition pins it to the bucket, and no second manual
      folder lists it. */
  predicate Frees(o: Overrides, path: string, id: FolderId) {
    match id
    case Auto(b) => path !in AddedTo(o, b)
    case Custom(n) => forall m :: 0 <= m < |o.manual| && o.manual[m].number != n ==> path !in o.manual[m].members
  }

  /** An added app cannot be dragged out of its bucket, nor a twice listed one out to the grid. Whoever
      else shows in the launchpad keeps its place. */
  lemma DragOutFreesExactlyWhen(apps: seq<App>, o: Overrides, i: nat, id: FolderId)
    requires DistinctPaths(apps) && Kept(o) && i < |apps| && Home(apps, o, i) == Some(id)
    ensures var p := TakenOut(o, apps[i].path, id);
            && (Home(apps, p, i) == None <==> Frees(o, apps[i].path, id))
            && (id.Auto? && !Frees(o, apps[i].path, id) ==> Home(apps, p, i) == Some(id))
            && forall j :: 0 <= j < |apps| && j != i ==> Home(apps, p, j) == Home(apps, o, j)
  {
    match id {
      case Auto(b) => DragOutOfBucket(apps, o, i, b);
      case Custom(n) => DragOutOfManual(apps, o, i, n);
    }
  }

  lemma DragOutOfBucket(apps: seq<App>, o: Overrides, i: nat, b: nat)
    requires DistinctPaths(apps) && Kept(o) && i < |apps| && Home(apps, o, i) == Some(Auto(b))
    ensures var p := TakenOut(o, apps[i].path, Auto(b));
            && Home(apps, p, i) == (if apps[i].path in AddedTo(o, b) then Some(Auto(b)) else None)
            && forall j :: 0 <= j < |apps| && j != i ==> Home(apps, p, j) == Home(apps, o, j)
  {
    hide Home, DistinctPaths, FirstIn, Unlisted, SameBuckets, Kept;
    var path, p := apps[i].path, TakenOut(o, apps[i].path, Auto(b));
    RemovedHome(apps, p, i);
    UntouchedBuckets(o, p, path);
    SameClaimer(o, p, path);
    if path in o.removed {
      RemovedHome(apps, o, i);
      assert path in SlotList(o, b);
    } else {
      ListedAreRemoved(o, path);
      NoBucketClaims(o, path);
      FirstInNone(o.manual, path);
    }
    forall j | 0 <= j < |apps| && j != i
      ensures Home(apps, p, j) == Home(apps, o, j)
    {
      UntouchedBuckets(o, p, apps[j].path);
      SameClaimer(o, p, apps[j].path);
      OthersStay(apps, o, p, i, j);
    }
  }

  lemma DragOutOfManual(apps: seq<App>, o: Overrides, i: nat, n: nat)
    requires DistinctPaths(apps) && Kept(o) && i < |apps| && Home(apps, o, i) == Some(Custom(n))
    ensures var p := TakenOut(o, apps[i].path, Custom(n));
            && (Home(apps, p, i) == None <==> Frees(o, apps[i].path, Custom(n)))
            && forall j :: 0 <= j < |apps| && j != i ==> Home(apps, p, j) == Home(apps, o, j)
  {
    hide Home, DistinctPaths, FirstIn, FirstSlot, Unlisted, SameBuckets, Kept, ShedAll, NonEmpty;
    var path, p := apps[i].path, TakenOut(o, apps[i].path, Custom(n));
    if path !in o.removed {
      NaturalHome(apps, o, i);
    }
    RemovedHome(apps, o, i);
    RemovedHome(apps, p, i);
    UntouchedBuckets(o, p, path);
    SameFirstBucket(o, p, path, OTHER);
    ShedAllFrees(o.manual, n, path);
    NonEmptySpares(ShedAll(o.manual, Some(n), path), path);
    forall j | 0 <= j < |apps| && j != i
      ensures Home(apps, p, j) == Home(apps, o, j)
    {
      PathsDiffer(apps, i, j);
      ShedAllSpares(o.manual, Some(n), path, apps[j].path);
      NonEmptySpares(ShedAll(o.manual, Some(n), path), apps[j].path);
      UntouchedBuckets(o, p, apps[j].path);
      SameClaimer(o, p, apps[j].path);
      OthersStay(apps, o, p, i, j);
    }
  }
}
