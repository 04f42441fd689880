/**
 The edits a user makes to the launchpad's folders, as changes of the overrides, and what each does
 to where every app belongs.
 */
module LaunchpadEdits {
  import opened Wrappers
  import opened Sorting
  import opened LaunchpadFolders

  // ---------------------------------------------------------------------------------------------
  // The edits
  // ---------------------------------------------------------------------------------------------

  function DropPath(paths: seq<string>, path: string): seq<string> {
    if paths == [] then []
    else DropPath(paths[..|paths| - 1], path)
         + (if paths[|paths| - 1] == path then [] else [paths[|paths| - 1]])
  }

  function Shed(folder: Manual, path: string): Manual {
    folder.(members := DropPath(folder.members, path))
  }

  /** Every folder, or only those of one number, without the path. */
  function ShedAll(manual: seq<Manual>, only: Option<nat>, path: string): seq<Manual> {
    if manual == [] then []
    else
      var last := manual[|manual| - 1];
      ShedAll(manual[..|manual| - 1], only, path)
      + [if only == None || only == Some(last.number) then Shed(last, path) else last]
  }

  function NonEmpty(manual: seq<Manual>): seq<Manual> {
    if manual == [] then []
    else NonEmpty(manual[..|manual| - 1])
         + (if manual[|manual| - 1].members == [] then [] else [manual[|manual| - 1]])
  }

  /** The first number no manual folder has reached. */
  function NextNumber(manual: seq<Manual>): (n: nat)
    ensures forall m :: 0 <= m < |manual| ==> manual[m].number < n
  {
    if manual == [] then 0
    else
      var front, last := NextNumber(manual[..|manual| - 1]), manual[|manual| - 1].number;
      if front < last + 1 then last + 1 else front
  }

  predicate Known(apps: seq<App>, path: string) {
    exists i :: 0 <= i < |apps| && apps[i].path == path
  }

  predicate CanCreate(apps: seq<App>, a: string, b: string) {
    a != "" && b != "" && a != b && Known(apps, a) && Known(apps, b)
  }

  function Created(o: Overrides, a: string, b: string): Overrides {
    o.(removed := o.removed + {a, b}, manual := o.manual + [Manual(NextNumber(o.manual), [a, b])])
  }

  /** `found` and `already` say whether the loop met the target and stopped there. */
  datatype Pull = Pull(manual: seq<Manual>, found: bool, already: bool)

  /** The first `k` rounds of the loop that takes the path out of every other folder and puts it in the
      one numbered `n`. It stops at a target that has the path, with the folders after it untouched. */
  function Pulled(manual: seq<Manual>, n: nat, path: string, k: nat): (r: Pull)
    requires k <= |manual|
    ensures |r.manual| == |manual|
  {
    if k == 0 then Pull(manual, false, false)
    else
      var r, folder := Pulled(manual, n, path, k - 1), manual[k - 1];
      if r.already then r
      else if folder.number != n then r.(manual := r.manual[k - 1 := Shed(folder, path)])
      else if path in folder.members then r.(found := true, already := true)
      else Pull(r.manual[k - 1 := folder.(members := folder.members + [path])], true, false)
  }

  function WithAdded(o: Overrides, b: nat, path: string): map<nat, seq<string>> {
    var list := AddedTo(o, b);
    o.added[b := if path in list then list else list + [path]]
  }

  /** `move_app_into_folder` for a known app; `done` says whether the grid is rebuilt. */
  function Moved(o: Overrides, path: string, id: FolderId): (r: (Overrides, bool)) {
    match id
    case Auto(b) =>
      (o.(added := WithAdded(o, b, path), manual := NonEmpty(ShedAll(o.manual, None, path)),
          removed := o.removed + {path}), true)
    case Custom(n) =>
      var r := Pulled(o.manual, n, path, |o.manual|);
      if r.already || !r.found then (o.(manual := r.manual), false)
      else (o.(manual := NonEmpty(r.manual), removed := o.removed + {path}), true)
  }

  /** `remove_app_from_open_folder` for the folder's id. */
  function TakenOut(o: Overrides, path: string, id: FolderId): Overrides {
    match id
    case Auto(_) => o.(removed := o.removed + {path})
    case Custom(n) => o.(manual := NonEmpty(ShedAll(o.manual, Some(n), path)))
  }

  // ---------------------------------------------------------------------------------------------
  // Every edit keeps the listed apps removed from the natural grouping
  // ---------------------------------------------------------------------------------------------

  /** The part of `Kept` about the manual folders. */
  ghost predicate ManualKept(manual: seq<Manual>, removed: set<string>) {
    && (forall m, k :: 0 <= m < |manual| && 0 <= k < |manual[m].members| ==> manual[m].members[k] in removed)
    && (forall m, n :: 0 <= m < n < |manual| ==> manual[m].number != manual[n].number)
  }

  /** The part of `Kept` about the additions. */
  ghost predicate AddedKept(o: Overrides) {
    && (forall b, k :: 0 <= k < |AddedTo(o, b)| ==> AddedTo(o, b)[k] in o.removed)
    && (forall b :: NoDup(AddedTo(o, b)))
  }

  lemma KeptParts(o: Overrides)
    ensures Kept(o) <==> AddedKept(o) && ManualKept(o.manual, o.removed)
  {
  }

  ghost predicate Within(paths: seq<string>, all: seq<string>) {
    forall k :: 0 <= k < |paths| ==> paths[k] in all
  }

  lemma {:induction false} DropPathKeeps(paths: seq<string>, path: string)
    ensures forall x :: x in DropPath(paths, path) <==> x in paths && x != path
    decreases |paths|
  {
    if paths != [] {
      DropPathKeeps(paths[..|paths| - 1], path);
      assert paths == paths[..|paths| - 1] + [paths[|paths| - 1]];
    }
  }

  /** `b` has the folders of `a` in order, each with some of its members. */
  ghost predicate Thinned(a: seq<Manual>, b: seq<Manual>) {
    && |a| == |b|
    && forall m :: 0 <= m < |a| ==> a[m].number == b[m].number && Within(b[m].members, a[m].members)
  }

  lemma ThinnedKept(a: seq<Manual>, b: seq<Manual>, removed: set<string>)
    requires Thinned(a, b) && ManualKept(a, removed)
    ensures ManualKept(b, removed)
  {
    forall m, k | 0 <= m < |b| && 0 <= k < |b[m].members|
      ensures b[m].members[k] in removed
    {
      assert Within(b[m].members, a[m].members);
      assert b[m].members[k] in a[m].members;
      var l :| 0 <= l < |a[m].members| && a[m].members[l] == b[m].members[k];
    }
  }

  lemma ShedWithin(folder: Manual, path: string)
    ensures Within(Shed(folder, path).members, folder.members)
  {
    DropPathKeeps(folder.members, path);
  }

  lemma {:induction false} ShedAllThins(manual: seq<Manual>, only: Option<nat>, path: string)
    ensures Thinned(manual, ShedAll(manual, only, path))
    decreases |manual|
  {
    if manual != [] {
      hide Shed;
      var front, last := manual[..|manual| - 1], manual[|manual| - 1];
      ShedAllThins(front, only, path);
      ShedWithin(last, path);
      assert Shed(last, path).number == last.number by {
        ShedNumber(last, path);
      }
    }
  }

  lemma ShedNumber(folder: Manual, path: string)
    ensures Shed(folder, path).number == folder.number
  {
  }

  lemma {:induction false} NonEmptyKept(manual: seq<Manual>, removed: set<string>)
    requires ManualKept(manual, removed)
    ensures ManualKept(NonEmpty(manual), removed)
    ensures forall k :: 0 <= k < |NonEmpty(manual)| ==> NonEmpty(manual)[k] in manual
    decreases |manual|
  {
    if manual != [] {
      var front, last := manual[..|manual| - 1], manual[|manual| - 1];
      NonEmptyKept(front, removed);
      forall k | 0 <= k < |NonEmpty(front)|
        ensures NonEmpty(front)[k].number != last.number && NonEmpty(front)[k] in manual
      {
        var m :| 0 <= m < |front| && front[m] == NonEmpty(front)[k];
        assert manual[m] == front[m];
      }
    }
  }

  /** The rounds leave every folder its number; they take members away, and give the target the path. */
  ghost predicate PulledFrom(a: seq<Manual>, b: seq<Manual>, path: string) {
    && |a| == |b|
    && forall m :: 0 <= m < |a| ==> a[m].number == b[m].number && Within(b[m].members, a[m].members + [path])
  }

  ghost predicate DistinctNumbers(manual: seq<Manual>) {
    forall m, n :: 0 <= m < n < |manual| ==> manual[m].number != manual[n].number
  }

  lemma WithinMore(paths: seq<string>, path: string)
    ensures Within(paths, paths) && Within(paths, paths + [path]) && Within(paths + [path], paths + [path])
  {
  }

  /** Until the target is met nothing is added; from there on nothing but the path is. */
  ghost predicate PullShape(manual: seq<Manual>, n: nat, path: string, k: nat, r: Pull) {
    && k <= |manual|
    && PulledFrom(manual, r.manual, path)
    && (forall m :: k <= m < |manual| ==> r.manual[m] == manual[m])
    && (r.already || !r.found ==> Thinned(manual, r.manual))
    && (r.already ==> r.found)
    && (r.found <==> exists m :: 0 <= m < k && manual[m].number == n)
  }

  lemma {:induction false} PulledShape(manual: seq<Manual>, n: nat, path: string, k: nat)
    requires k <= |manual| && DistinctNumbers(manual)
    ensures PullShape(manual, n, path, k, Pulled(manual, n, path, k))
  {
    if k == 0 {
      forall m | 0 <= m < |manual|
        ensures Within(manual[m].members, manual[m].members) && Within(manual[m].members, manual[m].members + [path])
      {
        WithinMore(manual[m].members, path);
      }
    } else {
      PulledShape(manual, n, path, k - 1);
      PullRound(manual, n, path, k, Pulled(manual, n, path, k - 1));
    }
  }

  lemma PullRound(manual: seq<Manual>, n: nat, path: string, k: nat, r: Pull)
    requires 0 < k <= |manual| && DistinctNumbers(manual)
    requires r == Pulled(manual, n, path, k - 1) && PullShape(manual, n, path, k - 1, r)
    ensures PullShape(manual, n, path, k, Pulled(manual, n, path, k))
  {
    hide Within, Shed;
    var folder, next := manual[k - 1], Pulled(manual, n, path, k);
    ShedWithin(folder, path);
    ShedNumber(folder, path);
    WithinMore(folder.members, path);
    WithinLonger(Shed(folder, path).members, folder.members, path);
    assert r.manual[k - 1] == folder;
    if !r.already && folder.number == n {
      assert !r.found;
    }
  }

  lemma WithinLonger(paths: seq<string>, all: seq<string>, path: string)
    requires Within(paths, all)
    ensures Within(paths, all + [path])
  {
  }

  lemma PulledKept(a: seq<Manual>, b: seq<Manual>, removed: set<string>, path: string)
    requires PulledFrom(a, b, path) && ManualKept(a, removed)
    ensures ManualKept(b, removed + {path})
  {
    forall m, k | 0 <= m < |b| && 0 <= k < |b[m].members|
      ensures b[m].members[k] in removed + {path}
    {
      assert Within(b[m].members, a[m].members + [path]);
      var l :| 0 <= l < |a[m].members + [path]| && (a[m].members + [path])[l] == b[m].members[k];
    }
  }

  lemma WithAddedKept(o: Overrides, b: nat, path: string)
    requires AddedKept(o)
    ensures AddedKept(o.(added := WithAdded(o, b, path), removed := o.removed + {path}))
  {
    var next := o.(added := WithAdded(o, b, path), removed := o.removed + {path});
    forall c
      ensures AddedTo(next, c) == if c == b && path !in AddedTo(o, b) then AddedTo(o, b) + [path] else AddedTo(o, c)
    {
    }
  }

  lemma MoreRemoved(manual: seq<Manual>, removed: set<string>, more: set<string>)
    requires ManualKept(manual, removed)
    ensures ManualKept(manual, removed + more)
  {
  }

  lemma CreatedKept(o: Overrides, a: string, b: string)
    requires Kept(o)
    ensures Kept(Created(o, a, b))
  {
    hide Kept, AddedTo, NextNumber;
    KeptParts(o);
    var next, n := Created(o, a, b), NextNumber(o.manual);
    SameAdded(o, next);
    MoreRemoved(o.manual, o.removed, {a, b});
    forall m | 0 <= m < |o.manual|
      ensures next.manual[m].number != n
    {
      assert next.manual[m] == o.manual[m];
    }
    KeptParts(next);
  }

  lemma MovedKept(o: Overrides, path: string, id: FolderId)
    requires Kept(o)
    ensures Kept(Moved(o, path, id).0)
  {
    hide Kept, Thinned, PulledFrom, Pulled, ShedAll, NonEmpty, WithAdded, AddedTo;
    KeptParts(o);
    var next := Moved(o, path, id).0;
    match id {
    case Auto(b) =>
      ShedAllThins(o.manual, None, path);
      ThinnedKept(o.manual, ShedAll(o.manual, None, path), o.removed);
      MoreRemoved(ShedAll(o.manual, None, path), o.removed, {path});
      NonEmptyKept(ShedAll(o.manual, None, path), o.removed + {path});
      WithAddedKept(o, b, path);
      SameAdded(o.(added := WithAdded(o, b, path), removed := o.removed + {path}), next);
    case Custom(n) =>
      var r := Pulled(o.manual, n, path, |o.manual|);
      PulledShape(o.manual, n, path, |o.manual|);
      if r.already || !r.found {
        ThinnedKept(o.manual, r.manual, o.removed);
        SameAdded(o, next);
      } else {
        PulledKept(o.manual, r.manual, o.removed, path);
        NonEmptyKept(r.manual, o.removed + {path});
        SameAdded(o, next);
      }
    }
    KeptParts(next);
  }

  lemma SameAdded(o: Overrides, next: Overrides)
    requires AddedKept(o) && next.added == o.added && o.removed <= next.removed
    ensures AddedKept(next)
  {
    assert forall b :: AddedTo(next, b) == AddedTo(o, b);
  }

  lemma TakenOutKept(o: Overrides, path: string, id: FolderId)
    requires Kept(o)
    ensures Kept(TakenOut(o, path, id))
  {
    hide Kept, Thinned, ShedAll, NonEmpty, AddedTo;
    KeptParts(o);
    var next := TakenOut(o, path, id);
    SameAdded(o, next);
    match id {
    case Auto(_) =>
      MoreRemoved(o.manual, o.removed, {path});
    case Custom(n) =>
      ShedAllThins(o.manual, Some(n), path);
      ThinnedKept(o.manual, ShedAll(o.manual, Some(n), path), o.removed);
      NonEmptyKept(ShedAll(o.manual, Some(n), path), o.removed);
    }
    KeptParts(next);
  }

  // ---------------------------------------------------------------------------------------------
  // An emptied manual folder is dissolved by the edit that empties it
  // ---------------------------------------------------------------------------------------------

  ghost predicate NoneEmpty(manual: seq<Manual>) {
    forall k :: 0 <= k < |manual| ==> manual[k].members != []
  }

  lemma {:induction false} NonEmptyLeavesNone(manual: seq<Manual>)
    ensures NoneEmpty(NonEmpty(manual))
    decreases |manual|
  {
    if manual != [] {
      NonEmptyLeavesNone(manual[..|manual| - 1]);
    }
  }

  /** Every edit that rebuilds the grid leaves no empty manual folder. */
  lemma EditsLeaveNoneEmpty(o: Overrides, path: string, other: string, id: FolderId)
    requires NoneEmpty(o.manual)
    ensures NoneEmpty(Created(o, path, other).manual)
    ensures Moved(o, path, id).1 ==> NoneEmpty(Moved(o, path, id).0.manual)
    ensures NoneEmpty(TakenOut(o, path, id).manual)
  {
    hide NonEmpty, ShedAll, Pulled;
    match id {
      case Auto(_) => NonEmptyLeavesNone(ShedAll(o.manual, None, path));
      case Custom(n) =>
        NonEmptyLeavesNone(Pulled(o.manual, n, path, |o.manual|).manual);
        NonEmptyLeavesNone(ShedAll(o.manual, Some(n), path));
    }
  }
}
