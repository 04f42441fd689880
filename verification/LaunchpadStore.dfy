/** Saving the launchpad's overrides and loading them back: manual folders are numbered anew. */
module LaunchpadStore {
  import opened Wrappers
  import opened LaunchpadFolders
  import opened LaunchpadEdits
  import opened LaunchpadHomes
  import opened Launchpad
  import opened LaunchpadListings

  /** What the file holds; a manual folder is saved without its number. */
  datatype File = File(removed: set<string>, added: map<nat, seq<string>>, custom: seq<seq<string>>, order: seq<GridId>)

  function Customs(manual: seq<Manual>): (customs: seq<seq<string>>)
    ensures |customs| == |manual|
    ensures forall k :: 0 <= k < |manual| ==> customs[k] == manual[k].members
  {
    if manual == [] then []
    else Customs(manual[..|manual| - 1]) + [manual[|manual| - 1].members]
  }

  function ToFile(o: Overrides): File {
    File(o.removed, o.added, Customs(o.manual), o.order)
  }

  /** Empty folders are counted but not kept. */
  function Numbered(customs: seq<seq<string>>): seq<Manual> {
    if customs == [] then []
    else
      var n := |customs| - 1;
      Numbered(customs[..n]) + (if customs[n] == [] then [] else [Manual(n, customs[n])])
  }

  function Loaded(f: File): Overrides {
    Overrides(f.removed, f.added, Numbered(f.custom), f.order)
  }

  method LoadCustoms(customs: seq<seq<string>>) returns (manual: seq<Manual>)
    ensures manual == Numbered(customs)
  {
    manual := [];
    var n := 0;
    while n < |customs|
      invariant 0 <= n <= |customs| && manual == Numbered(customs[..n])
    {
      assert customs[..n + 1][..n] == customs[..n];
      if customs[n] != [] {
        manual := manual + [Manual(n, customs[n])];
      }
      n := n + 1;
    }
    assert customs[..n] == customs;
  }

  lemma {:induction false} NumberedInOrder(manual: seq<Manual>)
    requires NoneEmpty(manual)
    ensures |Numbered(Customs(manual))| == |manual|
    ensures forall k :: 0 <= k < |manual| ==> Numbered(Customs(manual))[k] == Manual(k, manual[k].members)
    decreases |manual|
  {
    if manual != [] {
      var front := manual[..|manual| - 1];
      NumberedInOrder(front);
      assert Customs(manual)[..|manual| - 1] == Customs(front);
    }
  }

  lemma {:induction false} SameSlot(o: Overrides, p: Overrides, path: string, n: nat)
    requires p.added == o.added && |p.manual| == |o.manual| && n <= OTHER + |o.manual|
    requires forall k :: 0 <= k < |o.manual| ==> p.manual[k].members == o.manual[k].members
    ensures FirstSlot(p, path, n) == FirstSlot(o, path, n)
  {
    if n > 0 {
      SameSlot(o, p, path, n - 1);
      assert SlotList(p, n - 1) == SlotList(o, n - 1);
    }
  }

  lemma ReloadKept(o: Overrides)
    requires Kept(o) && NoneEmpty(o.manual)
    ensures Kept(Loaded(ToFile(o)))
  {
    hide Numbered, Customs;
    NumberedInOrder(o.manual);
    assert forall b :: AddedTo(Loaded(ToFile(o)), b) == AddedTo(o, b);
  }

  lemma {:induction false} SameListings(a: seq<Manual>, b: seq<Manual>, path: string)
    requires |a| == |b| && forall k :: 0 <= k < |a| ==> a[k].members == b[k].members
    ensures Listings(a, path) == Listings(b, path)
    decreases |a|
  {
    if a != [] {
      SameListings(a[..|a| - 1], b[..|b| - 1], path);
    }
  }

  lemma ReloadListsOnce(o: Overrides)
    requires ListsOnce(o) && NoneEmpty(o.manual)
    ensures ListsOnce(Loaded(ToFile(o)))
  {
    hide Numbered, Customs, Listings, Additions;
    var p := Loaded(ToFile(o));
    NumberedInOrder(o.manual);
    forall path
      ensures Places(p, path) <= 1
    {
      assert Places(o, path) <= 1;
      SameListings(o.manual, p.manual, path);
      UntouchedBuckets(o, p, path);
      SameAdditions(o, p, path, OTHER);
    }
  }

  /** After a restart everything that holds over a run holds again, so runs go on over restarts. */
  lemma RestartKeepsInv(v: View, w: View)
    requires Inv(v) && ListsOnce(v.o) && w == WithRebuild(v.(o := Loaded(ToFile(v.o))))
    ensures Inv(w) && ListsOnce(w.o)
  {
    hide Numbered, Customs, Kept, DistinctPaths, ListsOnce, Rebuilt, Loaded, ToFile;
    ReloadKept(v.o);
    ReloadListsOnce(v.o);
    LoadedNoneEmpty(v.o);
    RebuildInv(v.(o := Loaded(ToFile(v.o))));
  }

  lemma LoadedNoneEmpty(o: Overrides)
    requires NoneEmpty(o.manual)
    ensures NoneEmpty(Loaded(ToFile(o)).manual)
  {
    hide Numbered, Customs;
    NumberedInOrder(o.manual);
  }

  /** Every app comes back to the same slot, but under the same folder id only where the folder's number
      was its place in the list: ids of manual folders do not outlive a restart. */
  lemma ReloadKeepsIdExactlyWhen(apps: seq<App>, o: Overrides, i: nat)
    requires NoneEmpty(o.manual) && i < |apps|
    ensures var p, slot := Loaded(ToFile(o)), HomeSlot(apps, o, i);
            && HomeSlot(apps, p, i) == slot
            && (Home(apps, p, i) == Home(apps, o, i)
                <==> (OTHER <= slot < OTHER + |o.manual| ==> o.manual[slot - OTHER].number == slot - OTHER))
  {
    hide Numbered, Customs, FirstSlot;
    var p := Loaded(ToFile(o));
    NumberedInOrder(o.manual);
    SameSlot(o, p, apps[i].path, OTHER + |o.manual|);
    assert forall b :: Touched(apps, p, b) == Touched(apps, o, b);
  }

  /** A second restart changes nothing more. */
  lemma ReloadIsStable(o: Overrides)
    requires NoneEmpty(o.manual)
    ensures Loaded(ToFile(Loaded(ToFile(o)))) == Loaded(ToFile(o))
  {
    hide Numbered, Customs;
    NumberedInOrder(o.manual);
    NumberedInOrder(Loaded(ToFile(o)).manual);
    assert Loaded(ToFile(Loaded(ToFile(o)))).manual == Loaded(ToFile(o)).manual;
  }

  // ---------------------------------------------------------------------------------------------
  // A run after which a restart changes a folder's id
  // ---------------------------------------------------------------------------------------------

  const FOUR := [App("a", OTHER), App("b", OTHER), App("c", OTHER), App("d", OTHER)]

  ghost predicate Idle(v: View) {
    Inv(v) && v.apps == FOUR && !v.searching && v.shown && v.o.added == map[]
  }

  lemma HomeInManual(o: Overrides, i: nat)
    requires i < |FOUR| && o.added == map[]
    ensures Home(FOUR, o, i)
            == if FOUR[i].path in o.removed && FirstIn(o.manual, FOUR[i].path).Some?
               then Some(Custom(FirstIn(o.manual, FOUR[i].path).value)) else None
  {
    hide Home, FirstIn;
    if FOUR[i].path in o.removed {
      RemovedHome(FOUR, o, i);
      NoBucketClaims(o, FOUR[i].path);
    } else {
      NaturalHome(FOUR, o, i);
    }
  }

  lemma MakesFolder(v: View, i: nat, j: nat) returns (drop: Action)
    requires Idle(v) && v.open == None && i < 4 && j < 4 && i != j
    requires Home(FOUR, v.o, i) == None && Home(FOUR, v.o, j) == None
    ensures drop.Drop?
    ensures var w := Step(v, drop);
            Idle(w) && w.open == None && w.o == Created(v.o, FOUR[i].path, FOUR[j].path)
  {
    hide Home, Rebuilt, Kept, DistinctPaths, Created;
    var src := CellOf(v, i);
    var dst := CellOf(v, j);
    drop := Drop(src, dst);
    KnownApp(FOUR, i);
    KnownApp(FOUR, j);
    StepKeepsInv(v, drop);
    assert Created(v.o, FOUR[i].path, FOUR[j].path).added == v.o.added by {
      CreatedAdds(v.o, FOUR[i].path, FOUR[j].path);
    }
  }

  lemma CreatedAdds(o: Overrides, a: string, b: string)
    ensures Created(o, a, b).added == o.added
  {
  }

  lemma DragsOut(v: View, i: nat, n: nat) returns (open: Action)
    requires Idle(v) && i < 4 && Home(FOUR, v.o, i) == Some(Custom(n))
    ensures open.Open?
    ensures var w := Step(Step(v, open), DragOut(FOUR[i].path));
            Idle(w) && w.o == TakenOut(v.o, FOUR[i].path, Custom(n))
  {
    hide Home, Rebuilt, Kept, DistinctPaths, NonEmpty, ShedAll;
    var at := TileOf(v, i);
    open := Open(v.grid.items[at].folder);
    StepKeepsInv(v, open);
    StepKeepsInv(Step(v, open), DragOut(FOUR[i].path));
  }

  lemma FirstCatalog()
    ensures var v := Step(START, Refresh(FOUR, false)); Idle(v) && v.open == None && v.o == NOTHING
  {
    hide Rebuilt, Kept;
    StartInv();
    assert DistinctPaths(FOUR);
    StepKeepsInv(START, Refresh(FOUR, false));
  }

  lemma IdleShowsFour(v: View)
    requires Idle(v)
    ensures v.apps == FOUR
  {
  }

  /** Two folders are made and the first emptied again: the second is numbered one until the restart, and
      zero after it. */
  lemma ARestartRenumbers() returns (run: seq<Action>)
    ensures Catalogs(run)
    ensures var v := After(START, run);
            && Idle(v) && v.o.manual == [Manual(1, ["c", "d"])] && v.apps == FOUR
            && Home(FOUR, v.o, 0) == None
            && Home(FOUR, v.o, 2) == Some(Custom(1))
            && Home(FOUR, Loaded(ToFile(v.o)), 2) == Some(Custom(0))
  {
    hide Home, After, Step, TakenOut, Created, FirstIn, Loaded, ToFile, Idle;
    FirstCatalog();
    var first := Refresh(FOUR, false);
    var v := Step(START, first);
    var o1 := Created(NOTHING, "a", "b");
    var o2 := Created(o1, "c", "d");
    var o3 := TakenOut(o2, "a", Custom(0));
    var o4 := TakenOut(o3, "b", Custom(0));
    Made();
    Emptied();
    HomeInManual(NOTHING, 0);
    HomeInManual(NOTHING, 1);
    var drop := MakesFolder(v, 0, 1);
    HomeInManual(o1, 2);
    HomeInManual(o1, 3);
    var again := MakesFolder(Step(v, drop), 2, 3);
    var v2 := Step(Step(v, drop), again);
    HomeInManual(o2, 0);
    var open := DragsOut(v2, 0, 0);
    var v3 := Step(Step(v2, open), DragOut("a"));
    HomeInManual(o3, 1);
    var reopen := DragsOut(v3, 1, 0);
    IdleShowsFour(Step(Step(v3, reopen), DragOut("b")));
    HomeInManual(o4, 0);
    HomeInManual(o4, 2);
    HomeInManual(Loaded(ToFile(o4)), 2);
    run := [first, drop, again, open, DragOut("a"), reopen, DragOut("b")];
    SevenSteps(START, first, drop, again, open, DragOut("a"), reopen, DragOut("b"));
    assert DistinctPaths(FOUR);
  }

  lemma SevenSteps(v: View, a: Action, b: Action, c: Action, d: Action, e: Action, f: Action, g: Action)
    ensures After(v, [a, b, c, d, e, f, g]) == Step(Step(Step(Step(Step(Step(Step(v, a), b), c), d), e), f), g)
  {
    hide Step, After;
    var empty: seq<Action> := [];
    NoStepYet(v);
    RunOneMore(v, empty, a);
    RunOneMore(v, [a], b);
    RunOneMore(v, [a, b], c);
    RunOneMore(v, [a, b, c], d);
    RunOneMore(v, [a, b, c, d], e);
    RunOneMore(v, [a, b, c, d, e], f);
    RunOneMore(v, [a, b, c, d, e, f], g);
    assert empty + [a] == [a] && [a] + [b] == [a, b] && [a, b] + [c] == [a, b, c];
    assert [a, b, c] + [d] == [a, b, c, d] && [a, b, c, d] + [e] == [a, b, c, d, e];
    assert [a, b, c, d, e] + [f] == [a, b, c, d, e, f] && [a, b, c, d, e, f] + [g] == [a, b, c, d, e, f, g];
  }

  lemma PairTakenOut(a: Manual, b: Manual, path: string)
    requires a.number != b.number && b.members != []
    ensures NonEmpty(ShedAll([a, b], Some(a.number), path))
            == (if DropPath(a.members, path) == [] then [] else [Shed(a, path)]) + [b]
  {
    assert [a, b][..1] == [a] && [Shed(a, path), b][..1] == [Shed(a, path)];
    assert ShedAll([a], Some(a.number), path) == [Shed(a, path)];
    assert NonEmpty([Shed(a, path)]) == if DropPath(a.members, path) == [] then [] else [Shed(a, path)];
  }

  lemma FirstInPair(a: Manual, b: Manual, path: string)
    ensures FirstIn([b], path) == if path in b.members then Some(b.number) else None
    ensures FirstIn([a, b], path) == if path in a.members then Some(a.number) else FirstIn([b], path)
  {
    var none: seq<Manual> := [];
    FirstInSnoc(none, a, path);
    FirstInSnoc(none, b, path);
    FirstInSnoc([a], b, path);
    assert none + [a] == [a] && none + [b] == [b] && [a] + [b] == [a, b];
  }

  lemma Dropped()
    ensures DropPath(["a", "b"], "a") == ["b"] && DropPath(["b"], "b") == []
  {
    assert ["a", "b"][..1] == ["a"];
  }

  /** The overrides on the way. */
  lemma Made()
    ensures var o1 := Created(NOTHING, "a", "b");
            var o2 := Created(o1, "c", "d");
            && o1.added == o2.added == map[]
            && "c" !in o1.removed && "d" !in o1.removed && o2.removed == {"a", "b", "c", "d"}
            && o2.manual == [Manual(0, ["a", "b"]), Manual(1, ["c", "d"])]
            && FirstIn(o2.manual, "a") == Some(0)
  {
    hide FirstIn;
    FirstInPair(Manual(0, ["a", "b"]), Manual(1, ["c", "d"]), "a");
  }

  lemma Emptied()
    ensures var o2 := Created(Created(NOTHING, "a", "b"), "c", "d");
            var o3 := TakenOut(o2, "a", Custom(0));
            var o4 := TakenOut(o3, "b", Custom(0));
            && o3.added == o4.added == map[] && o3.removed == o4.removed == o2.removed
            && FirstIn(o3.manual, "b") == Some(0)
            && o4.manual == [Manual(1, ["c", "d"])]
            && FirstIn(o4.manual, "a") == None && FirstIn(o4.manual, "c") == Some(1)
            && var again := Loaded(ToFile(o4));
               again.removed == o4.removed && again.added == map[] && FirstIn(again.manual, "c") == Some(0)
  {
    hide FirstIn, NonEmpty, ShedAll, DropPath, Numbered, Customs, Created;
    var first, shed, second := Manual(0, ["a", "b"]), Manual(0, ["b"]), Manual(1, ["c", "d"]);
    Made();
    var o2 := Created(Created(NOTHING, "a", "b"), "c", "d");
    Dropped();
    PairTakenOut(first, second, "a");
    PairTakenOut(shed, second, "b");
    var o3 := TakenOut(o2, "a", Custom(0));
    assert o3.manual == [shed, second];
    var o4 := TakenOut(o3, "b", Custom(0));
    assert o4.manual == [second];
    NumberedInOrder(o4.manual);
    var again := Loaded(ToFile(o4)).manual;
    assert again == [Manual(0, ["c", "d"])];
    FirstInPair(shed, second, "b");
    FirstInPair(shed, second, "c");
    FirstInPair(shed, second, "a");
    FirstInPair(first, again[0], "c");
  }
}
