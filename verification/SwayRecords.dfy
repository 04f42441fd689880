/** Sway's workspace records said outright: which are kept, in which order, and which count as occupied. */
module SwayRecords {
  import opened Wrappers
  import opened Sorting
  import opened SwayTree

  // ---------------------------------------------------------------------------------------------
  // One window
  // ---------------------------------------------------------------------------------------------

  /** A named workspace with one leaf in it shows that leaf's window, if it has one: an application id, else a window
      class, else a bare window id. */
  lemma OneLeaf(name: string, leaf: Node, floats: bool)
    requires leaf.Object? && leaf.nodes == [] && leaf.floating == [] && leaf.kind != Some("workspace")
    ensures var inside := [leaf];
            var tree := Object(Some("workspace"), Some(name), if floats then [] else inside, if floats then inside else [],
                               None, None, false);
            var shows := (leaf.appId.Some? && leaf.appId.value != "") || (leaf.windowClass.Some? && leaf.windowClass.value != "")
                         || leaf.window;
            var app := if leaf.appId.Some? && leaf.appId.value != "" then leaf.appId.value
                       else if leaf.windowClass.Some? then leaf.windowClass.value else "";
            WindowsOf(Chains(tree), "") == if name != "" && shows then [Seen(name, app)] else []
  {
    hide WindowsOf, Chains;
    var inside := [leaf];
    var tree := Object(Some("workspace"), Some(name), if floats then [] else inside, if floats then inside else [],
                       None, None, false);
    VisitSeesEveryWindow(tree, "");
    assert inside[1..] == [];
    assert Visit(leaf, name) == Own(leaf, name);
    assert VisitAll(inside, name) == Visit(leaf, name) + VisitAll([], name);
  }

  // ---------------------------------------------------------------------------------------------
  // The records of a list reply
  // ---------------------------------------------------------------------------------------------

  /** What a list reply says about a workspace object; missing fields have these defaults. */
  lemma ItemSaid(entry: Entry)
    requires entry.Workspace? && Readable(entry)
    ensures var item := ItemOf(entry);
            && item.name == (if entry.name.Value? then entry.name.value else "")
            && item.output == (if entry.output.Value? then entry.output.value else "")
            && item.visible == (entry.visible.Value? && entry.visible.value)
            && item.urgent == (entry.urgent.Value? && entry.urgent.value)
            && item.num == (if entry.num.Value? then entry.num.value else -1)
  {
  }

  /** The record of the item at place `n` of a reply. */
  ghost predicate RecordOf(items: seq<Item>, n: nat, r: Record) {
    && n < |items| && items[n].name != ""
    && r.name == items[n].name && r.output == items[n].output && r.visible == items[n].visible
    && r.urgent == items[n].urgent && r.num == items[n].num && r.ordinal == n
  }

  ghost predicate RecordsOf(items: seq<Item>, records: seq<Record>) {
    && (forall k :: 0 <= k < |records| ==> RecordOf(items, records[k].ordinal, records[k]))
    && (forall k, l :: 0 <= k < l < |records| ==> records[k].ordinal != records[l].ordinal)
    && (forall n :: 0 <= n < |items| && items[n].name != "" ==> exists k :: 0 <= k < |records| && records[k].ordinal == n)
  }

  lemma OneMoreRecord(items: seq<Item>, records: seq<Record>, item: Item, r: Record)
    requires RecordsOf(items, records) && item.name != "" && RecordOf(items + [item], |items|, r)
    ensures RecordsOf(items + [item], records + [r])
  {
    var more, all := items + [item], records + [r];
    forall k | 0 <= k < |all|
      ensures RecordOf(more, all[k].ordinal, all[k])
    {
      if k < |records| {
        assert RecordOf(items, records[k].ordinal, records[k]);
      }
    }
    forall n | 0 <= n < |more| && more[n].name != ""
      ensures exists k :: 0 <= k < |all| && all[k].ordinal == n
    {
      if n < |items| {
        var k :| 0 <= k < |records| && records[k].ordinal == n;
        assert all[k].ordinal == n;
      } else {
        assert all[|records|].ordinal == n;
      }
    }
  }

  lemma NoMoreRecord(items: seq<Item>, records: seq<Record>, item: Item)
    requires RecordsOf(items, records) && item.name == ""
    ensures RecordsOf(items + [item], records)
  {
    var more := items + [item];
    forall k | 0 <= k < |records|
      ensures RecordOf(more, records[k].ordinal, records[k])
    {
      assert RecordOf(items, records[k].ordinal, records[k]);
    }
    forall n | 0 <= n < |more| && more[n].name != ""
      ensures exists k :: 0 <= k < |records| && records[k].ordinal == n
    {
      assert more[n] == items[n];
    }
  }

  lemma {:induction false} ListedAreRecords(items: seq<Item>, counts: Counts)
    ensures RecordsOf(items, Listed(items, counts))
    decreases |items|
  {
    if items != [] {
      hide RecordsOf, Occupied;
      var front, last := items[..|items| - 1], items[|items| - 1];
      ListedAreRecords(front, counts);
      assert front + [last] == items;
      if last.name != "" {
        OneMoreRecord(front, Listed(front, counts), last, Listed(items, counts)[|Listed(front, counts)|]);
      } else {
        NoMoreRecord(front, Listed(front, counts), last);
        assert Listed(front, counts) + [] == Listed(front, counts);
      }
    }
  }

  /** Numbered workspaces before unnumbered ones, by number, and those alike in the order of the reply. */
  ghost predicate InSwayOrder(records: seq<Record>) {
    forall k, l :: 0 <= k < l < |records| ==>
      var a, b := records[k], records[l];
      if a.num >= 0 && b.num >= 0 && a.num != b.num then a.num < b.num
      else if (a.num >= 0) != (b.num >= 0) then a.num >= 0
      else a.ordinal < b.ordinal
  }

  lemma ShuffledRecords(items: seq<Item>, listed: seq<Record>, sorted: seq<Record>)
    requires RecordsOf(items, listed) && multiset(sorted) == multiset(listed)
    ensures RecordsOf(items, sorted)
  {
    assert NoDup(listed);
    PermutedNoDup(listed, sorted);
    forall k | 0 <= k < |sorted|
      ensures RecordOf(items, sorted[k].ordinal, sorted[k])
    {
      assert sorted[k] in listed;
    }
    forall k, l | 0 <= k < l < |sorted|
      ensures sorted[k].ordinal != sorted[l].ordinal
    {
      assert sorted[k] in listed && sorted[l] in listed && sorted[k] != sorted[l];
    }
    forall n | 0 <= n < |items| && items[n].name != ""
      ensures exists k :: 0 <= k < |sorted| && sorted[k].ordinal == n
    {
      var k :| 0 <= k < |listed| && listed[k].ordinal == n;
      assert listed[k] in sorted;
    }
  }

  lemma SortedIsInOrder(records: seq<Record>)
    requires Sorted(records, SWAY_ORDER) && forall k, l :: 0 <= k < l < |records| ==> records[k].ordinal != records[l].ordinal
    ensures InSwayOrder(records)
  {
    forall k, l | 0 <= k < l < |records|
      ensures !Before(records[l], records[k]) && records[k].ordinal != records[l].ordinal
    {
      assert !SWAY_ORDER(records[l], records[k]);
    }
  }

  /** A readable list reply leaves a record for every named workspace, with what the reply says of it, in sway's
      order. */
  lemma ListReplySaid(st: State, entries: seq<Entry>)
    requires Items(entries).Some?
    ensures var spaces := Step(st, ListReply(Some(entries))).spaces;
            RecordsOf(Items(entries).value, spaces) && InSwayOrder(spaces)
  {
    hide Sort, Listed, Items, RecordsOf, InSwayOrder, Sorted;
    var items := Items(entries).value;
    ListedAreRecords(items, st.counts);
    SwayOrderIsTotal();
    SortPermutes(Listed(items, st.counts), SWAY_ORDER);
    SortSorts(Listed(items, st.counts), SWAY_ORDER);
    var spaces := Sort(Listed(items, st.counts), SWAY_ORDER);
    ShuffledRecords(items, Listed(items, st.counts), spaces);
    DifferentOrdinals(items, spaces);
    SortedIsInOrder(spaces);
  }

  lemma DifferentOrdinals(items: seq<Item>, records: seq<Record>)
    requires RecordsOf(items, records)
    ensures forall k, l :: 0 <= k < l < |records| ==> records[k].ordinal != records[l].ordinal
  {
  }

  // ---------------------------------------------------------------------------------------------
  // Occupied workspaces, over every run of replies
  // ---------------------------------------------------------------------------------------------

  function After(run: seq<Reply>): State {
    if run == [] then NOTHING else Step(After(run[..|run| - 1]), run[|run| - 1])
  }

  /** The last tree that arrived. */
  function LastTree(run: seq<Reply>): Option<Node> {
    if run == [] then None
    else
      match run[|run| - 1]
      case TreeReply(Some(tree)) => Some(tree)
      case _ => LastTree(run[..|run| - 1])
  }

  /** Some window leaf of the tree has `name` as its nearest enclosing workspace. */
  ghost predicate HasWindowOn(tree: Option<Node>, name: string) {
    tree.Some? && exists seen :: seen in WindowsOf(Chains(tree.value), "") && seen.workspace == name
  }

  lemma {:induction false} OnMeansSome(seen: seq<Seen>, ws: string)
    ensures On(seen, ws) > 0 <==> exists s :: s in seen && s.workspace == ws
    decreases |seen|
  {
    if seen != [] {
      var front, last := seen[..|seen| - 1], seen[|seen| - 1];
      OnMeansSome(front, ws);
      assert seen == front + [last];
      assert last in seen;
    }
  }

  lemma OccupiedIs(tree: Node, name: string)
    ensures Occupied(CountAll(map[], Visit(tree, "")), name) <==> HasWindowOn(Some(tree), name)
  {
    hide Visit, WindowsOf, Chains, CountAll, AppsAll, On;
    TreeTally(tree, name);
    OnMeansSome(WindowsOf(Chains(tree), ""), name);
  }

  /** The flag of every record agrees with the tree. */
  ghost predicate FlagsFollow(spaces: seq<Record>, tree: Option<Node>) {
    forall k :: 0 <= k < |spaces| ==> (spaces[k].occupied <==> HasWindowOn(tree, spaces[k].name))
  }

  ghost predicate CountsFollow(counts: Counts, tree: Option<Node>) {
    forall name :: Occupied(counts, name) <==> HasWindowOn(tree, name)
  }

  lemma FlagsFromCounts(spaces: seq<Record>, counts: Counts, tree: Option<Node>)
    requires CountsFollow(counts, tree) && InStep(spaces, counts)
    ensures FlagsFollow(spaces, tree)
  {
    hide Occupied, HasWindowOn;
  }

  lemma {:induction false} ListedInStep(items: seq<Item>, counts: Counts)
    ensures InStep(Listed(items, counts), counts)
    decreases |items|
  {
    if items != [] {
      hide Occupied;
      ListedInStep(items[..|items| - 1], counts);
    }
  }

  lemma {:induction false} RunKeepsCounts(run: seq<Reply>)
    ensures var st := After(run); CountsFollow(st.counts, LastTree(run)) && InStep(st.spaces, st.counts)
    decreases |run|
  {
    if run != [] {
      hide Occupied, HasWindowOn, CountAll, AppsAll, Visit, Sort, Items;
      var st, reply := After(run[..|run| - 1]), run[|run| - 1];
      RunKeepsCounts(run[..|run| - 1]);
      match reply {
        case ListReply(Some(entries)) =>
          if Items(entries).Some? {
            ListedInStep(Items(entries).value, st.counts);
            SortedInStep(Listed(Items(entries).value, st.counts), st.counts);
          }
        case TreeReply(Some(tree)) =>
          forall name
            ensures Occupied(CountAll(map[], Visit(tree, "")), name) <==> HasWindowOn(Some(tree), name)
          {
            OccupiedIs(tree, name);
          }
        case _ =>
      }
    }
  }

  /** After any run of list and tree replies, in whatever order they come, a record is marked occupied exactly when
      some window of the last tree is on a workspace of its name. */
  lemma OccupiedMeansSomeWindow(run: seq<Reply>)
    ensures FlagsFollow(After(run).spaces, LastTree(run))
  {
    hide After, LastTree, CountsFollow, FlagsFollow;
    RunKeepsCounts(run);
    FlagsFromCounts(After(run).spaces, After(run).counts, LastTree(run));
  }

  /** A tree reply alone settles every flag. */
  lemma TreeReplySaid(st: State, tree: Node)
    ensures var now := Step(st, TreeReply(Some(tree)));
            && |now.spaces| == |st.spaces|
            && FlagsFollow(now.spaces, Some(tree))
            && forall k :: 0 <= k < |st.spaces| ==> now.spaces[k] == st.spaces[k].(occupied := now.spaces[k].occupied)
  {
    hide Occupied, HasWindowOn, CountAll, AppsAll, Visit;
    var now := Step(st, TreeReply(Some(tree)));
    forall k | 0 <= k < |now.spaces|
      ensures now.spaces[k].occupied <==> HasWindowOn(Some(tree), now.spaces[k].name)
    {
      OccupiedIs(tree, now.spaces[k].name);
    }
  }
}
