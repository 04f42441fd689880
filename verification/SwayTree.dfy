/**
  Sway's workspace records and the occupancy tallied from its window tree.
 */
module SwayTree {
  import opened Wrappers
  import opened Sorting

  /** A tree node with the fields the tally looks at; anything that is not a JSON object is a `Scalar`.
      A missing child array is as good as an empty one, `windowClass` is the class inside
      `window_properties`, `window` a window id that is not null. */
  datatype Node =
    | Scalar
    | Object(kind: Option<string>, name: Option<string>, nodes: seq<Node>, floating: seq<Node>,
             appId: Option<string>, windowClass: Option<string>, window: bool)

  predicate IsLeaf(node: Node)
    requires node.Object?
  {
    node.nodes == [] && node.floating == []
  }

  predicate IsNamedWorkspace(node: Node) {
    node.Object? && node.kind == Some("workspace") && node.name.Some?
  }

  function WorkspaceName(node: Node, current: string): string {
    if IsNamedWorkspace(node) then node.name.value else current
  }

  predicate NonEmpty(s: Option<string>) {
    s.Some? && s.value != ""
  }

  predicate HasWindow(node: Node)
    requires node.Object?
  {
    NonEmpty(node.appId) || NonEmpty(node.windowClass) || node.window
  }

  /** The application the node reports; empty for a bare X11 window. */
  function AppOf(node: Node): string
    requires node.Object?
  {
    if NonEmpty(node.appId) then node.appId.value
    else if node.windowClass.Some? then node.windowClass.value
    else ""
  }

  // ------------------------------------------------------------ the traversal

  /** A window leaf as the tally counts it. */
  datatype Seen = Seen(workspace: string, app: string)

  function Own(node: Node, workspace: string): seq<Seen>
    requires node.Object?
  {
    if IsLeaf(node) && workspace != "" && HasWindow(node) then [Seen(workspace, AppOf(node))] else []
  }

  function Visit(node: Node, current: string): seq<Seen>
    decreases node, 0
  {
    if node.Scalar? then []
    else
      var ws := WorkspaceName(node, current);
      Own(node, ws) + VisitAll(node.nodes, ws) + VisitAll(node.floating, ws)
  }

  function VisitAll(nodes: seq<Node>, current: string): seq<Seen>
    decreases nodes, 0
  {
    if nodes == [] then [] else Visit(nodes[0], current) + VisitAll(nodes[1..], current)
  }

  type Counts = map<string, nat>
  type Apps = map<string, seq<string>>

  function Count1(counts: Counts, seen: Seen): Counts {
    counts[seen.workspace := (if seen.workspace in counts then counts[seen.workspace] else 0) + 1]
  }

  function Apps1(apps: Apps, seen: Seen): Apps {
    var known := if seen.workspace in apps then apps[seen.workspace] else [];
    if seen.app == "" then apps
    else apps[seen.workspace := if seen.app in known then known else known + [seen.app]]
  }

  function CountAll(counts: Counts, seen: seq<Seen>): Counts {
    if seen == [] then counts else Count1(CountAll(counts, seen[..|seen| - 1]), seen[|seen| - 1])
  }

  function AppsAll(apps: Apps, seen: seq<Seen>): Apps {
    if seen == [] then apps else Apps1(AppsAll(apps, seen[..|seen| - 1]), seen[|seen| - 1])
  }

  lemma {:induction false} TallyConcat(counts: Counts, apps: Apps, a: seq<Seen>, b: seq<Seen>)
    ensures CountAll(counts, a + b) == CountAll(CountAll(counts, a), b)
    ensures AppsAll(apps, a + b) == AppsAll(AppsAll(apps, a), b)
    decreases |b|
  {
    if b == [] {
      assert a + b == a;
    } else {
      assert (a + b)[..|a + b| - 1] == a + b[..|b| - 1];
      TallyConcat(counts, apps, a, b[..|b| - 1]);
    }
  }

  /** `tallyOccupancy`: the two maps are filled in during one walk over the tree. */
  method TallyOccupancy(node: Node, current: string, counts: Counts, apps: Apps) returns (counts': Counts, apps': Apps)
    ensures counts' == CountAll(counts, Visit(node, current))
    ensures apps' == AppsAll(apps, Visit(node, current))
    decreases node, 0
  {
    hide CountAll, AppsAll, VisitAll, Apps1;
    counts', apps' := counts, apps;
    TallyNothing(counts, apps);
    if node.Scalar? { return; }
    var ws := WorkspaceName(node, current);
    ghost var own := Own(node, ws);
    if IsLeaf(node) && ws != "" && HasWindow(node) {
      TallyOne(counts, apps, Seen(ws, AppOf(node)));
      counts', apps' := Count1(counts, Seen(ws, AppOf(node))), Apps1(apps, Seen(ws, AppOf(node)));
    }
    TallyConcat(counts, apps, own, VisitAll(node.nodes, ws));
    TallyConcat(counts, apps, own + VisitAll(node.nodes, ws), VisitAll(node.floating, ws));
    counts', apps' := TallyChildren(node.nodes, ws, counts', apps');
    counts', apps' := TallyChildren(node.floating, ws, counts', apps');
  }

  method TallyChildren(nodes: seq<Node>, current: string, counts: Counts, apps: Apps) returns (counts': Counts, apps': Apps)
    ensures counts' == CountAll(counts, VisitAll(nodes, current))
    ensures apps' == AppsAll(apps, VisitAll(nodes, current))
    decreases nodes, 1
  {
    hide CountAll, AppsAll, Visit;
    counts', apps' := counts, apps;
    ghost var seen: seq<Seen> := [];
    TallyNothing(counts, apps);
    for i := 0 to |nodes|
      invariant counts' == CountAll(counts, seen) && apps' == AppsAll(apps, seen)
      invariant seen + VisitAll(nodes[i..], current) == VisitAll(nodes, current)
    {
      assert nodes[i..][0] == nodes[i] && nodes[i..][1..] == nodes[i + 1..];
      counts', apps' := TallyOccupancy(nodes[i], current, counts', apps');
      TallyConcat(counts, apps, seen, Visit(nodes[i], current));
      seen := seen + Visit(nodes[i], current);
    }
    assert seen + [] == seen;
  }

  lemma TallyNothing(counts: Counts, apps: Apps)
    ensures CountAll(counts, []) == counts && AppsAll(apps, []) == apps
  {
  }

  lemma TallyOne(counts: Counts, apps: Apps, seen: Seen)
    ensures CountAll(counts, [seen]) == Count1(counts, seen) && AppsAll(apps, [seen]) == Apps1(apps, seen)
  {
    assert [seen][..0] == [];
  }

  // ------------------------------------------------- windows and their workspace

  /** Every way from a node down to a leaf. */
  function Chains(node: Node): seq<seq<Node>>
    decreases node, 0
  {
    if node.Scalar? then []
    else if IsLeaf(node) then [[node]]
    else
      Under(node, ChainsAll(node.nodes) + ChainsAll(node.floating))
  }

  function ChainsAll(nodes: seq<Node>): seq<seq<Node>>
    decreases nodes, 0
  {
    if nodes == [] then [] else Chains(nodes[0]) + ChainsAll(nodes[1..])
  }

  function Under(node: Node, chains: seq<seq<Node>>): seq<seq<Node>> {
    if chains == [] then [] else [[node] + chains[0]] + Under(node, chains[1..])
  }

  /** Looking up from the leaf: the nearest enclosing workspace that has a name. */
  function Nearest(chain: seq<Node>, outside: string): string {
    if chain == [] then outside
    else if IsNamedWorkspace(chain[|chain| - 1]) then chain[|chain| - 1].name.value
    else Nearest(chain[..|chain| - 1], outside)
  }

  function WindowsOf(chains: seq<seq<Node>>, outside: string): seq<Seen> {
    if chains == [] then []
    else WindowOf(chains[0], outside) + WindowsOf(chains[1..], outside)
  }

  function WindowOf(chain: seq<Node>, outside: string): seq<Seen> {
    if chain == [] || chain[|chain| - 1].Scalar? || !HasWindow(chain[|chain| - 1]) || Nearest(chain, outside) == "" then []
    else [Seen(Nearest(chain, outside), AppOf(chain[|chain| - 1]))]
  }

  lemma {:induction false} NearestBelow(node: Node, chain: seq<Node>, outside: string)
    ensures Nearest([node] + chain, outside) == Nearest(chain, WorkspaceName(node, outside))
    decreases |chain|
  {
    var all := [node] + chain;
    if chain == [] {
      assert all[..0] == [];
    } else {
      NearestBelow(node, chain[..|chain| - 1], outside);
      assert all[..|all| - 1] == [node] + chain[..|chain| - 1];
    }
  }

  predicate NoEmptyChain(chains: seq<seq<Node>>) {
    forall i :: 0 <= i < |chains| ==> chains[i] != []
  }

  lemma {:induction false} WindowsUnder(node: Node, chains: seq<seq<Node>>, outside: string)
    requires NoEmptyChain(chains)
    ensures WindowsOf(Under(node, chains), outside) == WindowsOf(chains, WorkspaceName(node, outside))
    ensures NoEmptyChain(Under(node, chains))
    decreases |chains|
  {
    if chains != [] {
      hide WindowOf;
      WindowUnder(node, chains[0], outside);
      WindowsUnder(node, chains[1..], outside);
      assert Under(node, chains)[1..] == Under(node, chains[1..]);
    }
  }

  lemma WindowUnder(node: Node, chain: seq<Node>, outside: string)
    requires chain != []
    ensures WindowOf([node] + chain, outside) == WindowOf(chain, WorkspaceName(node, outside))
  {
    hide Nearest;
    NearestBelow(node, chain, outside);
    assert ([node] + chain)[|chain|] == chain[|chain| - 1];
  }

  lemma {:induction false} WindowsConcat(a: seq<seq<Node>>, b: seq<seq<Node>>, outside: string)
    ensures WindowsOf(a + b, outside) == WindowsOf(a, outside) + WindowsOf(b, outside)
    decreases |a|
  {
    hide WindowOf;
    if a == [] {
      assert a + b == b;
    } else {
      assert (a + b)[1..] == a[1..] + b;
      WindowsConcat(a[1..], b, outside);
    }
  }

  /** The downward walk sees exactly the window leaves, each with its nearest enclosing named workspace. */
  lemma {:induction false} VisitSeesEveryWindow(node: Node, current: string)
    ensures Visit(node, current) == WindowsOf(Chains(node), current)
    ensures NoEmptyChain(Chains(node))
    decreases node, 0
  {
    if node.Object? {
      var ws := WorkspaceName(node, current);
      if IsLeaf(node) {
        LeafWindow(node, current);
      } else {
        VisitAllSeesEveryWindow(node.nodes, ws);
        VisitAllSeesEveryWindow(node.floating, ws);
        InnerNode(node, current);
      }
    } else {
      NoWindows(current);
    }
  }

  lemma InnerNode(node: Node, current: string)
    requires node.Object? && !IsLeaf(node)
    requires var ws := WorkspaceName(node, current);
             && VisitAll(node.nodes, ws) == WindowsOf(ChainsAll(node.nodes), ws)
             && VisitAll(node.floating, ws) == WindowsOf(ChainsAll(node.floating), ws)
    requires NoEmptyChain(ChainsAll(node.nodes)) && NoEmptyChain(ChainsAll(node.floating))
    ensures Visit(node, current) == WindowsOf(Chains(node), current)
    ensures NoEmptyChain(Chains(node))
  {
    hide WindowsOf, Under, Nearest, VisitAll, ChainsAll;
    var ws := WorkspaceName(node, current);
    var tiled, floating := ChainsAll(node.nodes), ChainsAll(node.floating);
    WindowsConcat(tiled, floating, ws);
    WindowsUnder(node, tiled + floating, current);
    assert [] + VisitAll(node.nodes, ws) == VisitAll(node.nodes, ws);
  }

  lemma NoWindows(outside: string)
    ensures WindowsOf([], outside) == []
  {
  }

  lemma LeafWindow(node: Node, current: string)
    requires node.Object? && IsLeaf(node)
    ensures Visit(node, current) == WindowsOf([[node]], current)
  {
    assert [node][..0] == [] && [node][|[node]| - 1] == node;
    assert Nearest([node][..0], current) == current;
    assert Nearest([node], current) == WorkspaceName(node, current);
    assert WindowOf([node], current) == Own(node, WorkspaceName(node, current));
    assert [[node]][1..] == [];
    assert WindowsOf([[node]], current) == WindowOf([node], current) + [];
    assert VisitAll(node.nodes, WorkspaceName(node, current)) == [];
  }

  lemma {:induction false} VisitAllSeesEveryWindow(nodes: seq<Node>, current: string)
    ensures VisitAll(nodes, current) == WindowsOf(ChainsAll(nodes), current)
    ensures NoEmptyChain(ChainsAll(nodes))
    decreases nodes, 1
  {
    if nodes != [] {
      hide WindowsOf, Visit, Chains;
      VisitSeesEveryWindow(nodes[0], current);
      VisitAllSeesEveryWindow(nodes[1..], current);
      WindowsConcat(Chains(nodes[0]), ChainsAll(nodes[1..]), current);
    } else {
      NoWindows(current);
    }
  }

  // ------------------------------------------------------ what the maps contain

  function On(seen: seq<Seen>, ws: string): nat {
    if seen == [] then 0 else On(seen[..|seen| - 1], ws) + if seen[|seen| - 1].workspace == ws then 1 else 0
  }

  /** A workspace is listed exactly when it has a window leaf, with the number of them. */
  lemma {:induction false} CountsAreExact(seen: seq<Seen>, ws: string)
    ensures ws in CountAll(map[], seen) <==> On(seen, ws) > 0
    ensures ws in CountAll(map[], seen) ==> CountAll(map[], seen)[ws] == On(seen, ws)
    decreases |seen|
  {
    if seen != [] {
      CountsAreExact(seen[..|seen| - 1], ws);
    }
  }

  /** The application list holds every named application of the workspace, each once, and is no longer
      than the window count. */
  lemma {:induction false} AppsAreExact(seen: seq<Seen>, ws: string)
    ensures var apps := AppsAll(map[], seen);
            && (ws in apps ==> NoDup(apps[ws]) && |apps[ws]| <= On(seen, ws))
            && forall a :: (ws in apps && a in apps[ws]) <==> a != "" && Seen(ws, a) in seen
    decreases |seen|
  {
    if seen != [] {
      var front, last := seen[..|seen| - 1], seen[|seen| - 1];
      AppsAreExact(front, ws);
      assert seen == front + [last];
    }
  }

  /** The whole tally of a tree, in terms of its window leaves. */
  lemma TreeTally(tree: Node, ws: string)
    ensures var windows := WindowsOf(Chains(tree), "");
            var counts, apps := CountAll(map[], Visit(tree, "")), AppsAll(map[], Visit(tree, ""));
            && (ws in counts <==> On(windows, ws) > 0)
            && (ws in counts ==> counts[ws] == On(windows, ws))
            && (ws in apps ==> ws in counts && NoDup(apps[ws]) && |apps[ws]| <= counts[ws])
            && (forall a :: (ws in apps && a in apps[ws]) <==> a != "" && Seen(ws, a) in windows)
  {
    hide Visit, Chains, WindowsOf, CountAll, AppsAll, On;
    var seen := Visit(tree, "");
    VisitSeesEveryWindow(tree, "");
    CountsAreExact(seen, ws);
    AppsAreExact(seen, ws);
    NoEmptyAppList(seen, ws);
  }

  lemma {:induction false} NoEmptyAppList(seen: seq<Seen>, ws: string)
    ensures ws in AppsAll(map[], seen) ==> AppsAll(map[], seen)[ws] != []
    decreases |seen|
  {
    if seen != [] {
      NoEmptyAppList(seen[..|seen| - 1], ws);
    }
  }

  // ------------------------------------------------------------------ the tables

  datatype Record = Record(name: string, output: string, visible: bool, urgent: bool, num: int, ordinal: nat, occupied: bool)

  /** One field of a JSON object; `Wrong` is a value of another type than the one asked for. */
  datatype Field<T> = Missing | Wrong | Value(value: T)

  /** One element of the list reply; what is not an object is passed over. */
  datatype Entry =
    | Other
    | Workspace(name: Field<string>, output: Field<string>, visible: Field<bool>, urgent: Field<bool>, num: Field<int>)

  /** A workspace object with its defaults filled in. */
  datatype Item = Item(name: string, output: string, visible: bool, urgent: bool, num: int)

  predicate Readable(entry: Entry)
    requires entry.Workspace?
  {
    !entry.name.Wrong? && !entry.output.Wrong? && !entry.visible.Wrong? && !entry.urgent.Wrong? && !entry.num.Wrong?
  }

  function Or<T>(field: Field<T>, default: T): T {
    if field.Value? then field.value else default
  }

  function ItemOf(entry: Entry): Item
    requires entry.Workspace? && Readable(entry)
  {
    Item(Or(entry.name, ""), Or(entry.output, ""), Or(entry.visible, false), Or(entry.urgent, false), Or(entry.num, -1))
  }

  /** The objects of a reply, or none if reading one of them throws. */
  function Items(entries: seq<Entry>): Option<seq<Item>> {
    if entries == [] then Some([])
    else
      var front, last := Items(entries[..|entries| - 1]), entries[|entries| - 1];
      if front.None? || last.Other? then front
      else if Readable(last) then Some(front.value + [ItemOf(last)])
      else None
  }

  /** One field of the wrong type in any workspace loses the whole reply, and nothing else does. */
  lemma {:induction false} ReplyIsLostExactlyWhen(entries: seq<Entry>)
    ensures Items(entries).None? <==>
            exists i :: 0 <= i < |entries| && entries[i].Workspace? && !Readable(entries[i])
    decreases |entries|
  {
    if entries != [] {
      var front := entries[..|entries| - 1];
      ReplyIsLostExactlyWhen(front);
      assert forall i :: 0 <= i < |front| ==> front[i] == entries[i];
    }
  }

  predicate Before(a: Record, b: Record) {
    var ra, rb := if a.num >= 0 then 0 else 1, if b.num >= 0 then 0 else 1;
    if ra != rb then ra < rb
    else if ra == 0 && a.num != b.num then a.num < b.num
    else a.ordinal < b.ordinal
  }

  const SWAY_ORDER := (a: Record, b: Record) => Before(a, b)

  /** Numbered workspaces first, by number, then the others; discovery order decides the rest, so two
      different records of one reply never tie. */
  lemma SwayOrderIsTotal()
    ensures StrictWeak(SWAY_ORDER)
    ensures forall a: Record, b: Record :: a.ordinal != b.ordinal ==> Before(a, b) || Before(b, a)
  {
  }

  predicate Occupied(counts: Counts, name: string) {
    name in counts && counts[name] > 0
  }

  predicate InStep(spaces: seq<Record>, counts: Counts) {
    forall i :: 0 <= i < |spaces| ==> spaces[i].occupied == Occupied(counts, spaces[i].name)
  }

  /** The records of a reply: unnamed workspaces use up an ordinal but are not kept. */
  function Listed(items: seq<Item>, counts: Counts): seq<Record> {
    if items == [] then []
    else
      var n := |items| - 1;
      var item := items[n];
      Listed(items[..n], counts) +
        if item.name == "" then []
        else [Record(item.name, item.output, item.visible, item.urgent, item.num, n, Occupied(counts, item.name))]
  }

  /** Every record with its flag counted anew. */
  function Flagged(spaces: seq<Record>, counts: Counts): (flagged: seq<Record>)
    ensures |flagged| == |spaces|
    ensures forall i :: 0 <= i < |spaces| ==> flagged[i] == spaces[i].(occupied := Occupied(counts, spaces[i].name))
  {
    if spaces == [] then []
    else
      var last := spaces[|spaces| - 1];
      Flagged(spaces[..|spaces| - 1], counts) + [last.(occupied := Occupied(counts, last.name))]
  }

  datatype State = State(spaces: seq<Record>, counts: Counts, apps: Apps)

  const NOTHING := State([], map[], map[])

  /** `None` is a reply that does not parse to an array, or to an object. */
  datatype Reply = ListReply(entries: Option<seq<Entry>>) | TreeReply(tree: Option<Node>)

  function Step(st: State, reply: Reply): State {
    match reply
    case ListReply(entries) =>
      if entries.None? || Items(entries.value).None? then st
      else st.(spaces := Sort(Listed(Items(entries.value).value, st.counts), SWAY_ORDER))
    case TreeReply(tree) =>
      if tree.None? then st
      else
        var seen := Visit(tree.value, "");
        State(Flagged(st.spaces, CountAll(map[], seen)), CountAll(map[], seen), AppsAll(map[], seen))
  }

  class Tables {
    var spaces: seq<Record>
    var counts: Counts
    var apps: Apps

    ghost predicate Valid()
      reads this
    {
      InStep(spaces, counts)
    }

    function Now(): State
      reads this
    {
      State(spaces, counts, apps)
    }

    constructor ()
      ensures Valid() && Now() == NOTHING
    {
      spaces, counts, apps := [], map[], map[];
    }

    /** `loadWorkspaceList`; `None` is a reply that does not parse to an array.  A field of the wrong type
        throws out of the loop, before anything is stored. */
    method LoadWorkspaceList(reply: Option<seq<Entry>>) returns (changed: bool)
      requires Valid()
      modifies this`spaces
      ensures Valid()
      ensures Now() == Step(old(Now()), ListReply(reply))
      ensures changed <==> spaces != old(spaces)
    {
      hide Items, Listed, Sort;
      if reply.None? { return false; }
      var next: seq<Record> := [];
      var ordinal := 0;
      ghost var items: seq<Item> := [];
      NothingListed(counts);
      assert reply.value[..0] == [];
      for i := 0 to |reply.value|
        invariant Items(reply.value[..i]) == Some(items) && ordinal == |items|
        invariant next == Listed(items, counts) && InStep(next, counts) && spaces == old(spaces)
      {
        var entry := reply.value[i];
        OneMoreEntry(reply.value, i);
        if entry.Workspace? {
          if !Readable(entry) {
            ReplyIsLostExactlyWhen(reply.value);
            return false;
          }
          var item := ItemOf(entry);
          OneMoreListed(items, item, counts);
          if item.name != "" {
            next := next + [Record(item.name, item.output, item.visible, item.urgent, item.num, ordinal,
                                   Occupied(counts, item.name))];
          }
          items := items + [item];
          ordinal := ordinal + 1;
        }
      }
      assert reply.value[..|reply.value|] == reply.value;
      SortedInStep(next, counts);
      next := Sort(next, SWAY_ORDER);
      if next == spaces { return false; }
      spaces := next;
      return true;
    }

    /** `loadTree`; `None` is a reply that is not an object. */
    method LoadTree(reply: Option<Node>) returns (changed: bool)
      requires Valid()
      modifies this
      ensures Valid()
      ensures Now() == Step(old(Now()), TreeReply(reply))
      ensures changed <==> spaces != old(spaces)
    {
      changed := false;
      if reply.None? { return; }
      counts, apps := TallyOccupancy(reply.value, "", map[], map[]);
      var i := 0;
      while i < |spaces|
        invariant 0 <= i <= |spaces| == |old(spaces)|
        invariant counts == CountAll(map[], Visit(reply.value, "")) && apps == AppsAll(map[], Visit(reply.value, ""))
        invariant forall k :: 0 <= k < i ==> spaces[k] == old(spaces)[k].(occupied := Occupied(counts, old(spaces)[k].name))
        invariant forall k :: i <= k < |spaces| ==> spaces[k] == old(spaces)[k]
        invariant changed <==> exists k :: 0 <= k < i && spaces[k] != old(spaces)[k]
      {
        var now := Occupied(counts, spaces[i].name);
        if spaces[i].occupied != now {
          spaces := spaces[i := spaces[i].(occupied := now)];
          changed := true;
        }
        i := i + 1;
      }
      assert spaces == Flagged(old(spaces), counts);
    }

    /** `teardown` forgets records and counts; the application lists stay. */
    method Teardown()
      modifies this
      ensures Valid() && spaces == [] && counts == map[] && apps == old(apps)
    {
      spaces, counts := [], map[];
    }
  }

  lemma NothingListed(counts: Counts)
    ensures Items([]) == Some([]) && Listed([], counts) == [] && InStep([], counts)
  {
  }

  lemma OneMoreEntry(entries: seq<Entry>, i: nat)
    requires i < |entries|
    ensures Items(entries[..i + 1])
            == if Items(entries[..i]).None? || entries[i].Other? then Items(entries[..i])
               else if Readable(entries[i]) then Some(Items(entries[..i]).value + [ItemOf(entries[i])])
               else None
  {
    assert entries[..i + 1][..i] == entries[..i];
  }

  lemma OneMoreListed(items: seq<Item>, item: Item, counts: Counts)
    ensures Listed(items + [item], counts)
            == Listed(items, counts)
               + if item.name == "" then []
                 else [Record(item.name, item.output, item.visible, item.urgent, item.num, |items|, Occupied(counts, item.name))]
  {
    hide Occupied;
    assert (items + [item])[..|items|] == items && (items + [item])[|items|] == item;
  }

  lemma SortedInStep(spaces: seq<Record>, counts: Counts)
    requires InStep(spaces, counts)
    ensures InStep(Sort(spaces, SWAY_ORDER), counts)
  {
    hide Sort;
    var sorted := Sort(spaces, SWAY_ORDER);
    SortPermutes(spaces, SWAY_ORDER);
    forall i | 0 <= i < |sorted|
      ensures sorted[i].occupied == Occupied(counts, sorted[i].name)
    {
      assert sorted[i] in multiset(spaces);
    }
  }
}
