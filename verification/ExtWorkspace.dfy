/**
 The ext-workspace-v1 backend: tables of groups and workspaces filled by protocol events, the desk list
 drawn from them, and the jumps that activate a workspace.
 */
module ExtWorkspace {
  import opened Wrappers
  import opened Sorting
  import opened Desks

  type Handle = nat   // 0 is the null pointer

  datatype Group = Group(h: Handle, outs: seq<Handle>, ws: seq<Handle>)

  /** `activated` records the activations sent, each with its commit; `retired` the handles destroyed. */
  datatype State = State(managed: bool, groups: seq<Group>, regions: map<Handle, DeskSlot>,
                         activated: seq<Handle>, retired: multiset<Handle>, retiredGroups: multiset<Handle>,
                         notified: nat)

  // ---------------------------------------------------------------------------------------------
  // Matching a desk
  // ---------------------------------------------------------------------------------------------

  /** Coordinates without their padding of zeros. */
  function Stripped(path: seq<nat>): seq<nat> {
    if path != [] && path[|path| - 1] == 0 then Stripped(path[..|path| - 1]) else path
  }

  /** 0 for the same desk, 1 for its key alone, 2 for its leading coordinate, -1 for no match. */
  function MatchRank(cand: DeskSlot, want: DeskSlot): (rank: int)
    ensures -1 <= rank <= 2
  {
    var cw, ch := Stripped(want.path), Stripped(cand.path);
    if cand.key == want.key && cand.title == want.title && cw == ch then 0
    else if want.key != "" && cand.key == want.key then 1
    else if cw != [] && ch != [] && ch[0] == cw[0] then 2
    else -1
  }

  predicate Ranked(regions: map<Handle, DeskSlot>, w: Handle, want: DeskSlot, rank: int) {
    w in regions && MatchRank(regions[w], want) == rank
  }

  /** The first workspace from `k` on with this rank. */
  function FirstRanked(ws: seq<Handle>, regions: map<Handle, DeskSlot>, want: DeskSlot, rank: int, k: nat): (at: nat)
    requires k <= |ws|
    ensures k <= at <= |ws|
    ensures at < |ws| ==> Ranked(regions, ws[at], want, rank)
    ensures forall j :: k <= j < at ==> !Ranked(regions, ws[j], want, rank)
    decreases |ws| - k
  {
    if k == |ws| || Ranked(regions, ws[k], want, rank) then k else FirstRanked(ws, regions, want, rank, k + 1)
  }

  /** A group's answer, trying the ranks from `rank` up. */
  function PickIn(ws: seq<Handle>, regions: map<Handle, DeskSlot>, want: DeskSlot, rank: nat): Option<nat>
    requires rank <= 3
    decreases 3 - rank
  {
    if rank == 3 then None
    else
      var at := FirstRanked(ws, regions, want, rank, 0);
      if at < |ws| then Some(at) else PickIn(ws, regions, want, rank + 1)
  }

  /** The workspace a jump by desk activates: the answer of the first serving group that has one. */
  function Pick(st: State, output: Handle, want: DeskSlot, g: nat): Option<Handle>
    requires g <= |st.groups|
    decreases |st.groups| - g
  {
    if g == |st.groups| then None
    else
      var answer := if output in st.groups[g].outs then PickIn(st.groups[g].ws, st.regions, want, 0) else None;
      if answer.Some? && answer.value < |st.groups[g].ws| then Some(st.groups[g].ws[answer.value])
      else Pick(st, output, want, g + 1)
  }

  /** The first live workspace of a serving group with this key. */
  function PickKey(st: State, output: Handle, key: string, g: nat): Option<Handle>
    requires g <= |st.groups|
    decreases |st.groups| - g
  {
    if g == |st.groups| then None
    else
      var at := if output in st.groups[g].outs then FirstKeyed(st.groups[g].ws, st.regions, key, 0)
                else |st.groups[g].ws|;
      if at < |st.groups[g].ws| then Some(st.groups[g].ws[at]) else PickKey(st, output, key, g + 1)
  }

  predicate Keyed(regions: map<Handle, DeskSlot>, w: Handle, key: string) {
    w in regions && regions[w].key == key
  }

  function FirstKeyed(ws: seq<Handle>, regions: map<Handle, DeskSlot>, key: string, k: nat): (at: nat)
    requires k <= |ws|
    ensures k <= at <= |ws|
    ensures at < |ws| ==> Keyed(regions, ws[at], key)
    ensures forall j :: k <= j < at ==> !Keyed(regions, ws[j], key)
    decreases |ws| - k
  {
    if k == |ws| || Keyed(regions, ws[k], key) then k else FirstKeyed(ws, regions, key, k + 1)
  }

  predicate Matches(regions: map<Handle, DeskSlot>, w: Handle, want: DeskSlot) {
    w in regions && MatchRank(regions[w], want) >= 0
  }

  /** Some workspace listed in the group is live and matches. */
  predicate HasMatch(g: Group, regions: map<Handle, DeskSlot>, want: DeskSlot) {
    exists k :: 0 <= k < |g.ws| && Matches(regions, g.ws[k], want)
  }

  /** The `k`-th workspace of a group is the first of the best rank any live workspace of the group has. */
  predicate Best(ws: seq<Handle>, regions: map<Handle, DeskSlot>, want: DeskSlot, k: nat) {
    && k < |ws| && Matches(regions, ws[k], want)
    && (forall j :: 0 <= j < |ws| && Matches(regions, ws[j], want) ==>
          MatchRank(regions[ws[k]], want) <= MatchRank(regions[ws[j]], want))
    && (forall j :: 0 <= j < k && Matches(regions, ws[j], want) ==>
          MatchRank(regions[ws[k]], want) < MatchRank(regions[ws[j]], want))
  }

  predicate Serves(g: Group, output: Handle) {
    output in g.outs
  }

  lemma {:induction false} PickInIsBest(ws: seq<Handle>, regions: map<Handle, DeskSlot>, want: DeskSlot, rank: nat)
    requires rank <= 3
    requires forall j :: 0 <= j < |ws| && Matches(regions, ws[j], want) ==> MatchRank(regions[ws[j]], want) >= rank
    ensures var at := PickIn(ws, regions, want, rank);
            if at.Some? then Best(ws, regions, want, at.value)
            else forall j :: 0 <= j < |ws| ==> !Matches(regions, ws[j], want)
    decreases 3 - rank
  {
    hide MatchRank;
    if rank < 3 {
      var at := FirstRanked(ws, regions, want, rank, 0);
      forall j | 0 <= j < |ws| && j < at && Matches(regions, ws[j], want)
        ensures MatchRank(regions[ws[j]], want) > rank
      {
        assert !Ranked(regions, ws[j], want, rank);
      }
      if at == |ws| {
        PickInIsBest(ws, regions, want, rank + 1);
      } else {
        assert Ranked(regions, ws[at], want, rank);
      }
    }
  }

  predicate NoMatchBetween(st: State, output: Handle, want: DeskSlot, from: nat, to: nat) {
    forall e :: from <= e < to && e < |st.groups| && Serves(st.groups[e], output) ==>
                  !HasMatch(st.groups[e], st.regions, want)
  }

  /** Group `g` is the first serving one from `from` on that has a match, and `w`, its `k`-th, is its best. */
  predicate Answers(st: State, output: Handle, want: DeskSlot, from: nat, g: nat, k: nat, w: Handle) {
    && from <= g < |st.groups| && Serves(st.groups[g], output)
    && Best(st.groups[g].ws, st.regions, want, k) && st.groups[g].ws[k] == w
    && NoMatchBetween(st, output, want, from, g)
  }

  /** A jump by desk activates at most one workspace. It is live, in the first serving group that has any
      match, and there the first of the lowest rank; no group answers only if none has a match. */
  lemma {:induction false} PickIsBest(st: State, output: Handle, want: DeskSlot, from: nat)
    requires from <= |st.groups|
    ensures var w := Pick(st, output, want, from);
            if w.None? then NoMatchBetween(st, output, want, from, |st.groups|)
            else exists g, k :: Answers(st, output, want, from, g, k, w.value)
    decreases |st.groups| - from
  {
    hide Matches, PickIn, Best;
    if from < |st.groups| {
      var group := st.groups[from];
      var rest := Pick(st, output, want, from + 1);
      PickInAll(group.ws, st.regions, want);
      var answer := if output in group.outs then PickIn(group.ws, st.regions, want, 0) else None;
      if answer.Some? {
        BestIsThere(group.ws, st.regions, want, answer.value);
        assert Answers(st, output, want, from, from, answer.value, group.ws[answer.value]);
      } else {
        PickIsBest(st, output, want, from + 1);
        assert Serves(group, output) ==> !HasMatch(group, st.regions, want);
        if rest.Some? {
          var g: nat, k: nat :| Answers(st, output, want, from + 1, g, k, rest.value);
          assert Answers(st, output, want, from, g, k, rest.value);
        }
      }
    }
  }

  lemma BestIsThere(ws: seq<Handle>, regions: map<Handle, DeskSlot>, want: DeskSlot, k: nat)
    requires Best(ws, regions, want, k)
    ensures k < |ws|
  {
  }

  lemma PickInAll(ws: seq<Handle>, regions: map<Handle, DeskSlot>, want: DeskSlot)
    ensures var at := PickIn(ws, regions, want, 0);
            if at.Some? then Best(ws, regions, want, at.value)
            else forall j :: 0 <= j < |ws| ==> !Matches(regions, ws[j], want)
  {
    PickInIsBest(ws, regions, want, 0);
  }

  /** The jump lands on the very desk asked for exactly when the first serving group with any match holds
      it: an earlier group's weaker match wins over a later group's exact one. */
  lemma ExactDeskExactlyWhen(st: State, output: Handle, want: DeskSlot, g: nat, k: nat, w: Handle)
    requires Answers(st, output, want, 0, g, k, w)
    ensures Ranked(st.regions, w, want, 0)
            <==> exists j :: 0 <= j < |st.groups[g].ws| && Ranked(st.regions, st.groups[g].ws[j], want, 0)
  {
    hide MatchRank;
    var ws := st.groups[g].ws;
    if j :| 0 <= j < |ws| && Ranked(st.regions, ws[j], want, 0) {
      assert Matches(st.regions, ws[j], want);
    }
  }

  // ---------------------------------------------------------------------------------------------
  // The desk list
  // ---------------------------------------------------------------------------------------------

  /** Coordinates compare lexicographically. */
  predicate PathLess(a: seq<nat>, b: seq<nat>)
    decreases |a|
  {
    if b == [] then false
    else if a == [] then true
    else a[0] < b[0] || (a[0] == b[0] && PathLess(a[1..], b[1..]))
  }

  lemma {:induction false} PathLessAsymmetric(a: seq<nat>, b: seq<nat>)
    requires PathLess(a, b)
    ensures !PathLess(b, a)
    decreases |a|
  {
    if a != [] && b != [] && a[0] == b[0] {
      PathLessAsymmetric(a[1..], b[1..]);
    }
  }

  lemma {:induction false} PathLessBetween(a: seq<nat>, b: seq<nat>, c: seq<nat>)
    requires PathLess(a, c) && !PathLess(a, b)
    ensures PathLess(b, c)
    decreases |a|
  {
    if a != [] && b != [] && c != [] && a[0] == c[0] && a[0] == b[0] {
      PathLessBetween(a[1..], b[1..], c[1..]);
    }
  }

  /** A desk with the workspace it was read from. */
  datatype Entry = Entry(w: Handle, slot: DeskSlot)

  predicate EntryBefore(a: Entry, b: Entry) {
    PathLess(a.slot.path, b.slot.path)
  }

  lemma EntryOrderIsStrictWeak()
    ensures StrictWeak(EntryBefore)
  {
    hide PathLess;
    forall a, b | EntryBefore(a, b)
      ensures !EntryBefore(b, a)
    {
      PathLessAsymmetric(a.slot.path, b.slot.path);
    }
    forall a, b, c | EntryBefore(a, c) && !EntryBefore(a, b)
      ensures EntryBefore(b, c)
    {
      PathLessBetween(a.slot.path, b.slot.path, c.slot.path);
    }
  }

  /** The desks of `entries`, numbered from 1. */
  ghost predicate NumberedFrom(result: seq<DeskSlot>, entries: seq<Entry>) {
    |result| == |entries| && forall i :: 0 <= i < |result| ==> result[i] == entries[i].slot.(ordinal := i + 1)
  }

  ghost predicate ByPath(result: seq<DeskSlot>) {
    forall i, j :: 0 <= i < j < |result| ==> !PathLess(result[j].path, result[i].path)
  }

  method OrderRegions(found: seq<Entry>) returns (result: seq<DeskSlot>, ghost entries: seq<Entry>)
    ensures multiset(entries) == multiset(found)
    ensures NumberedFrom(result, entries) && ByPath(result)
  {
    var sorted := Sort(found, EntryBefore);
    entries := sorted;
    SortPermutes(found, EntryBefore);
    EntryOrderIsStrictWeak();
    SortSorts(found, EntryBefore);
    result := [];
    var i := 0;
    while i < |sorted|
      invariant 0 <= i <= |sorted| && NumberedFrom(result, sorted[..i])
    {
      result := result + [sorted[i].slot.(ordinal := i + 1)];
      i := i + 1;
    }
    assert sorted[..i] == sorted;
    forall i, j | 0 <= i < j < |result|
      ensures !PathLess(result[j].path, result[i].path)
    {
      assert !EntryBefore(sorted[j], sorted[i]);
    }
  }

  predicate Labelled(regions: map<Handle, DeskSlot>, w: Handle) {
    w in regions && regions[w].title != ""
  }

  /** `entries` has one entry for each live labelled workspace in `seen`, and no other. */
  ghost predicate Covers(entries: seq<Entry>, regions: map<Handle, DeskSlot>, seen: set<Handle>) {
    && (forall i :: 0 <= i < |entries| ==>
          Labelled(regions, entries[i].w) && entries[i].slot == regions[entries[i].w] && entries[i].w in seen)
    && (forall i, j :: 0 <= i < j < |entries| ==> entries[i].w != entries[j].w)
    && (forall w :: w in seen && Labelled(regions, w) ==> Entry(w, regions[w]) in entries)
  }

  method Consider(w: Handle, regions: map<Handle, DeskSlot>, found: seq<Entry>, seen: set<Handle>)
    returns (entries: seq<Entry>, now: set<Handle>)
    requires Covers(found, regions, seen)
    ensures now == seen + {w} && Covers(entries, regions, now)
  {
    entries, now := found, seen + {w};
    if w !in seen {
      if w in regions && regions[w].title != "" {
        entries := found + [Entry(w, regions[w])];
        assert entries[|found|] == Entry(w, regions[w]);
      }
    } else {
      assert now == seen;
    }
  }

  lemma {:induction false} NoDupCount(entries: seq<Entry>, e: Entry)
    requires forall i, j :: 0 <= i < j < |entries| ==> entries[i].w != entries[j].w
    ensures multiset(entries)[e] <= 1
    decreases |entries|
  {
    if entries != [] {
      var front, last := entries[..|entries| - 1], entries[|entries| - 1];
      NoDupCount(front, e);
      assert entries == front + [last];
      if last == e {
        assert e !in front;
      }
    }
  }

  lemma CoversPermuted(a: seq<Entry>, b: seq<Entry>, regions: map<Handle, DeskSlot>, seen: set<Handle>)
    requires Covers(a, regions, seen) && multiset(a) == multiset(b)
    ensures Covers(b, regions, seen)
  {
    forall i | 0 <= i < |b|
      ensures Labelled(regions, b[i].w) && b[i].slot == regions[b[i].w] && b[i].w in seen
    {
      assert b[i] in multiset(a);
      var k :| 0 <= k < |a| && a[k] == b[i];
    }
    forall i, j | 0 <= i < j < |b| && b[i] == b[j]
      ensures false
    {
      TwoAlike(b, i, j);
      NoDupCount(a, b[i]);
    }
    forall w | w in seen && Labelled(regions, w)
      ensures Entry(w, regions[w]) in b
    {
      assert Entry(w, regions[w]) in multiset(a);
      assert Entry(w, regions[w]) in multiset(b);
    }
  }

  /** The entries of the workspaces listed in one group. */
  function ListedIn(ws: seq<Handle>, regions: map<Handle, DeskSlot>): seq<Entry> {
    if ws == [] then []
    else
      var w := ws[|ws| - 1];
      ListedIn(ws[..|ws| - 1], regions) + (if Labelled(regions, w) then [Entry(w, regions[w])] else [])
  }

  function ListedOn(groups: seq<Group>, output: Handle, regions: map<Handle, DeskSlot>): seq<Entry> {
    if groups == [] then []
    else
      var g := groups[|groups| - 1];
      ListedOn(groups[..|groups| - 1], output, regions) + (if output in g.outs then ListedIn(g.ws, regions) else [])
  }

  // ---------------------------------------------------------------------------------------------
  // The table mutations
  // ---------------------------------------------------------------------------------------------

  datatype Event =
    | GroupCreated(group: Handle)
    | GroupRemoved(group: Handle)
    | OutputEnter(group: Handle, out: Handle)
    | OutputLeave(group: Handle, out: Handle)
    | WorkspaceEnter(group: Handle, w: Handle)
    | WorkspaceLeave(group: Handle, w: Handle)
    | WorkspaceCreated(w: Handle)
    | KeyChanged(w: Handle, text: Option<string>)
    | TitleChanged(w: Handle, text: Option<string>)
    | PathChanged(w: Handle, path: Option<seq<nat>>)
    | StateChanged(w: Handle, active: bool, urgent: bool)
    | WorkspaceRemoved(w: Handle)
    | ManagerDone
    | ManagerFinished

  function Locate(groups: seq<Group>, h: Handle, k: nat): (at: nat)
    requires k <= |groups|
    ensures k <= at <= |groups|
    ensures at < |groups| ==> groups[at].h == h
    decreases |groups| - k
  {
    if k == |groups| || groups[k].h == h then k else Locate(groups, h, k + 1)
  }

  function Erased<T(==)>(s: seq<T>, x: T): seq<T> {
    if s == [] then [] else Erased(s[..|s| - 1], x) + (if s[|s| - 1] == x then [] else [s[|s| - 1]])
  }

  function GroupsBut(groups: seq<Group>, h: Handle): seq<Group> {
    if groups == [] then []
    else GroupsBut(groups[..|groups| - 1], h) + (if groups[|groups| - 1].h == h then [] else [groups[|groups| - 1]])
  }

  function Text(text: Option<string>): string {
    if text.Some? then text.value else ""
  }

  function WithGroup(st: State, h: Handle, outs: seq<Handle> -> seq<Handle>, ws: seq<Handle> -> seq<Handle>): State {
    var at := Locate(st.groups, h, 0);
    if at == |st.groups| then st
    else
      var g := st.groups[at];
      st.(groups := st.groups[at := Group(h, outs(g.outs), ws(g.ws))])
  }

  function WithSlot(st: State, w: Handle, slot: DeskSlot): State {
    if w in st.regions then st.(regions := st.regions[w := slot]) else st
  }

  function SlotOf(st: State, w: Handle): DeskSlot {
    if w in st.regions then st.regions[w] else EMPTY_SLOT
  }

  function Step(st: State, e: Event): State {
    match e
    case GroupCreated(h) => if h == 0 then st else st.(groups := st.groups + [Group(h, [], [])])
    case GroupRemoved(h) =>
      if h == 0 then st
      else st.(groups := GroupsBut(st.groups, h), retiredGroups := st.retiredGroups + multiset{h})
    case OutputEnter(h, out) => WithGroup(st, h, outs => outs + [out], ws => ws)
    case OutputLeave(h, out) => WithGroup(st, h, outs => Erased(outs, out), ws => ws)
    case WorkspaceEnter(h, w) => WithGroup(st, h, outs => outs, ws => ws + [w])
    case WorkspaceLeave(h, w) => WithGroup(st, h, outs => outs, ws => Erased(ws, w))
    case WorkspaceCreated(w) =>
      if w == 0 || w in st.regions then st else st.(regions := st.regions[w := EMPTY_SLOT])
    case KeyChanged(w, text) => WithSlot(st, w, SlotOf(st, w).(key := Text(text)))
    case TitleChanged(w, text) => WithSlot(st, w, SlotOf(st, w).(title := Text(text)))
    case PathChanged(w, path) => WithSlot(st, w, SlotOf(st, w).(path := if path.Some? then path.value else []))
    case StateChanged(w, active, urgent) =>
      if w !in st.regions || (st.regions[w].selected == active && st.regions[w].urgent == urgent) then st
      else WithSlot(st, w, SlotOf(st, w).(selected := active, urgent := urgent)).(notified := st.notified + 1)
    case WorkspaceRemoved(w) =>
      if w == 0 then st else st.(regions := st.regions - {w}, retired := st.retired + multiset{w})
    case ManagerDone => st.(notified := st.notified + 1)
    case ManagerFinished => st.(managed := false, regions := map[], groups := [])
  }

  function After(st: State, events: seq<Event>): State
    decreases |events|
  {
    if events == [] then st else Step(After(st, events[..|events| - 1]), events[|events| - 1])
  }

  const START := State(true, [], map[], [], multiset{}, multiset{}, 0)

  /** The handle was announced at `i` and has been live since. */
  predicate LiveSince(events: seq<Event>, w: Handle, i: nat) {
    && i < |events| && events[i] == WorkspaceCreated(w)
    && forall j :: i <= j < |events| ==> events[j] != WorkspaceRemoved(w) && events[j] != ManagerFinished
  }

  ghost predicate Live(events: seq<Event>, w: Handle) {
    w != 0 && exists i: nat :: LiveSince(events, w, i)
  }

  /** The table holds the workspaces announced and neither removed nor swept away since. */
  lemma {:induction false} TableHoldsTheLive(events: seq<Event>, w: Handle)
    ensures w in After(START, events).regions <==> Live(events, w)
    decreases |events|
  {
    if events != [] {
      hide Step, LiveSince;
      var front, e := events[..|events| - 1], events[|events| - 1];
      TableHoldsTheLive(front, w);
      StepTable(After(START, front), e, w);
      LiveGrows(events, w);
    } else {
      NoneLive(w);
    }
  }

  lemma NoneLive(w: Handle)
    ensures !Live([], w)
  {
  }

  lemma StepTable(st: State, e: Event, w: Handle)
    ensures w in Step(st, e).regions
            <==> (e == WorkspaceCreated(w) && w != 0)
                 || (w in st.regions && (e == WorkspaceRemoved(w) ==> w == 0) && e != ManagerFinished)
  {
  }

  lemma LiveGrows(events: seq<Event>, w: Handle)
    requires events != []
    ensures var front, e := events[..|events| - 1], events[|events| - 1];
            Live(events, w)
            <==> w != 0 && (e == WorkspaceCreated(w)
                            || (Live(front, w) && e != WorkspaceRemoved(w) && e != ManagerFinished))
  {
    var front, e := events[..|events| - 1], events[|events| - 1];
    if i: nat :| LiveSince(events, w, i) {
      if i < |front| {
        assert forall j :: i <= j < |front| ==> front[j] == events[j];
        assert LiveSince(front, w, i);
      }
      assert events[|events| - 1] == e;
    }
    if e == WorkspaceCreated(w) {
      assert LiveSince(events, w, |events| - 1);
    } else if i: nat :| LiveSince(front, w, i) {
      if e != WorkspaceRemoved(w) && e != ManagerFinished {
        assert forall j :: i <= j < |events| ==> events[j] == if j < |front| then front[j] else e;
        assert LiveSince(events, w, i);
      }
    }
  }

  lemma AfterOneMore(st: State, events: seq<Event>, e: Event)
    ensures After(st, events + [e]) == Step(After(st, events), e)
  {
    assert (events + [e])[..|events|] == events;
  }

  /** One group of an output lists one workspace with these coordinates and key. */
  function Setup(group: Handle, w: Handle, key: string): seq<Event> {
    [GroupCreated(group), OutputEnter(group, 9), WorkspaceCreated(w), KeyChanged(w, Some(key)),
     PathChanged(w, Some([1])), WorkspaceEnter(group, w)]
  }

  lemma LastGroupChanges(st: State, groups: seq<Group>, g: Group, e: Event)
    requires st.groups == groups + [g] && Locate(groups, g.h, 0) == |groups|
    requires e == OutputEnter(g.h, 9) || (e.WorkspaceEnter? && e.group == g.h)
    ensures var next := if e.OutputEnter? then Group(g.h, g.outs + [9], g.ws) else Group(g.h, g.outs, g.ws + [e.w]);
            Step(st, e) == st.(groups := groups + [next])
  {
    LocatesLast(groups, g, 0);
    var next := if e.OutputEnter? then Group(g.h, g.outs + [9], g.ws) else Group(g.h, g.outs, g.ws + [e.w]);
    assert st.groups[|groups| := next] == groups + [next];
  }

  lemma SetupAdds(st: State, group: Handle, w: Handle, key: string)
    requires group != 0 && w != 0 && w !in st.regions && Locate(st.groups, group, 0) == |st.groups|
    ensures After(st, Setup(group, w, key))
            == st.(groups := st.groups + [Group(group, [9], [w])],
                   regions := st.regions[w := EMPTY_SLOT.(key := key, path := [1])])
  {
    hide After, Locate, WithGroup;
    var events, none: seq<Handle> := [GroupCreated(group)], [];
    assert none + [9] == [9] && none + [w] == [w];
    NothingAfter(st);
    AfterOneMore(st, [], GroupCreated(group));
    assert [] + events == events;
    AfterOneMore(st, events, OutputEnter(group, 9));
    LastGroupChanges(After(st, events), st.groups, Group(group, [], []), OutputEnter(group, 9));
    events := events + [OutputEnter(group, 9)];
    var served := st.(groups := st.groups + [Group(group, [9], [])]);
    assert After(st, events) == served;
    AfterOneMore(st, events, WorkspaceCreated(w));
    events := events + [WorkspaceCreated(w)];
    AfterOneMore(st, events, KeyChanged(w, Some(key)));
    events := events + [KeyChanged(w, Some(key))];
    AfterOneMore(st, events, PathChanged(w, Some([1])));
    events := events + [PathChanged(w, Some([1]))];
    assert After(st, events) == served.(regions := st.regions[w := EMPTY_SLOT.(key := key, path := [1])]);
    AfterOneMore(st, events, WorkspaceEnter(group, w));
    LastGroupChanges(After(st, events), st.groups, Group(group, [9], []), WorkspaceEnter(group, w));
    events := events + [WorkspaceEnter(group, w)];
    assert events == Setup(group, w, key);
  }

  lemma NothingAfter(st: State)
    ensures After(st, []) == st
  {
  }

  lemma {:induction false} LocatesLast(groups: seq<Group>, g: Group, k: nat)
    requires k <= |groups| && Locate(groups, g.h, k) == |groups|
    ensures Locate(groups + [g], g.h, k) == |groups|
    decreases |groups| - k
  {
    if k < |groups| {
      LocatesLast(groups, g, k + 1);
    }
  }

  lemma {:induction false} AfterBoth(st: State, first: seq<Event>, later: seq<Event>)
    ensures After(st, first + later) == After(After(st, first), later)
    decreases |later|
  {
    hide Step;
    if later == [] {
      assert first + later == first;
    } else {
      var n := |later| - 1;
      AfterBoth(st, first, later[..n]);
      assert (first + later)[..|first + later| - 1] == first + later[..n];
    }
  }

  /** The first group of the output lists a workspace with the same leading coordinate, the second the very
      desk asked for: the jump takes the first. */
  lemma AWeakMatchWins()
    ensures var st := After(START, Setup(1, 3, "a") + Setup(2, 4, "b"));
            && 4 in st.regions && MatchRank(st.regions[4], st.regions[4]) == 0
            && Pick(st, 9, st.regions[4], 0) == Some(3)
            && 3 in st.regions && MatchRank(st.regions[3], st.regions[4]) == 2
  {
    var first := After(START, Setup(1, 3, "a"));
    SetupAdds(START, 1, 3, "a");
    SetupAdds(first, 2, 4, "b");
    AfterBoth(START, Setup(1, 3, "a"), Setup(2, 4, "b"));
    var a, b := EMPTY_SLOT.(key := "a", path := [1]), EMPTY_SLOT.(key := "b", path := [1]);
    var st := After(first, Setup(2, 4, "b"));
    assert st.groups == [Group(1, [9], [3]), Group(2, [9], [4])];
    assert st.regions == map[3 := a, 4 := b];
    WeakPick(st, a, b);
  }

  lemma WeakPick(st: State, a: DeskSlot, b: DeskSlot)
    requires st.groups == [Group(1, [9], [3]), Group(2, [9], [4])] && st.regions == map[3 := a, 4 := b]
    requires MatchRank(a, b) == 2 && MatchRank(b, b) == 0
    ensures Pick(st, 9, b, 0) == Some(3)
  {
    hide MatchRank;
    var ws := [3];
    assert !Ranked(st.regions, ws[0], b, 0) && !Ranked(st.regions, ws[0], b, 1) && Ranked(st.regions, ws[0], b, 2);
    assert PickIn(ws, st.regions, b, 2) == Some(0);
    assert PickIn(ws, st.regions, b, 1) == Some(0);
    assert PickIn(ws, st.regions, b, 0) == Some(0);
    assert st.groups[0].ws == ws;
  }

  // ---------------------------------------------------------------------------------------------
  // Handles are destroyed once
  // ---------------------------------------------------------------------------------------------

  /** The handles ever announced, and those the finished event swept out of the tables and the
      compositor has not removed since. */
  datatype Ledger = Ledger(announced: set<Handle>, swept: set<Handle>, groups: set<Handle>, sweptGroups: set<Handle>)

  function GroupHandles(groups: seq<Group>): seq<Handle> {
    if groups == [] then [] else GroupHandles(groups[..|groups| - 1]) + [groups[|groups| - 1].h]
  }

  function HandleSet(groups: seq<Group>): set<Handle> {
    set h | h in GroupHandles(groups)
  }

  function Noted(l: Ledger, st: State, e: Event): Ledger {
    match e
    case WorkspaceCreated(w) => l.(announced := l.announced + {w})
    case WorkspaceRemoved(w) => l.(swept := l.swept - {w})
    case GroupCreated(h) => l.(groups := l.groups + {h})
    case GroupRemoved(h) => l.(sweptGroups := l.sweptGroups - {h})
    case ManagerFinished =>
      l.(swept := l.swept + st.regions.Keys, sweptGroups := l.sweptGroups + HandleSet(st.groups))
    case _ => l
  }

  function LedgerOf(events: seq<Event>): Ledger {
    if events == [] then Ledger({}, {}, {}, {})
    else
      var front := events[..|events| - 1];
      Noted(LedgerOf(front), After(START, front), events[|events| - 1])
  }

  /** The compositor announces a handle once, and removes only what it announced and did not remove. */
  predicate Fair(st: State, l: Ledger, e: Event) {
    match e
    case WorkspaceCreated(w) => w != 0 && w !in l.announced
    case WorkspaceRemoved(w) => w != 0 && (w in st.regions || w in l.swept)
    case GroupCreated(h) => h != 0 && h !in l.groups
    case GroupRemoved(h) => h != 0 && (h in GroupHandles(st.groups) || h in l.sweptGroups)
    case _ => true
  }

  predicate FairRun(events: seq<Event>)
    decreases |events|
  {
    events == []
    || var front := events[..|events| - 1];
       FairRun(front) && Fair(After(START, front), LedgerOf(front), events[|events| - 1])
  }

  /** A handle that was announced and not swept is in the table or was destroyed, one of them once. */
  ghost predicate Conserved(st: State, l: Ledger) {
    && (forall w :: st.retired[w] + (if w in st.regions then 1 else 0)
                    == if w in l.announced && w !in l.swept then 1 else 0)
    && (forall w :: w in l.swept ==> w in l.announced)
  }

  ghost predicate GroupsConserved(st: State, l: Ledger) {
    && (forall h :: st.retiredGroups[h] + multiset(GroupHandles(st.groups))[h]
                    == if h in l.groups && h !in l.sweptGroups then 1 else 0)
    && (forall h :: h in l.sweptGroups ==> h in l.groups)
  }

  lemma FairStepConserves(st: State, l: Ledger, e: Event)
    requires Conserved(st, l) && Fair(st, l, e)
    ensures Conserved(Step(st, e), Noted(l, st, e))
  {
    hide GroupHandles, GroupsBut;
  }

  lemma {:induction false} HandlesBut(groups: seq<Group>, h: Handle, other: Handle)
    ensures multiset(GroupHandles(GroupsBut(groups, h)))[other]
            == if other == h then 0 else multiset(GroupHandles(groups))[other]
    decreases |groups|
  {
    if groups != [] {
      var front, last := groups[..|groups| - 1], groups[|groups| - 1];
      HandlesBut(front, h, other);
      if last.h != h {
        assert GroupsBut(groups, h)[..|GroupsBut(front, h)|] == GroupsBut(front, h);
      } else {
        assert GroupsBut(groups, h) == GroupsBut(front, h);
      }
    }
  }

  lemma {:induction false} HandlesAre(groups: seq<Group>)
    ensures |GroupHandles(groups)| == |groups|
    ensures forall k :: 0 <= k < |groups| ==> GroupHandles(groups)[k] == groups[k].h
    decreases |groups|
  {
    if groups != [] {
      HandlesAre(groups[..|groups| - 1]);
    }
  }

  /** What enters or leaves a group is no business of its handle. */
  lemma SameHandles(st: State, h: Handle, outs: seq<Handle> -> seq<Handle>, ws: seq<Handle> -> seq<Handle>)
    ensures GroupHandles(WithGroup(st, h, outs, ws).groups) == GroupHandles(st.groups)
  {
    HandlesAre(st.groups);
    HandlesAre(WithGroup(st, h, outs, ws).groups);
  }

  lemma OneGroupMore(groups: seq<Group>, g: Group)
    ensures GroupHandles(groups + [g]) == GroupHandles(groups) + [g.h]
  {
    assert (groups + [g])[..|groups|] == groups;
  }

  lemma FairStepConservesGroups(st: State, l: Ledger, e: Event)
    requires GroupsConserved(st, l) && Fair(st, l, e)
    ensures GroupsConserved(Step(st, e), Noted(l, st, e))
  {
    hide GroupHandles, GroupsBut, WithGroup;
    match e {
      case GroupCreated(h) => OneGroupMore(st.groups, Group(h, [], []));
      case GroupRemoved(h) =>
        forall other
          ensures multiset(GroupHandles(GroupsBut(st.groups, h)))[other]
                  == if other == h then 0 else multiset(GroupHandles(st.groups))[other]
        {
          HandlesBut(st.groups, h, other);
        }
      case OutputEnter(h, out) => SameHandles(st, h, outs => outs + [out], ws => ws);
      case OutputLeave(h, out) => SameHandles(st, h, outs => Erased(outs, out), ws => ws);
      case WorkspaceEnter(h, w) => SameHandles(st, h, outs => outs, ws => ws + [w]);
      case WorkspaceLeave(h, w) => SameHandles(st, h, outs => outs, ws => Erased(ws, w));
      case ManagerFinished => NoGroups();
      case _ =>
    }
    GroupsElsewhere(st, e);
  }

  lemma NoGroups()
    ensures GroupHandles([]) == []
  {
  }

  /** The events that touch the table of groups. */
  predicate TouchesGroups(e: Event) {
    || e.GroupCreated? || e.GroupRemoved? || e.OutputEnter? || e.OutputLeave?
    || e.WorkspaceEnter? || e.WorkspaceLeave? || e.ManagerFinished?
  }

  lemma GroupsElsewhere(st: State, e: Event)
    ensures !e.GroupRemoved? ==> Step(st, e).retiredGroups == st.retiredGroups
    ensures !TouchesGroups(e) ==> Step(st, e).groups == st.groups
  {
  }

  lemma {:induction false} FairRunConserves(events: seq<Event>)
    requires FairRun(events)
    ensures Conserved(After(START, events), LedgerOf(events))
    ensures GroupsConserved(After(START, events), LedgerOf(events))
    decreases |events|
  {
    if events != [] {
      hide Step, Fair, Conserved, GroupsConserved, Noted;
      var front, e := events[..|events| - 1], events[|events| - 1];
      FairRunConserves(front);
      FairStepConserves(After(START, front), LedgerOf(front), e);
      FairStepConservesGroups(After(START, front), LedgerOf(front), e);
    } else {
      NothingYet();
    }
  }

  lemma NothingYet()
    ensures Conserved(START, Ledger({}, {}, {}, {})) && GroupsConserved(START, Ledger({}, {}, {}, {}))
  {
  }

  /** Every live workspace and group is destroyed, and the manager let go. */
  function TornDown(st: State): State {
    State(false, [], map[], st.activated, st.retired + multiset(st.regions.Keys),
          st.retiredGroups + multiset(GroupHandles(st.groups)), st.notified)
  }

  /** After teardown a workspace or group that was announced has been destroyed once if and only if the
      finished event did not sweep it; one that was not announced, or was swept, has not been. */
  lemma TeardownDestroysExactlyWhen(events: seq<Event>, h: Handle)
    requires FairRun(events)
    ensures var end, l := TornDown(After(START, events)), LedgerOf(events);
            && end.retired[h] == (if h in l.announced && h !in l.swept then 1 else 0)
            && end.retiredGroups[h] == (if h in l.groups && h !in l.sweptGroups then 1 else 0)
  {
    hide After, LedgerOf, FairRun;
    FairRunConserves(events);
  }

  /** A workspace still live when the manager finishes is never destroyed. */
  lemma TheFinishedEventLeaks()
    ensures var events := [WorkspaceCreated(1), ManagerFinished];
            FairRun(events) && LedgerOf(events).swept == {1} && TornDown(After(START, events)).retired[1] == 0
  {
    var first, events := [WorkspaceCreated(1)], [WorkspaceCreated(1), ManagerFinished];
    assert first[..0] == [] && events[..1] == first;
    assert After(START, first) == START.(regions := map[1 := EMPTY_SLOT]);
    assert LedgerOf(first) == Ledger({1}, {}, {}, {});
    TeardownDestroysExactlyWhen(events, 1);
  }

  // ---------------------------------------------------------------------------------------------
  // The manager
  // ---------------------------------------------------------------------------------------------

  class Manager {
    var managed: bool
    var groups: seq<Group>
    var regions: map<Handle, DeskSlot>
    var activated: seq<Handle>
    var retired: multiset<Handle>
    var retiredGroups: multiset<Handle>
    var notified: nat

    function Now(): State
      reads this
    {
      State(managed, groups, regions, activated, retired, retiredGroups, notified)
    }

    method Activate(w: Handle)
      requires managed
      modifies this`activated
      ensures activated == old(activated) + [w]
    {
      activated := activated + [w];
    }

    /** Any workspace with the key, on whatever output. */
    method JumpTo(key: string)
      modifies this`activated
      ensures if managed && exists w :: Keyed(regions, w, key)
              then exists w :: Keyed(regions, w, key) && activated == old(activated) + [w]
              else activated == old(activated)
    {
      if !managed {
        return;
      }
      var rest := regions.Keys;
      while rest != {}
        invariant rest <= regions.Keys && activated == old(activated)
        invariant forall w :: Keyed(regions, w, key) ==> w in rest
        decreases |rest|
      {
        var w :| w in rest;
        if regions[w].key == key {
          Activate(w);
          assert Keyed(regions, w, key);
          return;
        }
        rest := rest - {w};
      }
    }

    method JumpToKeyOnOutput(output: Handle, key: string)
      modifies this`activated
      ensures !managed || output == 0 ==> activated == old(activated)
      ensures managed && output != 0 ==>
                var w := PickKey(Now(), output, key, 0);
                if w.Some? then activated == old(activated) + [w.value]
                else if exists v :: Keyed(regions, v, key)
                then exists v :: Keyed(regions, v, key) && activated == old(activated) + [v]
                else activated == old(activated)
    {
      if !managed || output == 0 {
        return;
      }
      var g := 0;
      while g < |groups|
        invariant 0 <= g <= |groups| && activated == old(activated)
        invariant PickKey(Now(), output, key, 0) == PickKey(Now(), output, key, g)
      {
        if output in groups[g].outs {
          var ws, k := groups[g].ws, 0;
          while k < |ws|
            invariant 0 <= k <= |ws|
            invariant FirstKeyed(ws, regions, key, 0) == FirstKeyed(ws, regions, key, k)
          {
            if ws[k] in regions && regions[ws[k]].key == key {
              ghost var st := Now();
              Activate(ws[k]);
              PickKeyIgnoresLog(st, Now(), output, key, 0);
              return;
            }
            k := k + 1;
          }
        }
        g := g + 1;
      }
      ghost var st := Now();
      JumpTo(key);
      PickKeyIgnoresLog(st, Now(), output, key, 0);
    }

    method FireOnGroup(ws: seq<Handle>, want: DeskSlot, rank: nat) returns (fired: bool)
      requires managed
      modifies this`activated
      ensures var at := FirstRanked(ws, regions, want, rank, 0);
              if at < |ws| then fired && activated == old(activated) + [ws[at]]
              else !fired && activated == old(activated)
    {
      hide MatchRank;
      var k := 0;
      while k < |ws|
        invariant 0 <= k <= |ws| && activated == old(activated)
        invariant FirstRanked(ws, regions, want, rank, 0) == FirstRanked(ws, regions, want, rank, k)
      {
        if ws[k] in regions && MatchRank(regions[ws[k]], want) == rank {
          Activate(ws[k]);
          return true;
        }
        k := k + 1;
      }
      return false;
    }

    method JumpToDeskOnOutput(output: Handle, want: DeskSlot)
      modifies this`activated
      ensures !managed || output == 0 ==> activated == old(activated)
      ensures managed && output != 0 ==>
                var w := Pick(Now(), output, want, 0);
                if w.Some? then activated == old(activated) + [w.value]
                else if want.key != "" && exists v :: Keyed(regions, v, want.key)
                then exists v :: Keyed(regions, v, want.key) && activated == old(activated) + [v]
                else activated == old(activated)
    {
      hide FirstRanked, Keyed;
      if !managed || output == 0 {
        return;
      }
      var g := 0;
      while g < |groups|
        invariant 0 <= g <= |groups| && activated == old(activated)
        invariant Pick(Now(), output, want, 0) == Pick(Now(), output, want, g)
      {
        if output in groups[g].outs {
          var ws, rank := groups[g].ws, 0;
          while rank <= 2
            invariant 0 <= rank <= 3 && activated == old(activated)
            invariant PickIn(ws, regions, want, 0) == PickIn(ws, regions, want, rank)
          {
            ghost var st := Now();
            var fired := FireOnGroup(ws, want, rank);
            if fired {
              PickIgnoresLog(st, Now(), output, want, 0);
              return;
            }
            rank := rank + 1;
          }
        }
        g := g + 1;
      }
      if want.key != "" {
        ghost var st := Now();
        JumpTo(want.key);
        PickIgnoresLog(st, Now(), output, want, 0);
      }
    }

    /** Every live labelled workspace once, by path, numbered from 1. */
    method AllRegions() returns (result: seq<DeskSlot>, ghost entries: seq<Entry>)
      ensures Covers(entries, regions, regions.Keys)
      ensures NumberedFrom(result, entries) && ByPath(result)
    {
      hide Labelled, Covers, PathLess;
      var found, seen := [], {};
      NothingCovered(regions);
      var g := 0;
      while g < |groups|
        invariant 0 <= g <= |groups| && Covers(found, regions, seen)
      {
        var k := 0;
        while k < |groups[g].ws|
          invariant 0 <= k <= |groups[g].ws| && Covers(found, regions, seen)
        {
          found, seen := Consider(groups[g].ws[k], regions, found, seen);
          k := k + 1;
        }
        g := g + 1;
      }
      var rest := regions.Keys;
      while rest != {}
        invariant rest <= regions.Keys <= rest + seen && Covers(found, regions, seen)
        decreases |rest|
      {
        var w :| w in rest;
        found, seen := Consider(w, regions, found, seen);
        rest := rest - {w};
      }
      result, entries := OrderRegions(found);
      CoversPermuted(found, entries, regions, seen);
      CoversLive(entries, regions, seen);
    }

    method ListGroup(ws: seq<Handle>, found: seq<Entry>) returns (more: seq<Entry>)
      ensures more == found + ListedIn(ws, regions)
    {
      more := found;
      var k := 0;
      while k < |ws|
        invariant 0 <= k <= |ws| && more == found + ListedIn(ws[..k], regions)
      {
        assert ws[..k + 1][..k] == ws[..k];
        if ws[k] in regions && regions[ws[k]].title != "" {
          more := more + [Entry(ws[k], regions[ws[k]])];
        }
        k := k + 1;
      }
      assert ws[..k] == ws;
    }

    /** The desks listed in the groups that serve an output, as often as they are listed. */
    method RegionsOnOutput(output: Handle) returns (result: seq<DeskSlot>, ghost entries: seq<Entry>)
      ensures multiset(entries) == multiset(ListedOn(groups, output, regions))
      ensures NumberedFrom(result, entries) && ByPath(result)
    {
      var found := [];
      var g := 0;
      while g < |groups|
        invariant 0 <= g <= |groups| && found == ListedOn(groups[..g], output, regions)
      {
        assert groups[..g + 1][..g] == groups[..g];
        if output in groups[g].outs {
          found := ListGroup(groups[g].ws, found);
        }
        g := g + 1;
      }
      assert groups[..g] == groups;
      result, entries := OrderRegions(found);
    }

    method FindGroup(h: Handle) returns (at: nat)
      ensures at == Locate(groups, h, 0)
    {
      at := 0;
      while at < |groups| && groups[at].h != h
        invariant 0 <= at <= |groups| && Locate(groups, h, 0) == Locate(groups, h, at)
      {
        at := at + 1;
      }
    }

    method NoteGroupCreated(h: Handle)
      modifies this`groups
      ensures Now() == Step(old(Now()), GroupCreated(h))
    {
      if h != 0 {
        groups := groups + [Group(h, [], [])];
      }
    }

    method NoteGroupRemoved(h: Handle)
      modifies this`groups, this`retiredGroups
      ensures Now() == Step(old(Now()), GroupRemoved(h))
    {
      if h == 0 {
        return;
      }
      var kept, k := [], 0;
      while k < |groups|
        invariant 0 <= k <= |groups| && kept == GroupsBut(groups[..k], h)
      {
        assert groups[..k + 1][..k] == groups[..k];
        if groups[k].h != h {
          kept := kept + [groups[k]];
        }
        k := k + 1;
      }
      assert groups[..k] == groups;
      groups, retiredGroups := kept, retiredGroups + multiset{h};
    }

    method NoteGroupOutputEnter(h: Handle, out: Handle)
      modifies this`groups
      ensures Now() == Step(old(Now()), OutputEnter(h, out))
    {
      var at := FindGroup(h);
      if at < |groups| {
        groups := groups[at := Group(h, groups[at].outs + [out], groups[at].ws)];
      }
    }

    method NoteGroupOutputLeave(h: Handle, out: Handle)
      modifies this`groups
      ensures Now() == Step(old(Now()), OutputLeave(h, out))
    {
      var at := FindGroup(h);
      if at < |groups| {
        groups := groups[at := Group(h, Erased(groups[at].outs, out), groups[at].ws)];
      }
    }

    method NoteGroupWorkspaceEnter(h: Handle, w: Handle)
      modifies this`groups
      ensures Now() == Step(old(Now()), WorkspaceEnter(h, w))
    {
      var at := FindGroup(h);
      if at < |groups| {
        groups := groups[at := Group(h, groups[at].outs, groups[at].ws + [w])];
      }
    }

    method NoteGroupWorkspaceLeave(h: Handle, w: Handle)
      modifies this`groups
      ensures Now() == Step(old(Now()), WorkspaceLeave(h, w))
    {
      var at := FindGroup(h);
      if at < |groups| {
        groups := groups[at := Group(h, groups[at].outs, Erased(groups[at].ws, w))];
      }
    }

    method NoteWorkspaceCreated(w: Handle)
      modifies this`regions
      ensures Now() == Step(old(Now()), WorkspaceCreated(w))
    {
      if w != 0 && w !in regions {
        regions := regions[w := EMPTY_SLOT];
      }
    }

    method NoteWorkspaceIdChanged(w: Handle, text: Option<string>)
      modifies this`regions
      ensures Now() == Step(old(Now()), KeyChanged(w, text))
    {
      if w in regions {
        regions := regions[w := regions[w].(key := if text.Some? then text.value else "")];
      }
    }

    method NoteWorkspaceNameChanged(w: Handle, text: Option<string>)
      modifies this`regions
      ensures Now() == Step(old(Now()), TitleChanged(w, text))
    {
      if w in regions {
        regions := regions[w := regions[w].(title := if text.Some? then text.value else "")];
      }
    }

    method NoteWorkspaceCoordsChanged(w: Handle, path: Option<seq<nat>>)
      modifies this`regions
      ensures Now() == Step(old(Now()), PathChanged(w, path))
    {
      if w in regions {
        regions := regions[w := regions[w].(path := if path.Some? then path.value else [])];
      }
    }

    method NoteWorkspaceStateChanged(w: Handle, active: bool, urgent: bool)
      modifies this`regions, this`notified
      ensures Now() == Step(old(Now()), StateChanged(w, active, urgent))
    {
      if w in regions {
        if regions[w].selected == active && regions[w].urgent == urgent {
          return;
        }
        regions := regions[w := regions[w].(urgent := urgent).(selected := active)];
        notified := notified + 1;
      }
    }

    method NoteWorkspaceRemoved(w: Handle)
      modifies this`regions, this`retired
      ensures Now() == Step(old(Now()), WorkspaceRemoved(w))
    {
      if w != 0 {
        regions, retired := regions - {w}, retired + multiset{w};
      }
    }

    method NoteManagerDone()
      modifies this`notified
      ensures Now() == Step(old(Now()), ManagerDone)
    {
      notified := notified + 1;
    }

    method NoteManagerFinished()
      modifies this
      ensures Now() == Step(old(Now()), ManagerFinished)
    {
      managed, regions, groups := false, map[], [];
    }

    method RetireWorkspaces()
      modifies this`retired
      ensures retired == old(retired) + multiset(regions.Keys)
    {
      var rest := regions.Keys;
      while rest != {}
        invariant rest <= regions.Keys && retired + multiset(rest) == old(retired) + multiset(regions.Keys)
        decreases |rest|
      {
        var w :| w in rest;
        assert multiset(rest) == multiset(rest - {w}) + multiset{w};
        retired := retired + multiset{w};
        rest := rest - {w};
      }
    }

    method RetireGroups()
      modifies this`retiredGroups
      ensures retiredGroups == old(retiredGroups) + multiset(GroupHandles(groups))
    {
      var g := 0;
      while g < |groups|
        invariant 0 <= g <= |groups|
        invariant retiredGroups == old(retiredGroups) + multiset(GroupHandles(groups[..g]))
      {
        assert groups[..g + 1][..g] == groups[..g];
        retiredGroups := retiredGroups + multiset{groups[g].h};
        g := g + 1;
      }
      assert groups[..g] == groups;
    }

    method Teardown()
      modifies this
      ensures Now() == TornDown(old(Now()))
    {
      hide GroupHandles;
      RetireWorkspaces();
      regions := map[];
      RetireGroups();
      groups := [];
      managed := false;
    }
  }

  lemma {:induction false} PickIgnoresLog(st: State, to: State, output: Handle, want: DeskSlot, g: nat)
    requires to == st.(activated := to.activated) && g <= |st.groups|
    ensures Pick(to, output, want, g) == Pick(st, output, want, g)
    decreases |st.groups| - g
  {
    if g < |st.groups| {
      PickIgnoresLog(st, to, output, want, g + 1);
    }
  }

  lemma {:induction false} PickKeyIgnoresLog(st: State, to: State, output: Handle, key: string, g: nat)
    requires to == st.(activated := to.activated) && g <= |st.groups|
    ensures PickKey(to, output, key, g) == PickKey(st, output, key, g)
    decreases |st.groups| - g
  {
    if g < |st.groups| {
      PickKeyIgnoresLog(st, to, output, key, g + 1);
    }
  }

  lemma NothingCovered(regions: map<Handle, DeskSlot>)
    ensures Covers([], regions, {})
  {
  }

  lemma CoversLive(entries: seq<Entry>, regions: map<Handle, DeskSlot>, seen: set<Handle>)
    requires Covers(entries, regions, seen) && regions.Keys <= seen
    ensures Covers(entries, regions, regions.Keys)
  {
  }
}
