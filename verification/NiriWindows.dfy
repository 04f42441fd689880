/**
  Niri's mirror of the compositor's windows, and the occupancy index derived from it.

  Occupancy is recomputed only by the events whose effect could show in it; the others skip the work.
 */
module NiriWindows {
  import opened Wrappers
  import opened NiriTitles

  type WindowId = nat
  type WorkspaceId = nat

  datatype WinState = WinState(wsId: Option<WorkspaceId>, appId: string, title: string, x: int, y: int)

  const NO_WINDOW := WinState(None, "", "", 0, 0)

  type Windows = map<WindowId, WinState>
  type Occupancy = map<WorkspaceId, nat>

  /** A decoded window object.  `None` means the field is missing; a workspace id that is not a number
      is `Some(None)`. */
  datatype WindowObject = WindowObject(
    id: Option<WindowId>,
    position: Option<(int, int)>,
    title: Option<string>,
    appId: Option<string>,
    windowClass: Option<string>,
    workspaceId: Option<Option<WorkspaceId>>)

  // ------------------------------------------------- occupancy from scratch

  function Occupants(windows: Windows, ws: WorkspaceId): set<WindowId> {
    set id | id in windows && windows[id].wsId == Some(ws)
  }

  function Parked(windows: Windows): set<WorkspaceId> {
    set id | id in windows && windows[id].wsId.Some? :: windows[id].wsId.value
  }

  /** How many windows sit on each workspace that has any. */
  function Tally(windows: Windows): Occupancy {
    map ws | ws in Parked(windows) :: |Occupants(windows, ws)|
  }

  predicate SameMember(a: WinState, b: WinState) {
    a.wsId == b.wsId && a.appId == b.appId
  }

  predicate SameMembership(a: Windows, b: Windows) {
    a.Keys == b.Keys && forall id :: id in a ==> SameMember(a[id], b[id])
  }

  /** What the desks show: which window of which application sits where. */
  function Shown(windows: Windows): map<WindowId, (WorkspaceId, string)> {
    map id | id in windows && windows[id].wsId.Some? :: (windows[id].wsId.value, windows[id].appId)
  }

  /** The tally is a function of what the desks show, so an event that leaves that alone may skip it. */
  lemma SameShownSameTally(a: Windows, b: Windows)
    requires Shown(a) == Shown(b)
    ensures Tally(a) == Tally(b)
  {
    forall id: WindowId
      ensures (id in a && a[id].wsId.Some?) == (id in b && b[id].wsId.Some?)
      ensures id in a && a[id].wsId.Some? ==> a[id].wsId == b[id].wsId
    {
      assert id in Shown(a) <==> id in a && a[id].wsId.Some?;
      assert id in Shown(b) <==> id in b && b[id].wsId.Some?;
    }
    assert Parked(a) == Parked(b);
    forall ws | ws in Parked(a)
      ensures Occupants(a, ws) == Occupants(b, ws)
    {
    }
  }

  /** A workspace is listed exactly when some window sits on it, and then with a positive count. */
  lemma TallyIsPositive(windows: Windows, ws: WorkspaceId)
    ensures ws in Tally(windows) <==> exists id :: id in windows && windows[id].wsId == Some(ws)
    ensures ws in Tally(windows) ==> Tally(windows)[ws] > 0
  {
    if ws in Tally(windows) {
      var id :| id in windows && windows[id].wsId == Some(ws);
      assert id in Occupants(windows, ws);
    }
  }

  lemma TallyOneMore(windows: Windows, done: set<WindowId>, id: WindowId)
    requires id in windows && id !in done
    ensures var before, after := Tally(Restrict(windows, done)), Tally(Restrict(windows, done + {id}));
            match windows[id].wsId
            case None => after == before
            case Some(ws) => after == before[ws := (if ws in before then before[ws] else 0) + 1]
  {
    var w0, w1 := Restrict(windows, done), Restrict(windows, done + {id});
    match windows[id].wsId
    case None =>
      assert Shown(w0) == Shown(w1);
      SameShownSameTally(w0, w1);
    case Some(ws) =>
      assert w1 == w0[id := windows[id]];
      ParkOne(w0, id, windows[id]);
  }

  lemma ParkedOneMore(windows: Windows, id: WindowId, st: WinState)
    requires id !in windows && st.wsId.Some?
    ensures Parked(windows[id := st]) == Parked(windows) + {st.wsId.value}
  {
    var after := windows[id := st];
    forall v | v in Parked(windows) + {st.wsId.value}
      ensures v in Parked(after)
    {
      if v in Parked(windows) {
        var i :| i in windows && windows[i].wsId == Some(v);
        assert i in after && after[i].wsId == Some(v);
      } else {
        assert id in after && after[id].wsId == Some(v);
      }
    }
    forall v | v in Parked(after)
      ensures v in Parked(windows) + {st.wsId.value}
    {
      var i :| i in after && after[i].wsId == Some(v);
      assert i != id ==> i in windows && windows[i].wsId == Some(v);
    }
  }

  lemma OccupantsOneMore(windows: Windows, id: WindowId, st: WinState)
    requires id !in windows && st.wsId.Some?
    ensures Occupants(windows[id := st], st.wsId.value) == Occupants(windows, st.wsId.value) + {id}
    ensures id !in Occupants(windows, st.wsId.value)
    ensures forall v :: v != st.wsId.value ==> Occupants(windows[id := st], v) == Occupants(windows, v)
  {
    forall v | v != st.wsId.value
      ensures Occupants(windows[id := st], v) == Occupants(windows, v)
    {
    }
  }

  lemma ParkOne(windows: Windows, id: WindowId, st: WinState)
    requires id !in windows && st.wsId.Some?
    ensures var before, ws := Tally(windows), st.wsId.value;
            Tally(windows[id := st]) == before[ws := (if ws in before then before[ws] else 0) + 1]
  {
    hide Parked, Occupants;
    ParkedOneMore(windows, id, st);
    OccupantsOneMore(windows, id, st);
    if st.wsId.value !in Parked(windows) {
      EmptyWorkspace(windows, st.wsId.value);
    }
  }

  lemma EmptyWorkspace(windows: Windows, ws: WorkspaceId)
    requires ws !in Parked(windows)
    ensures Occupants(windows, ws) == {}
  {
  }

  function Restrict(windows: Windows, ids: set<WindowId>): Windows {
    map id | id in windows && id in ids :: windows[id]
  }

  // ------------------------------------------------------------------ decoding

  function Merged(obj: WindowObject, st: WinState): WinState {
    WinState(
      (match obj.workspaceId case Some(Some(ws)) => Some(ws) case _ => st.wsId),
      (if obj.appId.Some? || obj.windowClass.Some? then
         if obj.appId.Some? && obj.appId.value != "" then obj.appId.value
         else if obj.windowClass.Some? then obj.windowClass.value else ""
       else st.appId),
      (if obj.title.Some? then OneLine(obj.title.value) else st.title),
      (if obj.position.Some? then obj.position.value.0 else st.x),
      (if obj.position.Some? then obj.position.value.1 else st.y))
  }

  predicate Touches(obj: WindowObject) {
    obj.position.Some? || obj.title.Some? || obj.appId.Some? || obj.windowClass.Some?
    || (obj.workspaceId.Some? && obj.workspaceId.value.Some?)
  }

  /** The first object with an id wins. */
  function Decoded(items: seq<WindowObject>): Windows {
    if items == [] then map[]
    else
      var front, item := Decoded(items[..|items| - 1]), items[|items| - 1];
      if item.id.None? || item.id.value in front then front
      else front[item.id.value := Merged(item, NO_WINDOW)]
  }

  // ------------------------------------------------------------------ the events

  /** `None` for `WindowsChanged` is a payload without a window array. */
  datatype Event =
    | WindowsChanged(items: Option<seq<WindowObject>>)
    | WindowOpened(obj: WindowObject)
    | LayoutItem(id: WindowId, x: int, y: int)
    | WindowClosed(id: WindowId)
    | Reset

  function Opened(windows: Windows, obj: WindowObject): Windows {
    if obj.id.None? || !Touches(obj) then windows
    else
      var id := obj.id.value;
      windows[id := Merged(obj, if id in windows then windows[id] else NO_WINDOW)]
  }

  function Next(windows: Windows, e: Event): Windows {
    match e
    case WindowsChanged(items) => if items.None? then windows else Decoded(items.value)
    case WindowOpened(obj) => Opened(windows, obj)
    case LayoutItem(id, x, y) => if id in windows then windows[id := windows[id].(x := x, y := y)] else windows
    case WindowClosed(id) => windows - {id}
    case Reset => map[]
  }

  /** Whether the event counts the windows anew. */
  predicate Recounts(windows: Windows, e: Event) {
    match e
    case WindowsChanged(_) => !SameMembership(Next(windows, e), windows)
    case WindowOpened(obj) =>
      && obj.id.Some? && Touches(obj)
      && var id := obj.id.value;
         var st := Next(windows, e)[id];
         if id in windows then !SameMember(windows[id], st) else st.wsId.Some? || st.appId != ""
    case LayoutItem(_, _, _) => false
    case WindowClosed(id) => id in windows
    case Reset => false
  }

  datatype State = State(windows: Windows, occupancy: Occupancy)

  predicate Agrees(st: State) {
    st.occupancy == Tally(st.windows)
  }

  function Step(st: State, e: Event): State {
    var windows := Next(st.windows, e);
    State(windows, if Recounts(st.windows, e) then Tally(windows) else st.occupancy)
  }

  /** What neither resets nor counts anew leaves alone what the desks show. */
  lemma QuietStep(windows: Windows, e: Event)
    requires !e.Reset? && !Recounts(windows, e)
    ensures Shown(Next(windows, e)) == Shown(windows) && Tally(Next(windows, e)) == Tally(windows)
  {
    hide Tally, Merged, Decoded;
    assert Shown(Next(windows, e)) == Shown(windows);
    SameShownSameTally(Next(windows, e), windows);
  }

  lemma QuietUnlessCounted(windows: Windows, e: Event)
    ensures !e.Reset? && !Recounts(windows, e) ==> Tally(Next(windows, e)) == Tally(windows)
  {
    hide Tally, Next, Recounts;
    if !e.Reset? && !Recounts(windows, e) {
      QuietStep(windows, e);
    }
  }

  lemma TallyIsEmptyExactlyWhen(windows: Windows)
    ensures Tally(windows) == map[] <==> Parked(windows) == {}
  {
    assert Tally(windows).Keys == Parked(windows);
    assert Tally(windows) == map[] <==> Tally(windows).Keys == {};
  }

  lemma ShownParks(a: Windows, b: Windows)
    requires Tally(a) == Tally(b)
    ensures Parked(a) == Parked(b)
  {
    assert Tally(a).Keys == Parked(a) && Tally(b).Keys == Parked(b);
  }

  // ------------------------------------------------------- the table said outright

  /** The window `from` with what the object gives put over it; a missing field, and a workspace id that is no
      number, leave what was there. */
  ghost predicate Updates(obj: WindowObject, from: WinState, now: WinState) {
    && now.wsId == (if obj.workspaceId.Some? && obj.workspaceId.value.Some? then obj.workspaceId.value else from.wsId)
    && now.title == (if obj.title.Some? then OneLine(obj.title.value) else from.title)
    && (obj.position.Some? ==> (now.x, now.y) == obj.position.value)
    && (obj.position.None? ==> now.x == from.x && now.y == from.y)
    && (obj.appId.None? && obj.windowClass.None? ==> now.appId == from.appId)
    && (obj.appId.Some? && obj.appId.value != "" ==> now.appId == obj.appId.value)
    && ((obj.appId.None? || obj.appId.value == "") && obj.windowClass.Some? ==> now.appId == obj.windowClass.value)
    && (obj.appId == Some("") && obj.windowClass.None? ==> now.appId == "")
  }

  /** An opened or changed window is put over what is known of it, or over an empty record; an object without an id,
      or with nothing but one, changes nothing, and no event of this kind touches another window. */
  lemma OpenedSaid(st: State, obj: WindowObject)
    ensures var now := Step(st, WindowOpened(obj)).windows;
            if obj.id.None? || (obj.position.None? && obj.title.None? && obj.appId.None? && obj.windowClass.None?
                                && (obj.workspaceId.None? || obj.workspaceId.value.None?))
            then now == st.windows
            else
              var id := obj.id.value;
              && now.Keys == st.windows.Keys + {id}
              && Updates(obj, if id in st.windows then st.windows[id] else WinState(None, "", "", 0, 0), now[id])
              && forall other :: other in st.windows && other != id ==> now[other] == st.windows[other]
  {
  }

  /** The listener is told, and windows are counted anew, when a window comes with a workspace or an application, when a
      known one changes either, when a list names other windows or puts either differently, and when a known one
      closes; never for titles and positions. */
  lemma ToldSaid(windows: Windows, obj: WindowObject, items: seq<WindowObject>, id: WindowId, x: int, y: int)
    ensures var now := Next(windows, WindowOpened(obj));
            Recounts(windows, WindowOpened(obj))
            <==> obj.id.Some? && obj.id.value in now
                 && var key := obj.id.value;
                    if key in windows then now[key].wsId != windows[key].wsId || now[key].appId != windows[key].appId
                    else now[key].wsId.Some? || now[key].appId != ""
    ensures var now := Decoded(items);
            Recounts(windows, WindowsChanged(Some(items)))
            <==> now.Keys != windows.Keys
                 || exists key :: key in windows && key in now
                      && (now[key].wsId != windows[key].wsId || now[key].appId != windows[key].appId)
    ensures !Recounts(windows, WindowsChanged(None)) && !Recounts(windows, LayoutItem(id, x, y)) && !Recounts(windows, Reset)
    ensures Recounts(windows, WindowClosed(id)) <==> id in windows
  {
    hide Merged, Decoded;
  }

  lemma DecodedSnoc(front: seq<WindowObject>, last: WindowObject)
    ensures Decoded(front + [last])
            == if last.id.None? || last.id.value in Decoded(front) then Decoded(front)
               else Decoded(front)[last.id.value := Merged(last, NO_WINDOW)]
  {
    assert (front + [last])[..|front|] == front;
  }

  lemma {:induction false} DecodedHas(items: seq<WindowObject>, id: WindowId)
    ensures id in Decoded(items) <==> exists k :: 0 <= k < |items| && items[k].id == Some(id)
    decreases |items|
  {
    if items != [] {
      hide Decoded, Merged;
      var front, last := items[..|items| - 1], items[|items| - 1];
      DecodedHas(front, id);
      DecodedSnoc(front, last);
      assert items == front + [last];
      assert forall k :: 0 <= k < |front| ==> front[k] == items[k];
    }
  }

  /** A list of windows replaces the table: every id in it once, as the first object with it says. */
  lemma {:induction false} DecodedSaid(items: seq<WindowObject>, k: nat)
    requires k < |items| && items[k].id.Some? && forall j :: 0 <= j < k ==> items[j].id != items[k].id
    ensures var id := items[k].id.value;
            id in Decoded(items) && Updates(items[k], WinState(None, "", "", 0, 0), Decoded(items)[id])
    decreases |items|
  {
    hide Decoded, Merged, Updates;
    var id, front, last := items[k].id.value, items[..|items| - 1], items[|items| - 1];
    assert items == front + [last];
    DecodedSnoc(front, last);
    if k < |front| {
      DecodedSaid(front, k);
    } else {
      DecodedHas(front, id);
      MergedUpdates(last);
    }
  }

  lemma MergedUpdates(obj: WindowObject)
    ensures Updates(obj, WinState(None, "", "", 0, 0), Merged(obj, NO_WINDOW))
  {
  }

  // ------------------------------------------------------------ runs with resets

  const EMPTY := State(map[], map[])

  function After(run: seq<Event>): State {
    if run == [] then EMPTY else Step(After(run[..|run| - 1]), run[|run| - 1])
  }

  /** Event `k` is a reset with a window parked on some workspace, and nothing since has counted anew. */
  predicate Forgotten(run: seq<Event>, k: nat)
    requires k < |run|
  {
    && run[k].Reset? && Parked(After(run[..k]).windows) != {}
    && forall j :: k < j < |run| ==> !Recounts(After(run[..j]).windows, run[j])
  }

  lemma ForgottenInFront(run: seq<Event>, k: nat)
    requires k < |run| - 1
    ensures Forgotten(run, k)
            <==> Forgotten(run[..|run| - 1], k) && !Recounts(After(run[..|run| - 1]).windows, run[|run| - 1])
  {
    hide After, Recounts, Parked;
    var front := run[..|run| - 1];
    forall j | 0 <= j < |run|
      ensures j < |front| ==> front[..j] == run[..j] && front[j] == run[j]
    {
    }
    if Forgotten(run, k) {
      forall j | k < j < |front|
        ensures !Recounts(After(front[..j]).windows, front[j])
      {
        assert !Recounts(After(run[..j]).windows, run[j]);
      }
    }
    if Forgotten(front, k) && !Recounts(After(front).windows, run[|run| - 1]) {
      forall j | k < j < |run|
        ensures !Recounts(After(run[..j]).windows, run[j])
      {
        if j < |front| {
          assert !Recounts(After(front[..j]).windows, front[j]);
        }
      }
    }
  }

  /** Occupancy is wrong after a run exactly when a reset left counts behind and nothing has counted anew
      since; then no window is parked anywhere. */
  lemma {:induction false} AgreesExactlyWhen(run: seq<Event>)
    ensures !Agrees(After(run)) <==> exists k :: 0 <= k < |run| && Forgotten(run, k)
    ensures !Agrees(After(run)) ==> Parked(After(run).windows) == {}
    decreases |run|
  {
    if run == [] {
      assert Parked(EMPTY.windows) == {};
      TallyIsEmptyExactlyWhen(EMPTY.windows);
    } else {
      hide Forgotten, Recounts, Next, Tally, Parked, After;
      var front, e := run[..|run| - 1], run[|run| - 1];
      AgreesExactlyWhen(front);
      LastStep(run);
      AgreesAfterStep(After(front), e);
      LastForgotten(run);
      forall k | 0 <= k < |run| - 1
        ensures Forgotten(run, k) <==> Forgotten(front, k) && !Recounts(After(front).windows, e)
      {
        ForgottenInFront(run, k);
      }
    }
  }

  lemma LastStep(run: seq<Event>)
    requires run != []
    ensures After(run) == Step(After(run[..|run| - 1]), run[|run| - 1])
  {
  }

  lemma LastForgotten(run: seq<Event>)
    requires run != []
    ensures Forgotten(run, |run| - 1)
            <==> run[|run| - 1].Reset? && Parked(After(run[..|run| - 1]).windows) != {}
    ensures run[|run| - 1].Reset? ==> !Recounts(After(run[..|run| - 1]).windows, run[|run| - 1])
  {
    hide After, Parked;
  }

  lemma AgreesAfterStep(st: State, e: Event)
    requires !Agrees(st) ==> Parked(st.windows) == {}
    ensures Agrees(Step(st, e)) <==> Recounts(st.windows, e) || (Agrees(st) && (e.Reset? ==> Parked(st.windows) == {}))
    ensures !Agrees(Step(st, e)) ==> Parked(Step(st, e).windows) == {}
  {
    hide Tally, Parked, Recounts;
    if e.Reset? {
      NothingParked();
      TallyIsEmptyExactlyWhen(st.windows);
      ResetRecountsNothing(st.windows);
    } else if !Recounts(st.windows, e) {
      QuietStep(st.windows, e);
      ShownParks(Next(st.windows, e), st.windows);
    }
  }

  lemma NothingParked()
    ensures Parked(map[]) == {} && Tally(map[]) == map[]
  {
    assert Parked(map[]) == {};
  }

  lemma ResetRecountsNothing(windows: Windows)
    ensures !Recounts(windows, Reset)
  {
  }

  /** One window on workspace 1, a reset, and the news that there are no windows: the count stays. */
  lemma ResetLeavesACount()
    ensures var first := WindowOpened(WindowObject(Some(7), None, None, None, None, Some(Some(1))));
            var run := [first, Reset, WindowsChanged(Some([]))];
            After(run) == State(map[], map[1 := 1]) && !Agrees(After(run))
  {
    hide Tally, Parked, Recounts, Decoded, Merged;
    var obj := WindowObject(Some(7), None, None, None, None, Some(Some(1)));
    var none: seq<Event> := [];
    var run := [WindowOpened(obj), Reset, WindowsChanged(Some([]))];
    assert run[..0] == none && run[..1] == [WindowOpened(obj)] && run[..2] == [WindowOpened(obj), Reset] && run[..3] == run;
    assert [WindowOpened(obj)][..0] == none && [WindowOpened(obj), Reset][..1] == [WindowOpened(obj)];
    OpenedOnOne(obj);
    NothingParked();
    NoWindowsAgain();
    ResetRecountsNothing(map[7 := WinState(Some(1), "", "", 0, 0)]);
    assert After([WindowOpened(obj)]) == State(map[7 := WinState(Some(1), "", "", 0, 0)], map[1 := 1]);
    assert After([WindowOpened(obj), Reset]) == State(map[], map[1 := 1]);
    assert 1 in map[1 := 1];
  }

  lemma OpenedOnOne(obj: WindowObject)
    requires obj == WindowObject(Some(7), None, None, None, None, Some(Some(1)))
    ensures var windows: Windows := map[7 := WinState(Some(1), "", "", 0, 0)];
            && Next(map[], WindowOpened(obj)) == windows && Recounts(map[], WindowOpened(obj))
            && Tally(windows) == map[1 := 1]
  {
    var windows: Windows := map[7 := WinState(Some(1), "", "", 0, 0)];
    assert Occupants(windows, 1) == {7} && Parked(windows) == {1};
  }

  lemma NoWindowsAgain()
    ensures Next(map[], WindowsChanged(Some([]))) == map[] && !Recounts(map[], WindowsChanged(Some([])))
  {
  }

  // ----------------------------------------------------------------- the mirror

  class Mirror {
    var windows: Windows
    var occupancy: Occupancy

    function Now(): State
      reads this
    {
      State(windows, occupancy)
    }

    constructor ()
      ensures Now() == EMPTY
    {
      windows, occupancy := map[], map[];
    }

    method RefreshOccupancy()
      modifies this`occupancy
      ensures occupancy == Tally(windows)
    {
      hide Tally;
      occupancy := map[];
      ghost var done: set<WindowId> := {};
      var left := windows.Keys;
      NothingToTally(windows);
      while left != {}
        invariant left <= windows.Keys && done == windows.Keys - left
        invariant occupancy == Tally(Restrict(windows, done))
      {
        var id :| id in left;
        TallyOneMore(windows, done, id);
        match windows[id].wsId {
          case None =>
          case Some(ws) =>
            occupancy := occupancy[ws := (if ws in occupancy then occupancy[ws] else 0) + 1];
        }
        left := left - {id};
        done := done + {id};
      }
      assert Restrict(windows, done) == windows;
    }

    /** `noteWindowsChanged`. */
    method NoteWindowsChanged(items: Option<seq<WindowObject>>) returns (changed: bool)
      modifies this
      ensures Now() == Step(old(Now()), WindowsChanged(items))
      ensures changed == Recounts(old(windows), WindowsChanged(items))
      ensures Agrees(Now()) == (changed || Agrees(old(Now())))
    {
      hide Tally, Decoded;
      QuietUnlessCounted(windows, WindowsChanged(items));
      if items.None? { return false; }
      var next := Decoded(items.value);
      if next == windows { return false; }
      var same := CompareMembership(next, windows);
      windows := next;
      if !same {
        RefreshOccupancy();
      }
      return !same;
    }

    /** `handleWindowOpened`. */
    method HandleWindowOpened(obj: WindowObject) returns (changed: bool)
      modifies this
      ensures Now() == Step(old(Now()), WindowOpened(obj))
      ensures changed == Recounts(old(windows), WindowOpened(obj))
      ensures Agrees(Now()) == (changed || Agrees(old(Now())))
    {
      hide Tally, Merged;
      QuietUnlessCounted(windows, WindowOpened(obj));
      if obj.id.None? { return false; }
      var id := obj.id.value;
      var known := id in windows;
      var before := if known then windows[id] else NO_WINDOW;
      var st := Merged(obj, before);
      if !Touches(obj) { return false; }
      if known && windows[id] == st {
        assert windows[id := st] == windows;
        return false;
      }
      var membersChanged := if known then !SameMember(windows[id], st) else st.wsId.Some? || st.appId != "";
      windows := windows[id := st];
      if membersChanged {
        RefreshOccupancy();
      }
      return membersChanged;
    }

    /** `applyLayoutItem`: only the position of a known window moves. */
    method ApplyLayoutItem(id: WindowId, x: int, y: int) returns (changed: bool)
      modifies this`windows
      ensures Now() == Step(old(Now()), LayoutItem(id, x, y))
      ensures changed <==> windows != old(windows)
      ensures Agrees(Now()) == Agrees(old(Now()))
    {
      hide Tally;
      QuietStep(windows, LayoutItem(id, x, y));
      if id !in windows { return false; }
      var st := windows[id];
      if st.x == x && st.y == y {
        assert windows[id := st] == windows;
        return false;
      }
      ghost var before := windows;
      windows := windows[id := st.(x := x, y := y)];
      assert windows[id] != before[id];
      return true;
    }

    /** `noteWindowClosed`. */
    method NoteWindowClosed(id: WindowId) returns (changed: bool)
      modifies this
      ensures Now() == Step(old(Now()), WindowClosed(id))
      ensures changed == Recounts(old(windows), WindowClosed(id))
      ensures Agrees(Now()) == (changed || Agrees(old(Now())))
    {
      hide Tally;
      QuietUnlessCounted(windows, WindowClosed(id));
      if id !in windows {
        assert windows - {id} == windows;
        return false;
      }
      windows := windows - {id};
      RefreshOccupancy();
      return true;
    }

    /** `resetState` forgets the windows but not their tally. */
    method ResetState()
      modifies this`windows
      ensures Now() == Step(old(Now()), Reset)
      ensures Agrees(old(Now())) ==> (Agrees(Now()) <==> Parked(old(windows)) == {})
    {
      hide Tally, Parked;
      NothingParked();
      TallyIsEmptyExactlyWhen(windows);
      windows := map[];
    }
  }

  lemma NothingToTally(windows: Windows)
    ensures Tally(Restrict(windows, {})) == map[]
  {
    assert Parked(Restrict(windows, {})) == {};
  }

  /** The loop of `sameWindowMembership`: equal sizes, and every window of the one matched in the other. */
  method CompareMembership(a: Windows, b: Windows) returns (same: bool)
    ensures same <==> SameMembership(a, b)
  {
    if |a| != |b| {
      assert |a.Keys| != |b.Keys|;
      return false;
    }
    var left := a.Keys;
    while left != {}
      invariant left <= a.Keys
      invariant forall id :: id in a && id !in left ==> id in b && SameMember(a[id], b[id])
    {
      var id :| id in left;
      if id !in b || !SameMember(a[id], b[id]) { return false; }
      left := left - {id};
    }
    SubsetOfSameSize(a.Keys, b.Keys);
    return true;
  }

  lemma SubsetOfSameSize<T>(a: set<T>, b: set<T>)
    requires a <= b && |a| == |b|
    ensures a == b
  {
    assert |b - a| == 0;
  }
}
