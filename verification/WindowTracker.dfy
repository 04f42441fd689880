/**
  The Hyprland window tracker: which foreign-toplevel handle carries which window id.

  For every live handle without an id the tracker asks the compositor; the answer (an address or a
  failure) arrives later and settles the request.  Handles come in two families, with two maps each.
 */
module WindowTracker {
  import opened Wrappers
  import opened WindowIds

  type Handle = nat   // 0 is the null pointer
  type Request = nat

  datatype Kind = Ext | Wlr

  datatype Pending = Pending(kind: Kind, handle: Handle)

  /** The paired maps of one handle family. */
  datatype Family = Family(toId: map<Handle, string>, byId: map<string, Handle>)

  /** `destroyed` records every request the tracker gave back, `next` is the compositor's next request. */
  datatype State = State(managed: bool, ext: Family, wlr: Family,
                         pending: map<Request, Pending>, destroyed: multiset<Request>, next: Request,
                         notified: nat)
  {
    function Get(kind: Kind): Family {
      if kind == Ext then ext else wlr
    }

    function Set(kind: Kind, family: Family): State {
      if kind == Ext then this.(ext := family) else this.(wlr := family)
    }
  }

  const FRESH := State(false, Family(map[], map[]), Family(map[], map[]), map[], multiset{}, 0, 0)

  // --------------------------------------------------------------- the steps

  predicate IsPending(st: State, kind: Kind, handle: Handle) {
    exists r :: r in st.pending && st.pending[r] == Pending(kind, handle)
  }

  /** `requestMapping`; the compositor may refuse to create the request. */
  function Requested(st: State, kind: Kind, handle: Handle, refused: set<Handle>): State {
    if !st.managed || IsPending(st, kind, handle) || handle in refused then st
    else st.(pending := st.pending[st.next := Pending(kind, handle)], next := st.next + 1)
  }

  function RequestedAll(st: State, kind: Kind, handles: seq<Handle>, refused: set<Handle>): State {
    if handles == [] then st
    else
      var before := RequestedAll(st, kind, handles[..|handles| - 1], refused);
      var handle := handles[|handles| - 1];
      if handle == 0 || handle in before.Get(kind).toId then before
      else Requested(before, kind, handle, refused)
  }

  function Live(handles: seq<Handle>): set<Handle> {
    set h | h in handles && h != 0
  }

  function Without(family: Family, dropped: set<Handle>): Family {
    Family(family.toId - dropped, family.byId - set h | h in dropped && h in family.toId :: family.toId[h])
  }

  function Orphans(st: State, kind: Kind, live: set<Handle>): set<Request> {
    set r | r in st.pending && st.pending[r].kind == kind && st.pending[r].handle != 0
      && st.pending[r].handle !in live
  }

  function Abandoned(st: State, gone: set<Request>): State {
    st.(pending := st.pending - gone, destroyed := st.destroyed + multiset(st.pending.Keys * gone))
  }

  /** `syncHandles`. */
  function Synced(st: State, kind: Kind, handles: seq<Handle>, refused: set<Handle>): State {
    if !st.managed then st
    else
      var asked := RequestedAll(st, kind, handles, refused);
      var live := Live(handles);
      var kept := asked.Set(kind, Without(asked.Get(kind), asked.Get(kind).toId.Keys - live));
      Abandoned(kept, Orphans(kept, kind, live))
  }

  /** `assignId`, with the branch that retires the id a handle already had in both families. */
  function Assigned(st: State, kind: Kind, handle: Handle, address: nat): State {
    var id := FmtAddress(address);
    var cleared :=
      if handle in st.Get(kind).toId then
        var former := st.Get(kind).toId[handle];
        st.(ext := st.ext.(byId := st.ext.byId - {former}), wlr := st.wlr.(byId := st.wlr.byId - {former}))
      else st;
    var family := cleared.Get(kind);
    cleared.Set(kind, Family(family.toId[handle := id], family.byId[id := handle])).(notified := st.notified + 1)
  }

  /** `onAddress`. */
  function Settled(st: State, r: Request, address: nat): State {
    if r !in st.pending then st
    else
      var arrived := st.pending[r];
      var taken := st.(pending := st.pending - {r});
      var done := if arrived.handle == 0 then taken else Assigned(taken, arrived.kind, arrived.handle, address);
      done.(destroyed := done.destroyed + multiset{r})
  }

  /** `onFail`. */
  function Failed(st: State, r: Request): State {
    Abandoned(st, {r})
  }

  function TornDown(st: State): State {
    st.(managed := false)
  }

  function IdForHandle(family: Family, handle: Handle): Option<string> {
    if handle == 0 || handle !in family.toId || family.toId[handle] == "" then None
    else Some(family.toId[handle])
  }

  function HandleForId(family: Family, id: string): Handle {
    var key := CanonicalWindowId(id);
    if key == "" || key !in family.byId then 0 else family.byId[key]
  }

  // -------------------------------------------------------------- the tracker

  class Tracker {
    var managed: bool
    var extToId: map<Handle, string>
    var idToExt: map<string, Handle>
    var wlrToId: map<Handle, string>
    var idToWlr: map<string, Handle>
    var pending: map<Request, Pending>
    var destroyed: multiset<Request>
    var next: Request
    var notified: nat

    ghost function Now(): State
      reads this
    {
      State(managed, Family(extToId, idToExt), Family(wlrToId, idToWlr), pending, destroyed, next, notified)
    }

    constructor ()
      ensures Now() == FRESH
    {
      managed, extToId, idToExt, wlrToId, idToWlr := false, map[], map[], map[], map[];
      pending, destroyed, next, notified := map[], multiset{}, 0, 0;
    }

    method Setup()
      modifies this
      ensures Now() == old(Now()).(managed := true)
    {
      managed := true;
    }

    /** The destructor: the manager is given back, and no request is. */
    method TearDown()
      modifies this
      ensures Now() == TornDown(old(Now()))
    {
      managed := false;
    }

    method RequestMapping(kind: Kind, handle: Handle, refused: set<Handle>)
      modifies this
      ensures Now() == Requested(old(Now()), kind, handle, refused)
    {
      if !managed { return; }
      if exists r :: r in pending && pending[r] == Pending(kind, handle) { return; }
      if handle in refused { return; }
      pending := pending[next := Pending(kind, handle)];
      next := next + 1;
    }

    method Abandon(r: Request)
      modifies this
      ensures Now() == Failed(old(Now()), r)
    {
      if r !in pending {
        assert pending - {r} == pending;
        assert pending.Keys * {r} == {};
        return;
      }
      assert pending.Keys * {r} == {r};
      destroyed := destroyed + multiset{r};
      pending := pending - {r};
    }

    /** The first loop of `syncHandles`: ask for every live handle that has no id. */
    method RequestMissing(kind: Kind, handles: seq<Handle>, refused: set<Handle>) returns (live: set<Handle>)
      modifies this
      ensures Now() == RequestedAll(old(Now()), kind, handles, refused)
      ensures live == Live(handles)
    {
      hide Requested;
      live := {};
      var i := 0;
      assert handles[..0] == [];
      while i < |handles|
        invariant 0 <= i <= |handles|
        invariant Now() == RequestedAll(old(Now()), kind, handles[..i], refused)
        invariant live == Live(handles[..i])
      {
        var handle := handles[i];
        assert handles[..i + 1] == handles[..i] + [handle];
        assert handles[..i + 1][..i] == handles[..i];
        if handle != 0 {
          live := live + {handle};
          var known := if kind == Ext then handle in extToId else handle in wlrToId;
          if !known {
            RequestMapping(kind, handle, refused);
          }
        }
        i := i + 1;
      }
      assert handles[..i] == handles;
    }

    method SyncHandles(kind: Kind, handles: seq<Handle>, refused: set<Handle>)
      modifies this
      ensures Now() == Synced(old(Now()), kind, handles, refused)
    {
      hide RequestedAll, Without, Live, Abandoned;
      if !managed { return; }
      var live := RequestMissing(kind, handles, refused);
      if kind == Ext {
        extToId, idToExt := DropHandles(extToId, idToExt, live);
      } else {
        wlrToId, idToWlr := DropHandles(wlrToId, idToWlr, live);
      }
      var abandoned := set r | r in pending && pending[r].kind == kind && pending[r].handle != 0
        && pending[r].handle !in live;
      AbandonAll(abandoned);
    }

    method AbandonAll(gone: set<Request>)
      requires gone <= pending.Keys
      modifies this
      ensures Now() == Abandoned(old(Now()), gone)
    {
      hide Abandoned;
      ghost var start := Now();
      var left := gone;
      AbandonNone(start);
      assert gone - gone == {};
      while left != {}
        invariant left <= gone <= start.pending.Keys
        invariant Now() == Abandoned(start, gone - left)
      {
        var r :| r in left;
        Abandon(r);
        AbandonOneMore(start, gone - left, r);
        assert gone - left + {r} == gone - (left - {r});
        left := left - {r};
      }
      assert gone - left == gone;
    }

    method AssignId(kind: Kind, handle: Handle, address: nat)
      requires handle != 0
      modifies this
      ensures Now() == Assigned(old(Now()), kind, handle, address)
    {
      hide FmtAddress;
      var id := FmtAddress(address);
      if kind == Ext && handle in extToId {
        idToWlr, idToExt := idToWlr - {extToId[handle]}, idToExt - {extToId[handle]};
      } else if kind == Wlr && handle in wlrToId {
        idToWlr, idToExt := idToWlr - {wlrToId[handle]}, idToExt - {wlrToId[handle]};
      }
      if kind == Ext {
        idToExt, extToId := idToExt[id := handle], extToId[handle := id];
      } else {
        idToWlr, wlrToId := idToWlr[id := handle], wlrToId[handle := id];
      }
      notified := notified + 1;
    }

    method OnAddress(r: Request, hi: nat, lo: nat)
      requires hi < TWO_TO_THE_32 && lo < TWO_TO_THE_32
      modifies this
      ensures Now() == Settled(old(Now()), r, CoalesceAddress(hi, lo))
    {
      if r !in pending { return; }
      var arrived := pending[r];
      pending := pending - {r};
      if arrived.handle != 0 {
        AssignId(arrived.kind, arrived.handle, CoalesceAddress(hi, lo));
      }
      destroyed := destroyed + multiset{r};
    }
  }

  /** The collecting and erasing loops over one family's pair of maps. */
  method DropHandles(toId: map<Handle, string>, byId: map<string, Handle>, live: set<Handle>)
    returns (toId': map<Handle, string>, byId': map<string, Handle>)
    ensures Family(toId', byId') == Without(Family(toId, byId), toId.Keys - live)
  {
    ghost var family := Family(toId, byId);
    toId', byId' := toId, byId;
    var dropped := toId.Keys - live;
    assert toId - {} == toId && byId - {} == byId;
    while dropped != {}
      invariant dropped <= toId.Keys - live
      invariant toId' == toId - (toId.Keys - live - dropped)
      invariant byId' == byId - set h | h in toId.Keys - live - dropped :: toId[h]
    {
      var handle :| handle in dropped;
      byId' := byId' - {toId[handle]};
      toId' := toId' - {handle};
      dropped := dropped - {handle};
    }
    assert toId.Keys - live - dropped == toId.Keys - live;
  }

  lemma AbandonNone(st: State)
    ensures Abandoned(st, {}) == st
  {
    assert st.pending - {} == st.pending && st.pending.Keys * {} == {};
  }

  lemma AbandonOneMore(st: State, gone: set<Request>, r: Request)
    requires r in st.pending && r !in gone
    ensures Abandoned(Abandoned(st, gone), {r}) == Abandoned(st, gone + {r})
  {
    assert (st.pending - gone) - {r} == st.pending - (gone + {r});
    assert (st.pending - gone).Keys * {r} == {r};
    assert st.pending.Keys * (gone + {r}) == st.pending.Keys * gone + {r};
  }

  // ----------------------------------------------------------- what is kept

  ghost predicate IsAddressId(id: string) {
    exists a: nat :: a < TWO_TO_THE_64 && id == FmtAddress(a)
  }

  ghost predicate FamilyInv(family: Family) {
    && (forall h :: h in family.toId ==> h != 0 && IsAddressId(family.toId[h]))
    && (forall id :: id in family.byId ==> family.byId[id] in family.toId && family.toId[family.byId[id]] == id)
  }

  /** At most one request per kind and handle, none for a resolved handle; every request the compositor
      ever made is pending or was destroyed, once; an id leads to a handle that has it. */
  ghost predicate Inv(st: State) {
    && OnePerHandle(st)
    && OnlyUnresolved(st)
    && Accounted(st)
    && FamilyInv(st.ext) && FamilyInv(st.wlr)
  }

  ghost predicate OnePerHandle(st: State) {
    forall r, q :: r in st.pending && q in st.pending && st.pending[r] == st.pending[q] ==> r == q
  }

  ghost predicate OnlyUnresolved(st: State) {
    forall r :: r in st.pending ==> st.pending[r].handle != 0 && st.pending[r].handle !in st.Get(st.pending[r].kind).toId
  }

  ghost predicate Accounted(st: State) {
    forall r: Request :: PendingOrDestroyedOnce(st, r)
  }

  ghost predicate PendingOrDestroyedOnce(st: State, r: Request) {
    (if r in st.pending then 1 else 0) + st.destroyed[r] == if r < st.next then 1 else 0
  }

  /** Every resolved handle is found again under its id. */
  ghost predicate Paired(family: Family) {
    forall h :: h in family.toId ==> family.toId[h] in family.byId && family.byId[family.toId[h]] == h
  }

  lemma FreshInv()
    ensures Inv(FRESH) && Paired(FRESH.ext) && Paired(FRESH.wlr)
  {
  }

  lemma RequestedKeepsInv(st: State, kind: Kind, handle: Handle, refused: set<Handle>)
    requires Inv(st) && handle != 0 && handle !in st.Get(kind).toId
    ensures Inv(Requested(st, kind, handle, refused))
  {
    var after := Requested(st, kind, handle, refused);
    assert PendingOrDestroyedOnce(st, st.next);
    forall r: Request
      ensures PendingOrDestroyedOnce(after, r)
    {
      assert PendingOrDestroyedOnce(st, r);
    }
  }

  lemma {:induction false} RequestedAllKeepsInv(st: State, kind: Kind, handles: seq<Handle>, refused: set<Handle>)
    requires Inv(st)
    ensures Inv(RequestedAll(st, kind, handles, refused))
    ensures RequestedAll(st, kind, handles, refused).ext == st.ext
    ensures RequestedAll(st, kind, handles, refused).wlr == st.wlr
    decreases |handles|
  {
    if handles != [] {
      var front, handle := handles[..|handles| - 1], handles[|handles| - 1];
      RequestedAllKeepsInv(st, kind, front, refused);
      var before := RequestedAll(st, kind, front, refused);
      if handle != 0 && handle !in before.Get(kind).toId {
        RequestedKeepsInv(before, kind, handle, refused);
      }
    }
  }

  lemma AbandonedKeepsInv(st: State, gone: set<Request>)
    requires Inv(st)
    ensures Inv(Abandoned(st, gone))
  {
    var after := Abandoned(st, gone);
    forall r: Request
      ensures PendingOrDestroyedOnce(after, r)
    {
      assert PendingOrDestroyedOnce(st, r);
    }
  }

  lemma WithoutKeepsFamily(family: Family, dropped: set<Handle>)
    requires FamilyInv(family)
    ensures FamilyInv(Without(family, dropped))
    ensures Paired(family) ==> Paired(Without(family, dropped))
  {
    var less := Without(family, dropped);
    forall id | id in less.byId
      ensures less.byId[id] in less.toId && less.toId[less.byId[id]] == id
    {
      var h := family.byId[id];
      assert family.toId[h] == id;
    }
    if Paired(family) {
      forall h | h in less.toId
        ensures less.toId[h] in less.byId && less.byId[less.toId[h]] == h
      {
        assert family.byId[family.toId[h]] == h;
      }
    }
  }

  lemma WithoutKeepsInv(st: State, kind: Kind, dropped: set<Handle>)
    requires Inv(st)
    ensures Inv(st.Set(kind, Without(st.Get(kind), dropped)))
    ensures Paired(st.Get(kind)) ==> Paired(Without(st.Get(kind), dropped))
  {
    hide FamilyInv, Paired;
    WithoutKeepsFamily(st.Get(kind), dropped);
    var after := st.Set(kind, Without(st.Get(kind), dropped));
    forall r: Request
      ensures PendingOrDestroyedOnce(after, r)
    {
      assert PendingOrDestroyedOnce(st, r);
    }
  }

  /** A sync keeps all of it, whichever handles appear and vanish. */
  lemma SyncKeepsInv(st: State, kind: Kind, handles: seq<Handle>, refused: set<Handle>)
    requires Inv(st)
    ensures Inv(Synced(st, kind, handles, refused))
    ensures Paired(st.ext) ==> Paired(Synced(st, kind, handles, refused).ext)
    ensures Paired(st.wlr) ==> Paired(Synced(st, kind, handles, refused).wlr)
  {
    if st.managed {
      var asked := RequestedAll(st, kind, handles, refused);
      RequestedAllKeepsInv(st, kind, handles, refused);
      var gone := asked.Get(kind).toId.Keys - Live(handles);
      WithoutKeepsInv(asked, kind, gone);
      var kept := asked.Set(kind, Without(asked.Get(kind), gone));
      AbandonedKeepsInv(kept, Orphans(kept, kind, Live(handles)));
    }
  }

  /** After a sync nothing is kept for a handle that is gone. */
  lemma SyncForgetsTheDead(st: State, kind: Kind, handles: seq<Handle>, refused: set<Handle>)
    requires Inv(st) && st.managed
    ensures forall h :: h in Synced(st, kind, handles, refused).Get(kind).toId <==> h in st.Get(kind).toId && h in handles
    ensures forall r :: r in Synced(st, kind, handles, refused).pending ==>
              var p := Synced(st, kind, handles, refused).pending[r];
              p.kind == kind ==> p.handle in handles
  {
    RequestedAllKeepsInv(st, kind, handles, refused);
    var asked := RequestedAll(st, kind, handles, refused);
    var gone := asked.Get(kind).toId.Keys - Live(handles);
    WithoutKeepsInv(asked, kind, gone);
  }

  /** When an address arrives for a pending request its handle has no id yet, so `assignId` never
      supersedes one. */
  lemma SupersedeIsNeverTaken(st: State, r: Request)
    requires Inv(st) && r in st.pending
    ensures st.pending[r].handle !in st.(pending := st.pending - {r}).Get(st.pending[r].kind).toId
  {
    assert st.pending[r].handle !in st.Get(st.pending[r].kind).toId;
  }

  lemma SettledForm(st: State, r: Request, address: nat)
    requires Inv(st) && r in st.pending
    ensures var kind, handle, id := st.pending[r].kind, st.pending[r].handle, FmtAddress(address);
            Settled(st, r, address) ==
            st.Set(kind, Family(st.Get(kind).toId[handle := id], st.Get(kind).byId[id := handle]))
              .(pending := st.pending - {r}, destroyed := st.destroyed + multiset{r}, notified := st.notified + 1)
  {
    SupersedeIsNeverTaken(st, r);
  }

  lemma SettledUnknown(st: State, r: Request, address: nat)
    requires r !in st.pending
    ensures Settled(st, r, address) == st
  {
  }

  lemma AssignedKeepsFamily(family: Family, handle: Handle, id: string)
    requires FamilyInv(family) && handle != 0 && handle !in family.toId && IsAddressId(id)
    ensures FamilyInv(Family(family.toId[handle := id], family.byId[id := handle]))
  {
  }

  lemma SettledKeepsInv(st: State, r: Request, address: nat)
    requires Inv(st) && address < TWO_TO_THE_64
    ensures Inv(Settled(st, r, address))
  {
    if r in st.pending {
      var kind, handle, id := st.pending[r].kind, st.pending[r].handle, FmtAddress(address);
      SettledForm(st, r, address);
      var before, after := st.Get(kind), Settled(st, r, address);
      AssignedKeepsFamily(before, handle, id);
      forall q: Request
        ensures PendingOrDestroyedOnce(after, q)
      {
        assert PendingOrDestroyedOnce(st, q);
      }
      forall q | q in after.pending
        ensures after.pending[q].handle != 0 && after.pending[q].handle !in after.Get(after.pending[q].kind).toId
      {
        assert after.pending[q] == st.pending[q] != st.pending[r];
      }
    }
  }

  /** The pairing survives an answer exactly when no other handle of the family holds that address. */
  lemma SettledKeepsPairing(st: State, r: Request, address: nat)
    requires Inv(st) && r in st.pending
    requires Paired(st.Get(st.pending[r].kind))
    ensures Paired(Settled(st, r, address).Get(st.pending[r].kind)) <==>
            forall h :: h in st.Get(st.pending[r].kind).toId ==> st.Get(st.pending[r].kind).toId[h] != FmtAddress(address)
  {
    var kind, handle := st.pending[r].kind, st.pending[r].handle;
    SettledForm(st, r, address);
    var before, after := st.Get(kind), Settled(st, r, address).Get(kind);
    assert after == Family(before.toId[handle := FmtAddress(address)], before.byId[FmtAddress(address) := handle]);
    if h :| h in before.toId && before.toId[h] == FmtAddress(address) {
      assert h in after.toId && after.byId[after.toId[h]] == handle != h;
    }
  }

  /** With pairing, asking for a resolved handle's id and looking that id up again gives the handle,
      in whatever spelling of the address the caller has it. */
  lemma LookupRoundTrip(st: State, kind: Kind, handle: Handle, spelling: string)
    requires Inv(st) && Paired(st.Get(kind)) && handle in st.Get(kind).toId
    requires IdMatch(spelling, st.Get(kind).toId[handle])
    ensures IdForHandle(st.Get(kind), handle) == Some(st.Get(kind).toId[handle])
    ensures HandleForId(st.Get(kind), spelling) == handle
  {
    var id := st.Get(kind).toId[handle];
    var a: nat :| a < TWO_TO_THE_64 && id == FmtAddress(a);
    ParseFmt(a);
    assert CanonicalWindowId(id) == id;
  }

  // ------------------------------------------------------------------- runs

  datatype Event =
    | Setup
    | Sync(kind: Kind, handles: seq<Handle>, refused: set<Handle>)
    | Address(request: Request, hi: nat, lo: nat)
    | Fail(request: Request)

  predicate WellTyped(event: Event) {
    event.Address? ==> event.hi < TWO_TO_THE_32 && event.lo < TWO_TO_THE_32
  }

  predicate AllWellTyped(events: seq<Event>) {
    forall i :: 0 <= i < |events| ==> WellTyped(events[i])
  }

  function Step(st: State, event: Event): State
    requires WellTyped(event)
  {
    match event
    case Setup => st.(managed := true)
    case Sync(kind, handles, refused) => Synced(st, kind, handles, refused)
    case Address(r, hi, lo) => Settled(st, r, CoalesceAddress(hi, lo))
    case Fail(r) => Failed(st, r)
  }

  function After(events: seq<Event>): State
    requires AllWellTyped(events)
  {
    if events == [] then FRESH else Step(After(events[..|events| - 1]), events[|events| - 1])
  }

  /** No answer names an address that another resolved handle of the same family holds at that time. */
  ghost predicate DistinctAddresses(events: seq<Event>)
    requires AllWellTyped(events)
  {
    events != [] ==>
      var front, event := events[..|events| - 1], events[|events| - 1];
      && DistinctAddresses(front)
      && (event.Address? ==> WellTyped(event) && AddressIsFree(After(front), event.request, CoalesceAddress(event.hi, event.lo)))
  }

  ghost predicate AddressIsFree(st: State, r: Request, address: nat) {
    r in st.pending ==>
      forall h :: h in st.Get(st.pending[r].kind).toId ==> st.Get(st.pending[r].kind).toId[h] != FmtAddress(address)
  }

  lemma SetupKeepsInv(st: State)
    requires Inv(st)
    ensures Inv(st.(managed := true))
  {
    var after := st.(managed := true);
    forall r: Request
      ensures PendingOrDestroyedOnce(after, r)
    {
      assert PendingOrDestroyedOnce(st, r);
    }
  }

  lemma {:induction false} EveryRunKeepsInv(events: seq<Event>)
    requires AllWellTyped(events)
    ensures Inv(After(events))
    decreases |events|
  {
    if events == [] {
      FreshInv();
    } else {
      hide Inv, Synced, Settled, Abandoned;
      var st, event := After(events[..|events| - 1]), events[|events| - 1];
      EveryRunKeepsInv(events[..|events| - 1]);
      match event
      case Setup => SetupKeepsInv(st);
      case Sync(kind, handles, refused) => SyncKeepsInv(st, kind, handles, refused);
      case Address(r, hi, lo) => SettledKeepsInv(st, r, CoalesceAddress(hi, lo));
      case Fail(r) => AbandonedKeepsInv(st, {r});
    }
  }

  ghost predicate PairedThroughout(events: seq<Event>)
    requires AllWellTyped(events)
  {
    && Paired(After(events).ext) && Paired(After(events).wlr)
    && (events != [] ==> PairedThroughout(events[..|events| - 1]))
  }

  /** Every resolved handle stays reachable by its id, at every moment of a run, exactly when no answer
      of the run names an address that is already held. */
  lemma {:induction false} PairedExactlyWhenDistinct(events: seq<Event>)
    requires AllWellTyped(events)
    ensures PairedThroughout(events) <==> DistinctAddresses(events)
    decreases |events|
  {
    if events == [] {
      FreshInv();
    } else {
      hide Inv, Synced, Settled, Paired, FmtAddress;
      var front, event := events[..|events| - 1], events[|events| - 1];
      PairedExactlyWhenDistinct(front);
      EveryRunKeepsInv(front);
      var st := After(front);
      match event
      case Setup =>
      case Sync(kind, handles, refused) => SyncKeepsInv(st, kind, handles, refused);
      case Address(r, hi, lo) =>
        if PairedThroughout(front) {
          if r in st.pending {
            SettledKeepsPairing(st, r, CoalesceAddress(hi, lo));
            SettledForm(st, r, CoalesceAddress(hi, lo));
          } else {
            SettledUnknown(st, r, CoalesceAddress(hi, lo));
          }
        }
      case Fail(r) =>
    }
  }

  /** Two handles are announced and both are answered with the address 5. */
  function TwoAnswers(): seq<Event> {
    [Setup, Sync(Ext, [1, 2], {}), Address(0, 0, 5), Address(1, 0, 5)]
  }

  /** The two requests that the sync makes. */
  function Asked(): State {
    FRESH.(managed := true, pending := map[0 := Pending(Ext, 1), 1 := Pending(Ext, 2)], next := 2)
  }

  lemma BothAreAsked()
    ensures Synced(FRESH.(managed := true), Ext, [1, 2], {}) == Asked()
  {
    var st, handles: seq<Handle> := FRESH.(managed := true), [1, 2];
    assert handles[..1] == [1] && handles[..1][..0] == [];
    var one := Requested(st, Ext, 1, {});
    assert one.pending == map[0 := Pending(Ext, 1)];
    assert RequestedAll(st, Ext, handles[..1], {}) == one;
    assert !IsPending(one, Ext, 2);
    var both := RequestedAll(st, Ext, handles, {});
    assert both == Asked();
    assert both.Get(Ext).toId.Keys - Live(handles) == {};
    assert 1 in handles && 2 in handles;
    assert Orphans(both, Ext, Live(handles)) == {};
    WithoutNothing(both.Get(Ext));
    AbandonNone(both);
  }

  lemma WithoutNothing(family: Family)
    ensures Without(family, {}) == family
  {
  }

  lemma EventsOneByOne()
    ensures var all := TwoAnswers();
            && AllWellTyped(all) && AllWellTyped(all[..3])
            && After(all[..3]) == Settled(Asked(), 0, 5)
            && After(all) == Settled(Settled(Asked(), 0, 5), 1, 5)
  {
    hide Synced, Settled;
    var all := TwoAnswers();
    assert all[..3][..2] == all[..2] && all[..2][..1] == all[..1] && all[..1][..0] == [];
    assert all[0] == Setup;
    assert After(all[..1]) == FRESH.(managed := true);
    BothAreAsked();
    assert After(all[..2]) == Asked();
    assert CoalesceAddress(0, 5) == 5;
    assert After(all[..3]) == Settled(Asked(), 0, 5);
  }

  lemma AnsweredAlike()
    ensures var family, id := Settled(Settled(Asked(), 0, 5), 1, 5).ext, FmtAddress(5);
            family.toId == map[1 := id, 2 := id] && family.byId == map[id := 2]
  {
    hide FmtAddress, Inv, Settled;
    AskedInv();
    SettledForm(Asked(), 0, 5);
    SettledKeepsInv(Asked(), 0, 5);
    SettledForm(Settled(Asked(), 0, 5), 1, 5);
  }

  /** From the start, with two handles answered alike: both carry the id, and it leads to the second only. */
  lemma OneAddressTwiceLosesAHandle()
    ensures AllWellTyped(TwoAnswers()) && !PairedThroughout(TwoAnswers())
    ensures var family, id := After(TwoAnswers()).ext, FmtAddress(5);
            family.toId == map[1 := id, 2 := id] && family.byId == map[id := 2]
  {
    hide FmtAddress, Settled, Asked, After, TwoAnswers;
    EventsOneByOne();
    AnsweredAlike();
    assert 1 in After(TwoAnswers()).ext.toId;
  }

  /** After any run and the destructor a request the compositor made has been destroyed once, unless it was
      still pending; those requests, each of a handle without an id, are never destroyed. */
  lemma TeardownLeavesExactlyThePending(events: seq<Event>, r: Request)
    requires AllWellTyped(events)
    ensures var st := After(events);
            && TornDown(st).destroyed[r] == (if r < st.next && r !in st.pending then 1 else 0)
            && (r in st.pending ==> r < st.next && st.pending[r].handle !in st.Get(st.pending[r].kind).toId)
  {
    hide After;
    EveryRunKeepsInv(events);
    assert PendingOrDestroyedOnce(After(events), r);
  }

  /** Two handles are announced and one is answered: the other's request outlives the tracker. */
  lemma AnUnansweredRequestIsLeft()
    ensures var run := TwoAnswers()[..3];
            && AllWellTyped(run) && 1 < After(run).next
            && TornDown(After(run)).destroyed[0] == 1 && TornDown(After(run)).destroyed[1] == 0
  {
    hide After, Settled, Asked;
    EventsOneByOne();
    AskedInv();
    TwoAsked();
    SettledForm(Asked(), 0, 5);
    TeardownLeavesExactlyThePending(TwoAnswers()[..3], 0);
    TeardownLeavesExactlyThePending(TwoAnswers()[..3], 1);
  }

  lemma TwoAsked()
    ensures Asked().pending == map[0 := Pending(Ext, 1), 1 := Pending(Ext, 2)] && Asked().next == 2
  {
  }

  lemma AskedInv()
    ensures Inv(Asked())
  {
    FreshInv();
    SetupKeepsInv(FRESH);
    BothAreAsked();
    SyncKeepsInv(FRESH.(managed := true), Ext, [1, 2], {});
  }
}
