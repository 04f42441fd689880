/** What a sync asks for, keeps and gives up, and what an answer settles, said outright. */
module TrackerLaws {
  import opened Wrappers
  import opened WindowIds
  import opened WindowTracker

  /** A pending request of this kind is for `h`. */
  ghost predicate Asks(pending: map<Request, Pending>, kind: Kind, h: Handle) {
    exists r :: r in pending && pending[r].kind == kind && pending[r].handle == h
  }

  /** Nothing but requests is new, and every new one is for a listed handle without an id. */
  ghost predicate OnlyAsked(st: State, kind: Kind, handles: seq<Handle>, refused: set<Handle>, now: State) {
    && now == st.(pending := now.pending, next := now.next) && st.next <= now.next
    && (forall r :: r in st.pending ==> r in now.pending && now.pending[r] == st.pending[r])
    && (forall r :: r in now.pending && r !in st.pending ==>
          && st.next <= r < now.next && now.pending[r].kind == kind
          && now.pending[r].handle in handles && now.pending[r].handle != 0
          && now.pending[r].handle !in st.Get(kind).toId && now.pending[r].handle !in refused)
  }

  ghost predicate AllAsked(st: State, kind: Kind, handles: seq<Handle>, refused: set<Handle>, now: State) {
    forall h :: h in handles && h != 0 && h !in st.Get(kind).toId && h !in refused ==> Asks(now.pending, kind, h)
  }

  ghost predicate AskedSoFar(st: State, kind: Kind, handles: seq<Handle>, refused: set<Handle>, now: State) {
    OnlyAsked(st, kind, handles, refused, now) && AllAsked(st, kind, handles, refused, now)
  }

  function AfterOne(before: State, kind: Kind, h: Handle, refused: set<Handle>): State {
    if h == 0 || h in before.Get(kind).toId then before else Requested(before, kind, h, refused)
  }

  lemma NextIsNew(st: State)
    requires Inv(st)
    ensures st.next !in st.pending
  {
    assert PendingOrDestroyedOnce(st, st.next);
  }

  lemma OnlyOne(st: State, kind: Kind, handles: seq<Handle>, h: Handle, refused: set<Handle>, before: State)
    requires Inv(before) && OnlyAsked(st, kind, handles, refused, before)
    ensures OnlyAsked(st, kind, handles + [h], refused, AfterOne(before, kind, h, refused))
  {
    hide Inv;
    NextIsNew(before);
    var now, more := AfterOne(before, kind, h, refused), handles + [h];
    assert more[|handles|] == h;
    forall r | r in now.pending && r !in st.pending
      ensures now.pending[r].handle in more
    {
      if r in before.pending {
        assert before.pending[r].handle in handles;
        assert now.pending[r] == before.pending[r];
      }
    }
  }

  lemma AllButOne(st: State, kind: Kind, handles: seq<Handle>, h: Handle, refused: set<Handle>, before: State)
    requires Inv(before) && AskedSoFar(st, kind, handles, refused, before) && st.managed
    ensures AllAsked(st, kind, handles + [h], refused, AfterOne(before, kind, h, refused))
  {
    hide Inv;
    NextIsNew(before);
    var now, more := AfterOne(before, kind, h, refused), handles + [h];
    forall g | g in more && g != 0 && g !in st.Get(kind).toId && g !in refused
      ensures Asks(now.pending, kind, g)
    {
      if g in handles {
        var r :| r in before.pending && before.pending[r].kind == kind && before.pending[r].handle == g;
        assert r in now.pending && now.pending[r] == before.pending[r];
      } else if IsPending(before, kind, h) {
        var r :| r in before.pending && before.pending[r] == Pending(kind, h);
        assert now.pending[r].handle == g;
      } else {
        assert now.pending[before.next] == Pending(kind, h);
      }
    }
  }

  lemma {:induction false} AskedIs(st: State, kind: Kind, handles: seq<Handle>, refused: set<Handle>)
    requires Inv(st) && st.managed
    ensures AskedSoFar(st, kind, handles, refused, RequestedAll(st, kind, handles, refused))
    decreases |handles|
  {
    if handles != [] {
      hide OnlyAsked, AllAsked, Inv, Requested;
      var front, h := handles[..|handles| - 1], handles[|handles| - 1];
      AskedIs(st, kind, front, refused);
      RequestedAllKeepsInv(st, kind, front, refused);
      OnlyOne(st, kind, front, h, refused, RequestedAll(st, kind, front, refused));
      AllButOne(st, kind, front, h, refused, RequestedAll(st, kind, front, refused));
      assert front + [h] == handles;
    }
  }

  /** A sync without a manager does nothing. With one it asks for every listed handle that has no id, forgets the ids
      of the unlisted and gives their requests up, and touches neither the other kind nor any listed handle. */
  lemma SyncSaid(st: State, kind: Kind, handles: seq<Handle>, refused: set<Handle>)
    requires Inv(st)
    ensures var now := Step(st, Sync(kind, handles, refused));
            if !st.managed then now == st
            else
              var was, has := st.Get(kind), now.Get(kind);
              && now.managed && now.notified == st.notified
              && (if kind == Ext then now.wlr == st.wlr else now.ext == st.ext)
              && (forall h :: h in has.toId <==> h in was.toId && h in handles)
              && (forall h :: h in has.toId ==> has.toId[h] == was.toId[h])
              && (forall h :: h in handles && h != 0 && h !in was.toId && h !in refused ==> Asks(now.pending, kind, h))
              && (forall r :: r in st.pending ==>
                    (r in now.pending <==> st.pending[r].kind == kind ==> st.pending[r].handle in handles))
              && (forall r :: r in st.pending && r in now.pending ==> now.pending[r] == st.pending[r])
              && (forall r :: r in now.pending && r !in st.pending ==>
                    now.pending[r].kind == kind && now.pending[r].handle in handles && now.pending[r].handle !in was.toId)
  {
    if st.managed {
      hide RequestedAll, Inv, Asks;
      var asked := RequestedAll(st, kind, handles, refused);
      AskedIs(st, kind, handles, refused);
      RequestedAllKeepsInv(st, kind, handles, refused);
      SyncEnds(st, kind, handles, refused, asked);
    }
  }

  lemma SyncEnds(st: State, kind: Kind, handles: seq<Handle>, refused: set<Handle>, asked: State)
    requires Inv(st) && st.managed && Inv(asked) && AskedSoFar(st, kind, handles, refused, asked)
    requires asked == RequestedAll(st, kind, handles, refused)
    ensures var now := Synced(st, kind, handles, refused);
            var was, has := st.Get(kind), now.Get(kind);
            && now.managed && now.notified == st.notified
            && (if kind == Ext then now.wlr == st.wlr else now.ext == st.ext)
            && (forall h :: h in has.toId <==> h in was.toId && h in handles)
            && (forall h :: h in has.toId ==> has.toId[h] == was.toId[h])
            && (forall h :: h in handles && h != 0 && h !in was.toId && h !in refused ==> Asks(now.pending, kind, h))
            && (forall r :: r in st.pending ==>
                  (r in now.pending <==> st.pending[r].kind == kind ==> st.pending[r].handle in handles))
            && (forall r :: r in st.pending && r in now.pending ==> now.pending[r] == st.pending[r])
            && (forall r :: r in now.pending && r !in st.pending ==>
                  now.pending[r].kind == kind && now.pending[r].handle in handles && now.pending[r].handle !in was.toId)
  {
    hide RequestedAll;
    var now := Synced(st, kind, handles, refused);
    forall r | r in asked.pending
      ensures r in now.pending <==> (asked.pending[r].kind == kind ==> asked.pending[r].handle in handles)
    {
      assert asked.pending[r].handle != 0;
    }
    forall h | h in handles && h != 0 && h !in st.Get(kind).toId && h !in refused
      ensures Asks(now.pending, kind, h)
    {
      var r :| r in asked.pending && asked.pending[r].kind == kind && asked.pending[r].handle == h;
      assert r in now.pending && now.pending[r] == asked.pending[r];
    }
  }

  /** An answer to a pending request gives its handle the address, in both maps of its family, tells the listener once
      and ends the request; an answer to any other request does nothing. */
  lemma AnswerSaid(st: State, r: Request, hi: nat, lo: nat)
    requires Inv(st) && hi < TWO_TO_THE_32 && lo < TWO_TO_THE_32
    ensures var now := Step(st, Address(r, hi, lo));
            if r !in st.pending then now == st
            else
              var kind, h, id := st.pending[r].kind, st.pending[r].handle, FmtAddress(hi * 0x1_0000_0000 + lo);
              var was, has := st.Get(kind), now.Get(kind);
              && has.toId == was.toId[h := id] && has.byId == was.byId[id := h]
              && (if kind == Ext then now.wlr == st.wlr else now.ext == st.ext)
              && now.pending == st.pending - {r} && now.destroyed == st.destroyed + multiset{r}
              && now.notified == st.notified + 1 && now.managed == st.managed && now.next == st.next
  {
    hide FmtAddress;
    if r in st.pending {
      SettledForm(st, r, CoalesceAddress(hi, lo));
    }
  }

  /** A failure only ends its request. */
  lemma FailureSaid(st: State, r: Request)
    ensures var now := Step(st, Fail(r));
            if r !in st.pending then now == st
            else now == st.(pending := st.pending - {r}, destroyed := st.destroyed + multiset{r})
  {
    if r in st.pending {
      assert st.pending.Keys * {r} == {r};
    } else {
      AbandonNoneOf(st, r);
    }
  }

  lemma AbandonNoneOf(st: State, r: Request)
    requires r !in st.pending
    ensures Abandoned(st, {r}) == st
  {
    assert st.pending.Keys * {r} == {} && st.pending - {r} == st.pending;
  }

  /** Ids are spelled in lower case without a prefix ... */
  lemma SpelledSo()
    ensures FmtAddress(0) == "0" && FmtAddress(0x1a2f) == "1a2f"
  {
    assert FmtAddress(1) == "1" && FmtAddress(0x1a) == "1a" && FmtAddress(0x1a2) == "1a2";
  }

  lemma UpperCase()
    ensures HexRun("1A2F") == 4 && HexValue("1A2F") == 0x1a2f
  {
    assert "1A2F"[1..] == "A2F" && "A2F"[1..] == "2F" && "2F"[1..] == "F" && "F"[1..] == "";
    assert HexRun("") == 0 && HexRun("F") == 1 && HexRun("2F") == 2 && HexRun("A2F") == 3;
    assert "1A2F"[..3] == "1A2" && "1A2"[..2] == "1A" && "1A"[..1] == "1" && "1"[..0] == "";
    assert HexValue("1") == 1 && HexValue("1A") == 26 && HexValue("1A2") == 418;
  }

  /** ... but a prefix and upper case are understood; anything else is no id. */
  lemma UnderstoodSo()
    ensures ParseHexAddress("0x1A2F") == Some(0x1a2f)
    ensures ParseHexAddress("") == None && ParseHexAddress("0x") == None && ParseHexAddress("1g") == None
  {
    hide HexRun, HexValue;
    UpperCase();
    assert "0x1A2F"[2..] == "1A2F" && "1A2F"[..4] == "1A2F" && "0x"[2..] == "";
    Junk();
  }

  lemma Junk()
    ensures HexRun("1g") < 2
  {
    assert DigitValue("1g"[1]).None?;
  }
}
