/** Which workspace each row of the bar gets, said outright: tier by tier, and then what is left over. */
module NiriClaims {
  import opened Wrappers
  import opened Desks
  import opened Sorting
  import opened NiriWindows
  import opened NiriSync

  // ---------------------------------------------------------------------------------------------
  // Numbers in keys and titles
  // ---------------------------------------------------------------------------------------------

  /** A number as people write it. */
  function Decimal(n: nat): (s: string)
    ensures s != "" && forall i :: 0 <= i < |s| ==> IsDigit(s[i])
  {
    if n < 10 then [('0' as int + n) as char] else Decimal(n / 10) + [('0' as int + n % 10) as char]
  }

  lemma {:induction false} DecimalReadsBack(n: nat)
    ensures DecimalValue(Decimal(n)) == n
  {
    if n >= 10 {
      DecimalReadsBack(n / 10);
      var s := Decimal(n);
      assert s[..|s| - 1] == Decimal(n / 10);
    } else {
      assert Decimal(n)[..0] == "";
    }
  }

  /** A key is an id exactly when it is all digits, and then it is the id they spell; too large a one is none. */
  lemma KeysSpellIds(n: nat, key: string)
    ensures ParseUint(Decimal(n)) == if n < TWO_TO_THE_64 then Some(n) else None
    ensures (key == "" || exists i :: 0 <= i < |key| && !IsDigit(key[i])) ==> ParseUint(key) == None
  {
    DecimalReadsBack(n);
  }

  /** Leading digits are read up to the first other character; zero is no number. */
  lemma LeadingDigitsAreRead(n: nat, rest: string)
    requires n < TWO_TO_THE_64 && (rest != "" ==> !IsDigit(rest[0]))
    ensures ParseLeadingDigits(Decimal(n) + rest) == if n > 0 then Some(n) else None
    ensures ParseLeadingDigits(rest) == None
  {
    hide Decimal, DecimalValue, ParseLeadingDigits;
    DecimalReadsBack(n);
    LeadingRun(Decimal(n), rest);
    LeadingRun("", rest);
    NoDigits();
    assert "" + rest == rest;
  }

  lemma NoDigits()
    ensures DecimalValue("") == 0
  {
  }

  lemma LeadingRun(digits: string, rest: string)
    requires (forall i :: 0 <= i < |digits| ==> IsDigit(digits[i])) && (rest != "" ==> !IsDigit(rest[0]))
    ensures ParseLeadingDigits(digits + rest)
            == var n := DecimalValue(digits) % TWO_TO_THE_64; if n > 0 then Some(n) else None
  {
    hide DecimalValue, DigitRun;
    DigitsEnd(digits, rest);
    assert (digits + rest)[..|digits|] == digits;
  }

  lemma {:induction false} DigitsEnd(digits: string, rest: string)
    requires (forall i :: 0 <= i < |digits| ==> IsDigit(digits[i])) && (rest != "" ==> !IsDigit(rest[0]))
    ensures DigitRun(digits + rest) == |digits|
    decreases |digits|
  {
    if digits == "" {
      assert digits + rest == rest;
    } else {
      assert (digits + rest)[1..] == digits[1..] + rest;
      DigitsEnd(digits[1..], rest);
    }
  }

  // ---------------------------------------------------------------------------------------------
  // Candidates
  // ---------------------------------------------------------------------------------------------

  /** The candidates are the workspaces of the named output, or all of them if none is named, by index and then by
      id. */
  lemma CandidatesSaid(workspaces: Workspaces, output: string, cand: seq<WsState>)
    requires Keyed(workspaces) && IsCandidateList(workspaces, output, cand)
    ensures forall ws :: ws in cand <==> ws in workspaces.Values && (output == "" || ws.output == output)
    ensures forall k, l :: 0 <= k < l < |cand| ==>
              cand[k].idx < cand[l].idx || (cand[k].idx == cand[l].idx && cand[k].id < cand[l].id)
  {
    forall ws
      ensures ws in cand <==> ws in workspaces.Values && (output == "" || ws.output == output)
    {
      if ws in workspaces.Values {
        var id :| id in workspaces && workspaces[id] == ws;
      }
      if ws in cand {
        var k :| 0 <= k < |cand| && cand[k] == ws;
        assert workspaces[cand[k].id] in workspaces.Values;
      }
    }
    forall k, l | 0 <= k < l < |cand|
      ensures cand[k].idx < cand[l].idx || (cand[k].idx == cand[l].idx && cand[k].id < cand[l].id)
    {
      assert BY_INDEX_THEN_ID(cand[k], cand[l]);
    }
  }

  // ---------------------------------------------------------------------------------------------
  // Claims
  // ---------------------------------------------------------------------------------------------

  /** None of the rows before `i` has claimed candidate `k`. */
  ghost predicate Free(cand: seq<WsState>, rows: seq<DeskSlot>, i: nat, k: nat)
    requires i <= |rows| && k < |cand|
  {
    var before := Matched(cand, rows[..i], "");
    forall j :: 0 <= j < i && before[j].Some? ==> cand[before[j].value].id != cand[k].id
  }

  /** Candidate `k` is the first free one that is wanted. */
  ghost predicate FirstOf(cand: seq<WsState>, rows: seq<DeskSlot>, i: nat, want: WsState -> bool, k: nat)
    requires i <= |rows|
  {
    k < |cand| && want(cand[k]) && Free(cand, rows, i, k)
    && forall l :: 0 <= l < k && want(cand[l]) ==> !Free(cand, rows, i, l)
  }

  ghost predicate NoneOf(cand: seq<WsState>, rows: seq<DeskSlot>, i: nat, want: WsState -> bool)
    requires i <= |rows|
  {
    forall l :: 0 <= l < |cand| && want(cand[l]) ==> !Free(cand, rows, i, l)
  }

  /** The candidates a row wants by the id its key spells, by its title, and by the digits its key or else its title
      starts with. */
  function WantId(row: DeskSlot): WsState -> bool {
    (c: WsState) => ParseUint(row.key) == Some(c.id)
  }

  function WantName(row: DeskSlot): WsState -> bool {
    (c: WsState) => row.title != "" && c.name == row.title
  }

  function WantIndex(row: DeskSlot): WsState -> bool {
    (c: WsState) => if ParseLeadingDigits(row.key).Some? then ParseLeadingDigits(row.key) == Some(c.idx)
         else ParseLeadingDigits(row.title) == Some(c.idx)
  }

  lemma FreeMeansUnused(cand: seq<WsState>, rows: seq<DeskSlot>, i: nat, k: nat)
    requires i <= |rows| && k < |cand|
    ensures Free(cand, rows, i, k) <==> cand[k].id !in UsedIds(cand, Claimed(cand, rows[..i]))
  {
    hide Claimed, UsedIds;
    UsedMeansSome(cand, Claimed(cand, rows[..i]), cand[k].id);
    assert Matched(cand, rows[..i], "") == Claimed(cand, rows[..i]);
  }

  /** Looking for the first free one finds it. */
  lemma SearchFinds(cand: seq<WsState>, rows: seq<DeskSlot>, i: nat, want: WsState -> bool, search: WsState -> bool)
    requires i <= |rows| && forall c :: want(c) == search(c)
    ensures var hit := FirstFree(cand, UsedIds(cand, Claimed(cand, rows[..i])), search);
            && (hit.Some? ==> FirstOf(cand, rows, i, want, hit.value))
            && (hit.None? ==> NoneOf(cand, rows, i, want))
  {
    hide Claimed, UsedIds, FirstFree, Free;
    forall k | 0 <= k < |cand|
      ensures Free(cand, rows, i, k) <==> cand[k].id !in UsedIds(cand, Claimed(cand, rows[..i]))
    {
      FreeMeansUnused(cand, rows, i, k);
    }
  }

  lemma NotBoth(cand: seq<WsState>, rows: seq<DeskSlot>, i: nat, want: WsState -> bool, k: nat, l: nat)
    requires i <= |rows| && FirstOf(cand, rows, i, want, k)
    ensures !NoneOf(cand, rows, i, want) && (FirstOf(cand, rows, i, want, l) ==> l == k)
  {
    hide Free;
  }

  /** The tier that decides: id before name before index. */
  ghost predicate Decides(cand: seq<WsState>, rows: seq<DeskSlot>, i: nat, hit: Match)
    requires i < |rows|
  {
    var row := rows[i];
    if !NoneOf(cand, rows, i, WantId(row)) then hit.Some? && FirstOf(cand, rows, i, WantId(row), hit.value)
    else if !NoneOf(cand, rows, i, WantName(row)) then hit.Some? && FirstOf(cand, rows, i, WantName(row), hit.value)
    else if !NoneOf(cand, rows, i, WantIndex(row)) then hit.Some? && FirstOf(cand, rows, i, WantIndex(row), hit.value)
    else hit == None
  }

  lemma NothingWanted(cand: seq<WsState>, rows: seq<DeskSlot>, i: nat, want: WsState -> bool)
    requires i <= |rows| && forall c :: !want(c)
    ensures NoneOf(cand, rows, i, want)
  {
  }

  lemma IdTier(cand: seq<WsState>, rows: seq<DeskSlot>, i: nat) returns (hit: Match)
    requires i < |rows|
    ensures var used := UsedIds(cand, Claimed(cand, rows[..i]));
            hit == match ParseUint(rows[i].key)
                   case None => None
                   case Some(id) => FirstFree(cand, used, (c: WsState) => c.id == id)
    ensures hit.Some? ==> FirstOf(cand, rows, i, WantId(rows[i]), hit.value)
    ensures hit.None? ==> NoneOf(cand, rows, i, WantId(rows[i]))
  {
    hide Claimed, UsedIds, FirstFree, NoneOf, FirstOf, ParseUint;
    var used := UsedIds(cand, Claimed(cand, rows[..i]));
    match ParseUint(rows[i].key) {
      case None =>
        hit := None;
        NothingWanted(cand, rows, i, WantId(rows[i]));
      case Some(id) =>
        var search := (c: WsState) => c.id == id;
        hit := FirstFree(cand, used, search);
        SearchFinds(cand, rows, i, WantId(rows[i]), search);
    }
  }

  lemma NameTier(cand: seq<WsState>, rows: seq<DeskSlot>, i: nat) returns (hit: Match)
    requires i < |rows|
    ensures var used := UsedIds(cand, Claimed(cand, rows[..i]));
            hit == if rows[i].title == "" then None else FirstFree(cand, used, (c: WsState) => c.name == rows[i].title)
    ensures hit.Some? ==> FirstOf(cand, rows, i, WantName(rows[i]), hit.value)
    ensures hit.None? ==> NoneOf(cand, rows, i, WantName(rows[i]))
  {
    hide Claimed, UsedIds, FirstFree, NoneOf, FirstOf;
    var used := UsedIds(cand, Claimed(cand, rows[..i]));
    if rows[i].title == "" {
      hit := None;
      NothingWanted(cand, rows, i, WantName(rows[i]));
    } else {
      var search := (c: WsState) => c.name == rows[i].title;
      hit := FirstFree(cand, used, search);
      SearchFinds(cand, rows, i, WantName(rows[i]), search);
    }
  }

  lemma IndexTier(cand: seq<WsState>, rows: seq<DeskSlot>, i: nat) returns (hit: Match)
    requires i < |rows|
    ensures var used := UsedIds(cand, Claimed(cand, rows[..i]));
            hit == match RowIndex(rows[i])
                   case None => None
                   case Some(idx) => FirstFree(cand, used, (c: WsState) => c.idx == idx)
    ensures hit.Some? ==> FirstOf(cand, rows, i, WantIndex(rows[i]), hit.value)
    ensures hit.None? ==> NoneOf(cand, rows, i, WantIndex(rows[i]))
  {
    hide Claimed, UsedIds, FirstFree, NoneOf, FirstOf, ParseLeadingDigits;
    var used := UsedIds(cand, Claimed(cand, rows[..i]));
    match RowIndex(rows[i]) {
      case None =>
        hit := None;
        NothingWanted(cand, rows, i, WantIndex(rows[i]));
      case Some(idx) =>
        var search := (c: WsState) => c.idx == idx;
        hit := FirstFree(cand, used, search);
        SearchFinds(cand, rows, i, WantIndex(rows[i]), search);
    }
  }

  lemma ClaimDecides(cand: seq<WsState>, rows: seq<DeskSlot>, i: nat)
    requires i < |rows|
    ensures Decides(cand, rows, i, Claim(cand, UsedIds(cand, Claimed(cand, rows[..i])), rows[i]))
  {
    hide Claimed, UsedIds, FirstFree, NoneOf, FirstOf, ParseUint, ParseLeadingDigits, RowIndex;
    var byId := IdTier(cand, rows, i);
    var byName := NameTier(cand, rows, i);
    var byIdx := IndexTier(cand, rows, i);
    SomeIsNotNone(cand, rows, i, WantId(rows[i]), byId);
    SomeIsNotNone(cand, rows, i, WantName(rows[i]), byName);
    SomeIsNotNone(cand, rows, i, WantIndex(rows[i]), byIdx);
  }

  lemma SomeIsNotNone(cand: seq<WsState>, rows: seq<DeskSlot>, i: nat, want: WsState -> bool, hit: Match)
    requires i <= |rows| && (hit.Some? ==> FirstOf(cand, rows, i, want, hit.value))
    ensures hit.Some? ==> !NoneOf(cand, rows, i, want)
  {
    if hit.Some? {
      NotBoth(cand, rows, i, want, hit.value, hit.value);
    }
  }

  /** Without an output a row gets what its best tier offers, or nothing. */
  lemma ClaimsByTier(cand: seq<WsState>, rows: seq<DeskSlot>, i: nat)
    requires i < |rows|
    ensures Decides(cand, rows, i, Matched(cand, rows, "")[i])
  {
    hide Claimed, Claim, UsedIds, Decides;
    ClaimDecides(cand, rows, i);
    ClaimedPrefix(cand, rows, i);
  }

  /** A claim stands whatever the output: the leftover pass only serves the rows without one. */
  lemma ClaimsStand(cand: seq<WsState>, rows: seq<DeskSlot>, output: string, i: nat)
    requires i < |rows| && Matched(cand, rows, "")[i].Some?
    ensures Matched(cand, rows, output)[i] == Matched(cand, rows, "")[i]
  {
    hide Claimed, Filled;
    ClaimedIsInjective(cand, rows);
    FilledIsInjective(cand, Claimed(cand, rows));
  }

  lemma TierWins(cand: seq<WsState>, rows: seq<DeskSlot>, output: string, i: nat, want: WsState -> bool, k: nat)
    requires i < |rows| && FirstOf(cand, rows, i, want, k)
    requires var hit := Matched(cand, rows, "")[i]; hit.Some? && FirstOf(cand, rows, i, want, hit.value)
    ensures Matched(cand, rows, output)[i] == Some(k)
  {
    hide Matched, FirstOf;
    var hit := Matched(cand, rows, "")[i];
    NotBoth(cand, rows, i, want, k, hit.value);
    ClaimsStand(cand, rows, output, i);
  }

  /** With no free workspace of the key's id, the first free one of the row's title is matched, whatever the
      indices say. */
  lemma NameWins(cand: seq<WsState>, rows: seq<DeskSlot>, output: string, i: nat, k: nat)
    requires i < |rows| && NoneOf(cand, rows, i, WantId(rows[i])) && FirstOf(cand, rows, i, WantName(rows[i]), k)
    ensures Matched(cand, rows, output)[i] == Some(k)
  {
    hide Matched, NoneOf, FirstOf;
    ClaimsByTier(cand, rows, i);
    NotBoth(cand, rows, i, WantName(rows[i]), k, k);
    TierWins(cand, rows, output, i, WantName(rows[i]), k);
  }

  /** With none of the id or the title, the first free one of the index is matched. */
  lemma IndexWins(cand: seq<WsState>, rows: seq<DeskSlot>, output: string, i: nat, k: nat)
    requires i < |rows| && NoneOf(cand, rows, i, WantId(rows[i])) && NoneOf(cand, rows, i, WantName(rows[i]))
    requires FirstOf(cand, rows, i, WantIndex(rows[i]), k)
    ensures Matched(cand, rows, output)[i] == Some(k)
  {
    hide Matched, NoneOf, FirstOf;
    ClaimsByTier(cand, rows, i);
    NotBoth(cand, rows, i, WantIndex(rows[i]), k, k);
    TierWins(cand, rows, output, i, WantIndex(rows[i]), k);
  }

  /** A row that wants nothing that is free claims nothing. */
  lemma NothingClaimed(cand: seq<WsState>, rows: seq<DeskSlot>, i: nat)
    requires i < |rows| && NoneOf(cand, rows, i, WantId(rows[i]))
    requires NoneOf(cand, rows, i, WantName(rows[i])) && NoneOf(cand, rows, i, WantIndex(rows[i]))
    ensures Matched(cand, rows, "")[i] == None
  {
    hide Matched, NoneOf, FirstOf;
    ClaimsByTier(cand, rows, i);
  }

  // ---------------------------------------------------------------------------------------------
  // The leftover pass
  // ---------------------------------------------------------------------------------------------

  /** Some row has claimed candidate `l`, or a row before `i` has got it. */
  ghost predicate TakenBefore(cand: seq<WsState>, rows: seq<DeskSlot>, output: string, i: nat, l: nat)
    requires i <= |rows| && l < |cand|
  {
    var claims, got := Matched(cand, rows, ""), Matched(cand, rows, output);
    || (exists j :: 0 <= j < |rows| && claims[j].Some? && cand[claims[j].value].id == cand[l].id)
    || (exists j :: 0 <= j < i && got[j].Some? && cand[got[j].value].id == cand[l].id)
  }

  lemma UsedMeansSome(cand: seq<WsState>, matches: seq<Match>, id: WorkspaceId)
    requires InRange(cand, matches)
    ensures id in UsedIds(cand, matches) <==> exists j :: 0 <= j < |matches| && matches[j].Some? && cand[matches[j].value].id == id
  {
  }

  lemma {:induction false} FilledPrefix(cand: seq<WsState>, claimed: seq<Match>, i: nat, n: nat)
    requires i <= n <= |claimed| && InRange(cand, claimed)
    ensures Filled(cand, claimed, n)[..i] == Filled(cand, claimed, i)
    decreases n
  {
    hide UsedIds, FirstFree;
    if i < n {
      FilledPrefix(cand, claimed, i, n - 1);
      var front := Filled(cand, claimed, n - 1);
      assert Filled(cand, claimed, n)[..n - 1] == front;
      assert Filled(cand, claimed, n)[..i] == front[..i];
    }
  }

  /** For a named output, a row without a claim gets the first candidate that no row has claimed and no earlier row
      has got, if there is one. */
  lemma LeftoversInOrder(cand: seq<WsState>, rows: seq<DeskSlot>, output: string, i: nat)
    requires output != "" && i < |rows| && Matched(cand, rows, "")[i].None?
    ensures var hit := Matched(cand, rows, output)[i];
            if hit.Some? then
              && hit.value < |cand| && !TakenBefore(cand, rows, output, i, hit.value)
              && forall l :: 0 <= l < hit.value ==> TakenBefore(cand, rows, output, i, l)
            else forall l :: 0 <= l < |cand| ==> TakenBefore(cand, rows, output, i, l)
  {
    hide Claimed, Filled, UsedIds, FirstFree;
    var claims := Claimed(cand, rows);
    var got := Filled(cand, claims, |rows|);
    FilledSnoc(cand, claims, i);
    FilledPrefix(cand, claims, i + 1, |rows|);
    FilledPrefix(cand, claims, i, |rows|);
    assert got[i] == got[..i + 1][i];
    forall l | 0 <= l < |cand|
      ensures TakenBefore(cand, rows, output, i, l)
              <==> cand[l].id in UsedIds(cand, claims) + UsedIds(cand, Filled(cand, claims, i))
    {
      TakenMeansUsed(cand, rows, output, i, l);
    }
  }

  lemma TakenMeansUsed(cand: seq<WsState>, rows: seq<DeskSlot>, output: string, i: nat, l: nat)
    requires output != "" && i <= |rows| && l < |cand|
    ensures TakenBefore(cand, rows, output, i, l)
            <==> cand[l].id in UsedIds(cand, Claimed(cand, rows)) + UsedIds(cand, Filled(cand, Claimed(cand, rows), i))
  {
    hide Claimed, Filled, UsedIds;
    var claims := Claimed(cand, rows);
    var front, got := Filled(cand, claims, i), Filled(cand, claims, |rows|);
    assert Matched(cand, rows, "") == claims && Matched(cand, rows, output) == got;
    FilledPrefix(cand, claims, i, |rows|);
    UsedMeansSome(cand, claims, cand[l].id);
    UsedMeansSome(cand, front, cand[l].id);
    SameFront(cand, front, got, i, cand[l].id);
  }

  lemma SameFront(cand: seq<WsState>, front: seq<Match>, got: seq<Match>, i: nat, id: WorkspaceId)
    requires InRange(cand, got) && i <= |got| && front == got[..i] && InRange(cand, front)
    ensures (exists j :: 0 <= j < |front| && front[j].Some? && cand[front[j].value].id == id)
            <==> exists j :: 0 <= j < i && got[j].Some? && cand[got[j].value].id == id
  {
    forall j | 0 <= j < i
      ensures front[j] == got[j]
    {
    }
  }

  // ---------------------------------------------------------------------------------------------
  // What is written back
  // ---------------------------------------------------------------------------------------------

  /** Only a row's number and its occupied flag change: a matched row shows its workspace's index, unless that is
      zero, and is occupied when some window is counted there; an unmatched one shows zero and is not occupied. */
  lemma RowsSaid(row: DeskSlot, ws: Option<WsState>, occupancy: Occupancy)
    ensures var now := Written(row, ws, occupancy);
            && now.key == row.key && now.title == row.title && now.path == row.path
            && now.selected == row.selected && now.urgent == row.urgent
            && (ws.None? ==> now.ordinal == 0 && !now.occupied)
            && (ws.Some? ==>
                  && now.ordinal == (if ws.value.idx == 0 then row.ordinal else ws.value.idx)
                  && (now.occupied <==> ws.value.id in occupancy && occupancy[ws.value.id] >= 1))
  {
  }
}
