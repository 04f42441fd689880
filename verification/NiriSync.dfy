/**
  Matching the bar's rows to niri's workspaces.

  Each row claims a workspace by id, then by name, then by index, first come first served; with a named
  output the rows left over are filled with the workspaces left over, in order.
 */
module NiriSync {
  import opened Wrappers
  import opened Desks
  import opened Sorting
  import opened NiriWindows

  datatype WsState = WsState(id: WorkspaceId, idx: nat, name: string, output: string)

  type Workspaces = map<WorkspaceId, WsState>

  // -------------------------------------------------------------- row numbers

  predicate IsDigit(c: char) {
    '0' <= c <= '9'
  }

  function DigitOf(c: char): nat {
    if IsDigit(c) then (c - '0') as nat else 0
  }

  function DecimalValue(s: string): nat {
    if s == "" then 0 else 10 * DecimalValue(s[..|s| - 1]) + DigitOf(s[|s| - 1])
  }

  const TWO_TO_THE_64: nat := 0x1_0000_0000_0000_0000

  /** The whole key is a decimal number that fits 64 bits. */
  function ParseUint(s: string): Option<nat> {
    if s != "" && (forall i :: 0 <= i < |s| ==> IsDigit(s[i])) && DecimalValue(s) < TWO_TO_THE_64
    then Some(DecimalValue(s)) else None
  }

  function DigitRun(s: string): (n: nat)
    ensures n <= |s| && forall i :: 0 <= i < n ==> IsDigit(s[i])
    ensures n < |s| ==> !IsDigit(s[n])
  {
    if s == "" || !IsDigit(s[0]) then 0
    else
      var n := DigitRun(s[1..]);
      assert forall i :: 0 < i < n + 1 ==> s[i] == s[1..][i - 1];
      1 + n
  }

  /** The leading digits as a number that wraps at 64 bits; zero does not count. */
  function ParseLeadingDigits(s: string): Option<nat> {
    var n := DecimalValue(s[..DigitRun(s)]) % TWO_TO_THE_64;
    if n > 0 then Some(n) else None
  }

  // --------------------------------------------------------------- candidates

  predicate OnOutput(ws: WsState, output: string) {
    output == "" || ws.output == output
  }

  predicate ByIdxThenId(a: WsState, b: WsState) {
    a.idx < b.idx || (a.idx == b.idx && a.id < b.id)
  }

  const BY_INDEX_THEN_ID := (a: WsState, b: WsState) => ByIdxThenId(a, b)

  predicate Keyed(workspaces: Workspaces) {
    forall id :: id in workspaces ==> workspaces[id].id == id
  }

  ghost predicate DistinctIds(cand: seq<WsState>) {
    forall i, j :: 0 <= i < j < |cand| ==> cand[i].id != cand[j].id
  }

  /** The candidates are the workspaces of the output, each once, in order of index and id. */
  ghost predicate IsCandidateList(workspaces: Workspaces, output: string, cand: seq<WsState>) {
    && DistinctIds(cand)
    && StrictlySorted(cand, BY_INDEX_THEN_ID)
    && (forall i :: 0 <= i < |cand| ==> cand[i].id in workspaces && cand[i] == workspaces[cand[i].id] && OnOutput(cand[i], output))
    && (forall id :: id in workspaces && OnOutput(workspaces[id], output) ==> workspaces[id] in cand)
  }

  lemma BeforeIsStrictWeak()
    ensures StrictWeak(BY_INDEX_THEN_ID)
  {
  }

  method SortedCandidates(workspaces: Workspaces, output: string) returns (cand: seq<WsState>)
    requires Keyed(workspaces)
    ensures IsCandidateList(workspaces, output, cand)
  {
    var found: seq<WsState> := [];
    var left := workspaces.Keys;
    while left != {}
      invariant left <= workspaces.Keys
      invariant DistinctIds(found)
      invariant forall i :: 0 <= i < |found| ==>
        found[i].id in workspaces && found[i].id !in left && found[i] == workspaces[found[i].id] && OnOutput(found[i], output)
      invariant forall id :: id in workspaces && id !in left && OnOutput(workspaces[id], output) ==> workspaces[id] in found
    {
      var id :| id in left;
      left := left - {id};
      if OnOutput(workspaces[id], output) {
        assert forall v :: v in found ==> v in found + [workspaces[id]];
        assert (found + [workspaces[id]])[|found|] == workspaces[id];
        found := found + [workspaces[id]];
      }
    }
    cand := Sort(found, BY_INDEX_THEN_ID);
    SortedKeepsCandidates(found);
    forall i | 0 <= i < |cand|
      ensures cand[i].id in workspaces && cand[i] == workspaces[cand[i].id] && OnOutput(cand[i], output)
    {
      assert cand[i] in found;
    }
  }

  lemma SortedKeepsCandidates(found: seq<WsState>)
    requires DistinctIds(found)
    ensures DistinctIds(Sort(found, BY_INDEX_THEN_ID)) && StrictlySorted(Sort(found, BY_INDEX_THEN_ID), BY_INDEX_THEN_ID)
    ensures forall v :: v in found <==> v in Sort(found, BY_INDEX_THEN_ID)
  {
    hide Sort;
    var cand := Sort(found, BY_INDEX_THEN_ID);
    BeforeIsStrictWeak();
    SortSorts(found, BY_INDEX_THEN_ID);
    SortPermutes(found, BY_INDEX_THEN_ID);
    forall v
      ensures v in found <==> v in cand
    {
      assert v in multiset(found) <==> v in multiset(cand);
    }
    DistinctByMultiset(found, cand);
  }

  lemma DistinctByMultiset(a: seq<WsState>, b: seq<WsState>)
    requires DistinctIds(a) && multiset(a) == multiset(b)
    ensures DistinctIds(b)
  {
    forall i, j | 0 <= i < j < |b|
      ensures b[i].id != b[j].id
    {
      if b[i].id == b[j].id {
        assert b[i] in multiset(a) && b[j] in multiset(a);
        assert b[i] == b[j];
        var v := b[i];
        assert b == b[..i] + [v] + b[i + 1..j] + [v] + b[j + 1..];
        assert multiset(b)[v] >= 2;
        OnceInDistinct(a, v);
      }
    }
  }

  lemma {:induction false} OnceInDistinct(a: seq<WsState>, v: WsState)
    requires DistinctIds(a)
    ensures multiset(a)[v] <= 1
    decreases |a|
  {
    if a != [] {
      assert a == [a[0]] + a[1..];
      OnceInDistinct(a[1..], v);
      if a[0] == v {
        forall i | 0 <= i < |a[1..]|
          ensures a[1..][i] != v
        {
          assert a[i + 1].id != a[0].id;
        }
      }
    }
  }

  /** The order in which the workspace table is walked does not show: there is one candidate list. */
  lemma CandidateListIsUnique(workspaces: Workspaces, output: string, a: seq<WsState>, b: seq<WsState>)
    requires IsCandidateList(workspaces, output, a) && IsCandidateList(workspaces, output, b)
    ensures a == b
  {
    forall v: WsState
      ensures multiset(a)[v] == multiset(b)[v]
    {
      OnceInDistinct(a, v);
      OnceInDistinct(b, v);
      assert v in a <==> v in b;
      assert v in multiset(a) <==> v in a;
      assert v in multiset(b) <==> v in b;
    }
    assert multiset(a) == multiset(b);
    SortedIsUnique(a, b, BY_INDEX_THEN_ID);
  }

  // ------------------------------------------------------------------- claims

  type Match = Option<nat>   // an index into the candidates

  /** The first candidate that is wanted and not taken. */
  function FirstFree(cand: seq<WsState>, used: set<WorkspaceId>, want: WsState -> bool): (hit: Match)
    ensures hit.Some? ==> hit.value < |cand| && want(cand[hit.value]) && cand[hit.value].id !in used
    ensures hit.Some? ==> forall j :: 0 <= j < hit.value ==> !want(cand[j]) || cand[j].id in used
    ensures hit.None? ==> forall j :: 0 <= j < |cand| ==> !want(cand[j]) || cand[j].id in used
  {
    if cand == [] then None
    else if want(cand[0]) && cand[0].id !in used then Some(0)
    else
      var later := FirstFree(cand[1..], used, want);
      assert forall j :: 0 < j < |cand| ==> cand[j] == cand[1..][j - 1];
      match later case None => None case Some(k) => Some(k + 1)
  }

  function Claim(cand: seq<WsState>, used: set<WorkspaceId>, row: DeskSlot): Match {
    var byId := match ParseUint(row.key)
      case None => None
      case Some(id) => FirstFree(cand, used, (c: WsState) => c.id == id);
    var byName := if row.title == "" then None else FirstFree(cand, used, (c: WsState) => c.name == row.title);
    var byIdx := match RowIndex(row)
      case None => None
      case Some(idx) => FirstFree(cand, used, (c: WsState) => c.idx == idx);
    if byId.Some? then byId else if byName.Some? then byName else byIdx
  }

  function RowIndex(row: DeskSlot): Option<nat> {
    if ParseLeadingDigits(row.key).Some? then ParseLeadingDigits(row.key) else ParseLeadingDigits(row.title)
  }

  predicate InRange(cand: seq<WsState>, matches: seq<Match>) {
    forall i :: 0 <= i < |matches| && matches[i].Some? ==> matches[i].value < |cand|
  }

  function UsedIds(cand: seq<WsState>, matches: seq<Match>): set<WorkspaceId>
    requires InRange(cand, matches)
  {
    set i | 0 <= i < |matches| && matches[i].Some? :: cand[matches[i].value].id
  }

  /** The three tiers, row after row. */
  function Claimed(cand: seq<WsState>, rows: seq<DeskSlot>): (matches: seq<Match>)
    ensures |matches| == |rows| && InRange(cand, matches)
  {
    if rows == [] then []
    else
      var front := Claimed(cand, rows[..|rows| - 1]);
      front + [Claim(cand, UsedIds(cand, front), rows[|rows| - 1])]
  }

  /** The first `n` rows after the leftover pass: an unmatched row takes the first workspace nobody has. */
  function Filled(cand: seq<WsState>, claimed: seq<Match>, n: nat): (matches: seq<Match>)
    requires n <= |claimed| && InRange(cand, claimed)
    ensures |matches| == n && InRange(cand, matches)
  {
    if n == 0 then []
    else
      var front := Filled(cand, claimed, n - 1);
      var used := UsedIds(cand, claimed) + UsedIds(cand, front);
      front + [if claimed[n - 1].Some? then claimed[n - 1] else FirstFree(cand, used, (c: WsState) => true)]
  }

  function Matched(cand: seq<WsState>, rows: seq<DeskSlot>, output: string): (matches: seq<Match>)
    ensures |matches| == |rows| && InRange(cand, matches)
  {
    if output == "" then Claimed(cand, rows) else Filled(cand, Claimed(cand, rows), |rows|)
  }

  // -------------------------------------------------- injective and complete

  ghost predicate Injective(matches: seq<Match>) {
    forall i, j :: 0 <= i < j < |matches| && matches[i].Some? ==> matches[i] != matches[j]
  }

  lemma {:induction false} ClaimedIsInjective(cand: seq<WsState>, rows: seq<DeskSlot>)
    ensures Injective(Claimed(cand, rows))
    decreases |rows|
  {
    if rows != [] {
      ClaimedIsInjective(cand, rows[..|rows| - 1]);
      var front := Claimed(cand, rows[..|rows| - 1]);
      forall i | 0 <= i < |front| && front[i].Some?
        ensures front[i] != Claimed(cand, rows)[|front|]
      {
        assert cand[front[i].value].id in UsedIds(cand, front);
      }
    }
  }

  /** Nobody is matched like `last`. */
  ghost predicate Fresh(matches: seq<Match>, last: Match) {
    forall i :: 0 <= i < |matches| && matches[i].Some? ==> matches[i] != last
  }

  /** The rows after the first `n` rounds of the leftover pass, with the claims still to come. */
  function Partly(cand: seq<WsState>, claimed: seq<Match>, n: nat): (matches: seq<Match>)
    requires n <= |claimed| && InRange(cand, claimed)
    ensures |matches| == |claimed|
  {
    Filled(cand, claimed, n) + claimed[n..]
  }

  /** A round touches one row at most, and gives it a workspace nobody has. */
  lemma PartlyStep(cand: seq<WsState>, claimed: seq<Match>, n: nat)
    requires 0 < n <= |claimed| && InRange(cand, claimed)
    ensures var before, last := Partly(cand, claimed, n - 1), Filled(cand, claimed, n)[n - 1];
            && before[n - 1] == claimed[n - 1]
            && Partly(cand, claimed, n) == before[n - 1 := last]
            && (claimed[n - 1].Some? ==> last == claimed[n - 1])
            && (claimed[n - 1].None? && last.Some? ==> Fresh(before, last))
  {
    var front, last := Filled(cand, claimed, n - 1), Filled(cand, claimed, n)[n - 1];
    hide UsedIds, FirstFree;
    if claimed[n - 1].None? && last.Some? {
      FreeIsFresh(cand, front, last);
      FreeIsFresh(cand, claimed, last);
    }
  }

  lemma FreeIsFresh(cand: seq<WsState>, matches: seq<Match>, last: Match)
    requires InRange(cand, matches) && last.Some? && last.value < |cand|
    requires cand[last.value].id !in UsedIds(cand, matches)
    ensures Fresh(matches, last)
  {
    hide UsedIds;
    forall i | 0 <= i < |matches| && matches[i].Some?
      ensures matches[i] != last
    {
      UsedIdsHas(cand, matches, i);
    }
  }

  lemma FreshKeepsInjective(matches: seq<Match>, k: nat, last: Match)
    requires Injective(matches) && k < |matches| && Fresh(matches, last)
    ensures Injective(matches[k := last])
  {
  }

  ghost predicate Keeps(claimed: seq<Match>, matches: seq<Match>) {
    |matches| == |claimed| && forall i :: 0 <= i < |claimed| && claimed[i].Some? ==> matches[i] == claimed[i]
  }

  lemma UnclaimedChange(claimed: seq<Match>, matches: seq<Match>, k: nat, last: Match)
    requires Keeps(claimed, matches) && k < |claimed| && claimed[k].None?
    ensures Keeps(claimed, matches[k := last])
  {
  }

  lemma NoRoundYet(cand: seq<WsState>, claimed: seq<Match>)
    requires InRange(cand, claimed)
    ensures Partly(cand, claimed, 0) == claimed && Keeps(claimed, claimed)
  {
  }

  lemma {:induction false} PartlyIsInjective(cand: seq<WsState>, claimed: seq<Match>, n: nat)
    requires n <= |claimed| && InRange(cand, claimed) && Injective(claimed)
    ensures Injective(Partly(cand, claimed, n)) && Keeps(claimed, Partly(cand, claimed, n))
  {
    hide Partly, Filled, Injective, Fresh, InRange, Keeps;
    if n == 0 {
      NoRoundYet(cand, claimed);
    } else {
      PartlyIsInjective(cand, claimed, n - 1);
      PartlyStep(cand, claimed, n);
      var before, last := Partly(cand, claimed, n - 1), Filled(cand, claimed, n)[n - 1];
      if claimed[n - 1].None? && last.Some? {
        FreshKeepsInjective(before, n - 1, last);
        UnclaimedChange(claimed, before, n - 1, last);
      } else {
        assert before[n - 1 := last] == before;
      }
    }
  }

  /** The leftover pass keeps every claim and gives no workspace twice. */
  lemma FilledIsInjective(cand: seq<WsState>, claimed: seq<Match>)
    requires InRange(cand, claimed) && Injective(claimed)
    ensures var matches := Filled(cand, claimed, |claimed|);
            && Injective(matches)
            && forall i :: 0 <= i < |claimed| && claimed[i].Some? ==> matches[i] == claimed[i]
  {
    hide Filled, Injective;
    PartlyIsInjective(cand, claimed, |claimed|);
    assert Partly(cand, claimed, |claimed|) == Filled(cand, claimed, |claimed|);
  }

  /** No workspace is given to two rows. */
  lemma MatchedIsInjective(cand: seq<WsState>, rows: seq<DeskSlot>, output: string)
    ensures Injective(Matched(cand, rows, output))
  {
    ClaimedIsInjective(cand, rows);
    if output != "" {
      FilledIsInjective(cand, Claimed(cand, rows));
    }
  }

  lemma {:induction false} ClaimedPrefix(cand: seq<WsState>, rows: seq<DeskSlot>, i: nat)
    requires i < |rows|
    ensures Claimed(cand, rows)[i] == Claim(cand, UsedIds(cand, Claimed(cand, rows[..i])), rows[i])
    decreases |rows|
  {
    hide UsedIds, Claim;
    var front := rows[..|rows| - 1];
    if i < |front| {
      ClaimedPrefix(cand, front, i);
      assert front[..i] == rows[..i];
    }
  }

  /** A row whose key is the id of a workspace gets that workspace, unless an earlier row took it,
      whatever the names and indices say. */
  lemma IdWins(cand: seq<WsState>, rows: seq<DeskSlot>, output: string, i: nat, k: nat)
    requires DistinctIds(cand) && i < |rows| && k < |cand|
    requires ParseUint(rows[i].key) == Some(cand[k].id)
    requires cand[k].id !in UsedIds(cand, Claimed(cand, rows[..i]))
    ensures Matched(cand, rows, output)[i] == Some(k)
  {
    hide Claimed, Filled, FirstFree, UsedIds;
    ClaimedPrefix(cand, rows, i);
    ClaimedIsInjective(cand, rows);
    FilledIsInjective(cand, Claimed(cand, rows));
  }

  function MatchedRows(matches: seq<Match>): set<nat> {
    set i | 0 <= i < |matches| && matches[i].Some?
  }

  function Taken(matches: seq<Match>): set<nat> {
    set i | 0 <= i < |matches| && matches[i].Some? :: matches[i].value
  }

  lemma {:induction false} TakenCount(matches: seq<Match>)
    requires Injective(matches)
    ensures |Taken(matches)| == |MatchedRows(matches)|
    decreases |matches|
  {
    if matches != [] {
      hide Taken, MatchedRows;
      var n := |matches| - 1;
      var front, last := matches[..n], matches[n];
      TakenCount(front);
      assert matches == front + [last];
      TakenSnoc(front, last);
      MatchedRowsSnoc(front, last);
      if last.Some? {
        NotTaken(matches, n);
      }
    }
  }

  lemma NotTaken(matches: seq<Match>, n: nat)
    requires Injective(matches) && n < |matches| && matches[n].Some?
    ensures matches[n].value !in Taken(matches[..n])
  {
    forall i | 0 <= i < n && matches[..n][i].Some?
      ensures matches[..n][i].value != matches[n].value
    {
      assert matches[i] != matches[n];
    }
  }

  lemma MatchedRowsSnoc(front: seq<Match>, last: Match)
    ensures MatchedRows(front + [last]) == MatchedRows(front) + if last.Some? then {|front|} else {}
    ensures |front| !in MatchedRows(front)
  {
  }

  lemma TakenSnoc(front: seq<Match>, last: Match)
    ensures Taken(front + [last]) == Taken(front) + if last.Some? then {last.value} else {}
  {
    var all := front + [last];
    forall k | k in Taken(front)
      ensures k in Taken(all)
    {
      var i :| 0 <= i < |front| && front[i].Some? && front[i].value == k;
      assert all[i] == front[i];
    }
    if last.Some? {
      assert all[|front|] == last;
    }
    forall k | k in Taken(all)
      ensures k in Taken(front) || last == Some(k)
    {
      var i :| 0 <= i < |all| && all[i].Some? && all[i].value == k;
      if i < |front| {
        assert front[i] == all[i];
      }
    }
  }

  lemma {:induction false} FilledLeavesNothing(cand: seq<WsState>, claimed: seq<Match>, n: nat, i: nat, k: nat)
    requires i < n <= |claimed| && InRange(cand, claimed) && k < |cand|
    requires Filled(cand, claimed, n)[i].None?
    ensures cand[k].id in UsedIds(cand, claimed) + UsedIds(cand, Filled(cand, claimed, n))
  {
    var front := Filled(cand, claimed, n - 1);
    var all := Filled(cand, claimed, n);
    if i < n - 1 {
      FilledLeavesNothing(cand, claimed, n - 1, i, k);
    }
    if cand[k].id in UsedIds(cand, front) {
      var j :| 0 <= j < |front| && front[j].Some? && cand[front[j].value].id == cand[k].id;
      assert all[j] == front[j];
    }
  }

  /** With a named output, rows and workspaces are paired off as far as either goes. */
  lemma MatchedIsComplete(cand: seq<WsState>, rows: seq<DeskSlot>, output: string)
    requires DistinctIds(cand) && output != ""
    ensures |MatchedRows(Matched(cand, rows, output))| == if |rows| <= |cand| then |rows| else |cand|
  {
    hide Claimed, Filled;
    var claimed := Claimed(cand, rows);
    var matches := Matched(cand, rows, output);
    MatchedIsInjective(cand, rows, output);
    ClaimedIsInjective(cand, rows);
    FilledIsInjective(cand, claimed);
    TakenCount(matches);
    var allRows, allCand := Below(|rows|), Below(|cand|);
    assert MatchedRows(matches) <= allRows && Taken(matches) <= allCand;
    SubsetCount(MatchedRows(matches), allRows);
    SubsetCount(Taken(matches), allCand);
    if i :| 0 <= i < |rows| && matches[i].None? {
      forall k | 0 <= k < |cand|
        ensures k in Taken(matches)
      {
        FilledLeavesNothing(cand, claimed, |rows|, i, k);
        IdInUseIsTaken(cand, claimed, matches, k);
      }
      assert Taken(matches) == allCand;
    } else {
      assert MatchedRows(matches) == allRows;
    }
  }

  lemma IdInUseIsTaken(cand: seq<WsState>, claimed: seq<Match>, matches: seq<Match>, k: nat)
    requires DistinctIds(cand) && InRange(cand, claimed) && InRange(cand, matches) && k < |cand|
    requires |claimed| == |matches| && forall i :: 0 <= i < |claimed| && claimed[i].Some? ==> matches[i] == claimed[i]
    requires cand[k].id in UsedIds(cand, claimed) + UsedIds(cand, matches)
    ensures k in Taken(matches)
  {
    var i :| 0 <= i < |matches| && matches[i].Some? && cand[matches[i].value].id == cand[k].id;
    assert matches[i].value == k;
  }

  function Below(n: nat): (r: set<nat>)
    ensures |r| == n && forall i: nat :: i in r <==> i < n
  {
    if n == 0 then {} else Below(n - 1) + {n - 1}
  }

  lemma SubsetCount<T>(a: set<T>, b: set<T>)
    requires a <= b
    ensures |a| <= |b|
  {
    assert b == a + (b - a);
  }

  // ------------------------------------------------------------------- the code

  /** One tier of `claimMatching`: the first wanted candidate that nobody took is taken. */
  method TakeFirst(cand: seq<WsState>, used: set<WorkspaceId>, want: WsState -> bool)
    returns (hit: Match, used': set<WorkspaceId>)
    ensures hit == FirstFree(cand, used, want)
    ensures used' == used + if hit.Some? then {cand[hit.value].id} else {}
  {
    for k := 0 to |cand|
      invariant forall j :: 0 <= j < k ==> !want(cand[j]) || cand[j].id in used
    {
      if want(cand[k]) && cand[k].id !in used {
        return Some(k), used + {cand[k].id};
      }
    }
    return None, used;
  }

  method ClaimMatching(cand: seq<WsState>, used: set<WorkspaceId>, row: DeskSlot)
    returns (hit: Match, used': set<WorkspaceId>)
    ensures hit == Claim(cand, used, row)
    ensures used' == used + if hit.Some? then {cand[hit.value].id} else {}
  {
    hit, used' := None, used;
    var byId := ParseUint(row.key);
    if byId.Some? {
      hit, used' := TakeFirst(cand, used, (c: WsState) => c.id == byId.value);
      if hit.Some? { return; }
    }
    if row.title != "" {
      hit, used' := TakeFirst(cand, used, (c: WsState) => c.name == row.title);
      if hit.Some? { return; }
    }
    var byIdx := RowIndex(row);
    if byIdx.Some? {
      hit, used' := TakeFirst(cand, used, (c: WsState) => c.idx == byIdx.value);
    }
  }

  method ClaimRows(cand: seq<WsState>, rows: seq<DeskSlot>) returns (matches: seq<Match>, used: set<WorkspaceId>)
    ensures matches == Claimed(cand, rows) && used == UsedIds(cand, matches)
  {
    matches, used := [], {};
    assert rows[..0] == [];
    for i := 0 to |rows|
      invariant matches == Claimed(cand, rows[..i]) && used == UsedIds(cand, matches)
    {
      var hit;
      hit, used := ClaimMatching(cand, used, rows[i]);
      assert rows[..i + 1][..i] == rows[..i] && rows[..i + 1][i] == rows[i];
      UsedIdsSnoc(cand, matches, hit);
      matches := matches + [hit];
    }
    assert rows[..|rows|] == rows;
  }

  lemma UsedIdsSnoc(cand: seq<WsState>, front: seq<Match>, last: Match)
    requires InRange(cand, front) && (last.Some? ==> last.value < |cand|)
    ensures InRange(cand, front + [last])
    ensures UsedIds(cand, front + [last]) == UsedIds(cand, front) + if last.Some? then {cand[last.value].id} else {}
  {
    var all := front + [last];
    assert all[|front|] == last;
    assert forall i :: 0 <= i < |front| ==> all[i] == front[i];
    forall id | id in UsedIds(cand, front)
      ensures id in UsedIds(cand, all)
    {
      var i :| 0 <= i < |front| && front[i].Some? && cand[front[i].value].id == id;
      assert all[i] == front[i];
    }
  }

  /** Every candidate is taken once `n` rows have been looked at. */
  ghost predicate Exhausted(cand: seq<WsState>, claimed: seq<Match>, n: nat)
    requires n <= |claimed| && InRange(cand, claimed)
  {
    forall k :: 0 <= k < |cand| ==> cand[k].id in UsedIds(cand, claimed) + UsedIds(cand, Filled(cand, claimed, n))
  }

  lemma UsedIdsHas(cand: seq<WsState>, matches: seq<Match>, i: nat)
    requires InRange(cand, matches) && i < |matches| && matches[i].Some?
    ensures cand[matches[i].value].id in UsedIds(cand, matches)
  {
  }

  /** Stopping at the first row that finds nothing left gives the same as going on. */
  lemma {:induction false} StopWhenExhausted(cand: seq<WsState>, claimed: seq<Match>, i: nat, n: nat)
    requires i <= n <= |claimed| && InRange(cand, claimed)
    requires Exhausted(cand, claimed, i)
    ensures Exhausted(cand, claimed, n)
    ensures forall j :: 0 <= j < n ==>
      Filled(cand, claimed, n)[j] == if j < i then Filled(cand, claimed, i)[j] else claimed[j]
    decreases n
  {
    hide UsedIds;
    if n > i {
      StopWhenExhausted(cand, claimed, i, n - 1);
      UsedIdsSnoc(cand, Filled(cand, claimed, n - 1), Filled(cand, claimed, n)[n - 1]);
    }
  }

  lemma FilledSnoc(cand: seq<WsState>, claimed: seq<Match>, i: nat)
    requires i < |claimed| && InRange(cand, claimed)
    ensures var used := UsedIds(cand, claimed) + UsedIds(cand, Filled(cand, claimed, i));
            var next := if claimed[i].Some? then claimed[i] else FirstFree(cand, used, (c: WsState) => true);
            && Filled(cand, claimed, i + 1) == Filled(cand, claimed, i) + [next]
            && UsedIds(cand, Filled(cand, claimed, i + 1))
               == UsedIds(cand, Filled(cand, claimed, i)) + if next.Some? then {cand[next.value].id} else {}
  {
    hide UsedIds;
    UsedIdsSnoc(cand, Filled(cand, claimed, i), Filled(cand, claimed, i + 1)[i]);
  }

  /** The leftover pass: one cursor runs over the candidates and never turns back. */
  method FillRows(cand: seq<WsState>, claimed: seq<Match>, used0: set<WorkspaceId>) returns (matches: seq<Match>)
    requires InRange(cand, claimed) && used0 == UsedIds(cand, claimed)
    ensures matches == Filled(cand, claimed, |claimed|)
  {
    hide UsedIds, Filled, FirstFree;
    matches := claimed;
    var used, cursor, i := used0, 0, 0;
    UsedIdsNone(cand, claimed);
    while i < |claimed|
      invariant 0 <= i <= |claimed| == |matches| && 0 <= cursor <= |cand|
      invariant forall j :: 0 <= j < |claimed| ==> matches[j] == if j < i then Filled(cand, claimed, i)[j] else claimed[j]
      invariant used == used0 + UsedIds(cand, Filled(cand, claimed, i))
      invariant forall k :: 0 <= k < cursor ==> cand[k].id in used
    {
      if matches[i].None? {
        ghost var free := FirstFree(cand, used, (c: WsState) => true);
        while cursor < |cand| && cand[cursor].id in used
          invariant 0 <= cursor <= |cand|
          invariant forall k :: 0 <= k < cursor ==> cand[k].id in used
        {
          cursor := cursor + 1;
        }
        if cursor >= |cand| {
          StopWhenExhausted(cand, claimed, i, |claimed|);
          return;
        }
        FilledSnoc(cand, claimed, i);
        assert free == Some(cursor);
        matches := matches[i := Some(cursor)];
        used := used + {cand[cursor].id};
        cursor := cursor + 1;
      } else {
        FilledSnoc(cand, claimed, i);
        UsedIdsHas(cand, claimed, i);
      }
      i := i + 1;
    }
  }

  lemma UsedIdsNone(cand: seq<WsState>, claimed: seq<Match>)
    requires InRange(cand, claimed)
    ensures Filled(cand, claimed, 0) == [] && UsedIds(cand, []) == {}
  {
  }

  /** What `sync` writes back into a row. */
  function Written(row: DeskSlot, ws: Option<WsState>, occupancy: Occupancy): DeskSlot {
    match ws
    case None => row.(ordinal := 0, occupied := false)
    case Some(c) => row.(ordinal := if c.idx > 0 then c.idx else row.ordinal,
                         occupied := c.id in occupancy && occupancy[c.id] > 0)
  }

  function WsOf(cand: seq<WsState>, m: Match): Option<WsState>
    requires m.Some? ==> m.value < |cand|
  {
    match m case None => None case Some(k) => Some(cand[k])
  }

  /** `NiriWorkspaceManager::sync`. */
  method Sync(rows: array<DeskSlot>, workspaces: Workspaces, occupancy: Occupancy, output: string, canConnect: bool)
    returns (ghost cand: seq<WsState>)
    requires Keyed(workspaces)
    modifies rows
    ensures IsCandidateList(workspaces, output, cand)
    ensures !canConnect || workspaces == map[] ==> rows[..] == old(rows[..])
    ensures canConnect && workspaces != map[] ==>
      forall i :: 0 <= i < rows.Length ==>
        rows[i] == Written(old(rows[i]), WsOf(cand, Matched(cand, old(rows[..]), output)[i]), occupancy)
  {
    hide Claimed, Filled, IsCandidateList, UsedIds;
    var candidates := SortedCandidates(workspaces, output);
    cand := candidates;
    if !canConnect || rows.Length == 0 || workspaces == map[] { return; }
    var matches, used := ClaimRows(candidates, rows[..]);
    if output != "" {
      matches := FillRows(candidates, matches, used);
    }
    assert matches == Matched(cand, rows[..], output);
    WriteRows(rows, candidates, matches, occupancy);
  }

  method WriteRows(rows: array<DeskSlot>, cand: seq<WsState>, matches: seq<Match>, occupancy: Occupancy)
    requires |matches| == rows.Length && InRange(cand, matches)
    modifies rows
    ensures forall i :: 0 <= i < rows.Length ==> rows[i] == Written(old(rows[i]), WsOf(cand, matches[i]), occupancy)
  {
    for i := 0 to rows.Length
      invariant forall k :: i <= k < rows.Length ==> rows[k] == old(rows[k])
      invariant forall k :: 0 <= k < i ==> rows[k] == Written(old(rows[k]), WsOf(cand, matches[k]), occupancy)
    {
      if matches[i].None? {
        rows[i] := rows[i].(ordinal := 0, occupied := false);
      } else {
        var ws := cand[matches[i].value];
        if ws.idx > 0 {
          rows[i] := rows[i].(ordinal := ws.idx);
        }
        var live := ws.id in occupancy && occupancy[ws.id] > 0;
        rows[i] := rows[i].(occupied := live);
      }
    }
  }

  /** With an up-to-date tally, a matched row is marked occupied exactly when a window sits there. */
  lemma OccupiedMeansSomeWindow(row: DeskSlot, ws: WsState, windows: Windows)
    ensures Written(row, Some(ws), Tally(windows)).occupied <==>
            exists id :: id in windows && windows[id].wsId == Some(ws.id)
  {
    TallyIsPositive(windows, ws.id);
  }
}
