/** The order of workspaces and the ranks of a jump, said without the functions that compute them. */
module ExtLaws {
  import opened Wrappers
  import opened Desks
  import opened ExtWorkspace

  /** A coordinate; behind the end of a path they are all zero. */
  function At(path: seq<nat>, i: nat): nat {
    if i < |path| then path[i] else 0
  }

  ghost predicate SamePlace(a: seq<nat>, b: seq<nat>) {
    forall i: nat :: At(a, i) == At(b, i)
  }

  ghost predicate SomeWhere(path: seq<nat>) {
    exists i: nat :: At(path, i) != 0
  }

  lemma {:induction false} StrippedIs(path: seq<nat>)
    ensures |Stripped(path)| <= |path| && (forall i: nat :: At(Stripped(path), i) == At(path, i))
    ensures Stripped(path) != [] ==> Stripped(path)[|Stripped(path)| - 1] != 0
    decreases |path|
  {
    if path != [] && path[|path| - 1] == 0 {
      StrippedIs(path[..|path| - 1]);
      forall i: nat
        ensures At(path[..|path| - 1], i) == At(path, i)
      {
      }
    }
  }

  lemma SamePlaceMeansSamePath(a: seq<nat>, b: seq<nat>)
    ensures Stripped(a) == Stripped(b) <==> SamePlace(a, b)
  {
    StrippedIs(a);
    StrippedIs(b);
    var s, t := Stripped(a), Stripped(b);
    if s == t {
      forall i: nat
        ensures At(a, i) == At(b, i)
      {
        assert At(s, i) == At(a, i) && At(t, i) == At(b, i);
      }
    }
    if SamePlace(a, b) {
      forall i: nat
        ensures At(s, i) == At(t, i)
      {
        assert At(s, i) == At(a, i) && At(t, i) == At(b, i) && At(a, i) == At(b, i);
      }
      if t != [] {
        assert At(s, |t| - 1) == At(t, |t| - 1);
      }
      if s != [] {
        assert At(s, |s| - 1) == At(t, |s| - 1);
      }
      forall i | 0 <= i < |s|
        ensures s[i] == t[i]
      {
        assert At(s, i) == At(t, i);
      }
    }
  }

  lemma SomewhereMeansSomePath(a: seq<nat>)
    ensures Stripped(a) != [] <==> SomeWhere(a)
    ensures Stripped(a) != [] ==> Stripped(a)[0] == At(a, 0)
  {
    StrippedIs(a);
    var s := Stripped(a);
    if s != [] {
      assert At(s, |s| - 1) == At(a, |s| - 1) != 0;
      assert At(s, 0) == At(a, 0);
    }
    if i: nat :| At(a, i) != 0 {
      assert At(s, i) == At(a, i);
    }
  }

  /** Rank zero is the very desk: key, label and place. Rank one is another with its key, unless that is empty. Rank two is
      another whose place begins as the one asked for, both being somewhere. All others do not match. */
  lemma RankSaid(cand: DeskSlot, want: DeskSlot)
    ensures var rank := MatchRank(cand, want);
            var exact := cand.key == want.key && cand.title == want.title && SamePlace(cand.path, want.path);
            var keyed := want.key != "" && cand.key == want.key;
            var near := SomeWhere(cand.path) && SomeWhere(want.path) && At(cand.path, 0) == At(want.path, 0);
            rank == if exact then 0 else if keyed then 1 else if near then 2 else -1
  {
    hide Stripped;
    SamePlaceMeansSamePath(want.path, cand.path);
    SomewhereMeansSomePath(want.path);
    SomewhereMeansSomePath(cand.path);
    assert SamePlace(cand.path, want.path) <==> SamePlace(want.path, cand.path);
  }

  /** Paths compare at the first coordinate where they differ; a path comes before those that go on from it. */
  lemma {:induction false} PathLessSaid(a: seq<nat>, b: seq<nat>)
    ensures PathLess(a, b) <==> exists n :: 0 <= n < |b| && n <= |a| && a[..n] == b[..n] && (n == |a| || a[n] < b[n])
    decreases |a|
  {
    if a != [] && b != [] && a[0] == b[0] {
      PathLessSaid(a[1..], b[1..]);
      if n :| 0 <= n < |b[1..]| && n <= |a[1..]| && a[1..][..n] == b[1..][..n] && (n == |a[1..]| || a[1..][n] < b[1..][n]) {
        assert a[..n + 1] == [a[0]] + a[1..][..n] && b[..n + 1] == [b[0]] + b[1..][..n];
      }
      if n :| 0 < n < |b| && n <= |a| && a[..n] == b[..n] && (n == |a| || a[n] < b[n]) {
        assert a[1..][..n - 1] == a[..n][1..] == b[..n][1..] == b[1..][..n - 1];
      }
    } else if a != [] && b != [] {
      if n :| 0 < n < |b| && n <= |a| && a[..n] == b[..n] {
        assert a[..n][0] == b[..n][0];
      }
      assert a[..0] == b[..0];
    } else {
      assert b != [] ==> a[..0] == b[..0];
    }
  }
}
