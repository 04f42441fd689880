/**
  The layering of configuration tables.

  A TOML document is a tree whose inner nodes are tables and whose leaves are
  every other kind of value (strings, numbers, arrays).  `deep_merge_toml` folds
  an overlay into a base, table by table.
 */
module TomlMerge {
  datatype Node = Leaf(value: string) | Table(entries: Entries)

  type Entries = map<string, Node>

  /** What a path leads to. */
  datatype Kind = Absent | LeafKind(value: string) | TableKind

  // ---------------------------------------------------------------- the merge

  function Merged(base: Entries, overlay: Entries): Entries
    decreases Table(overlay)
  {
    map k | k in base.Keys + overlay.Keys ::
      if k !in overlay then base[k]
      else if k in base && base[k].Table? && overlay[k].Table?
      then Table(Merged(base[k].entries, overlay[k].entries))
      else overlay[k]
  }

  /** The loop of the source: overlay entries are folded in one at a time, in whatever order
      the table yields them. */
  method DeepMerge(base: Entries, overlay: Entries) returns (merged: Entries)
    ensures merged == Merged(base, overlay)
    decreases Table(overlay)
  {
    merged := base;
    var todo := overlay.Keys;
    while todo != {}
      invariant todo <= overlay.Keys
      invariant merged.Keys == base.Keys + (overlay.Keys - todo)
      invariant forall k :: k in merged ==>
        merged[k] == if k in overlay && k !in todo then Merged(base, overlay)[k] else base[k]
    {
      var k :| k in todo;
      if overlay[k].Table? && k in merged && merged[k].Table? {
        var inner := DeepMerge(merged[k].entries, overlay[k].entries);
        merged := merged[k := Table(inner)];
      } else {
        merged := merged[k := overlay[k]];
      }
      todo := todo - {k};
    }
  }

  // ------------------------------------------------------------------- paths

  function KindOf(node: Node): Kind {
    match node
    case Leaf(v) => LeafKind(v)
    case Table(_) => TableKind
  }

  function KindAt(table: Entries, path: seq<string>): Kind
    requires path != []
    decreases |path|
  {
    if path[0] !in table then Absent
    else if |path| == 1 then KindOf(table[path[0]])
    else match table[path[0]]
      case Leaf(_) => Absent
      case Table(inner) => KindAt(inner, path[1..])
  }

  /** Some proper prefix of the path is a leaf. */
  predicate LeafAbove(table: Entries, path: seq<string>) {
    exists n :: 0 < n < |path| && KindAt(table, path[..n]).LeafKind?
  }

  lemma LeafAboveStep(table: Entries, path: seq<string>)
    requires |path| > 1
    ensures LeafAbove(table, path) <==>
            path[0] in table &&
            (table[path[0]].Leaf? || LeafAbove(table[path[0]].entries, path[1..]))
  {
    if LeafAbove(table, path) {
      var n :| 0 < n < |path| && KindAt(table, path[..n]).LeafKind?;
      if table[path[0]].Table? {
        assert path[..n][1..] == path[1..][..n - 1];
        assert KindAt(table[path[0]].entries, path[1..][..n - 1]).LeafKind?;
      }
    }
    if path[0] in table {
      if table[path[0]].Leaf? {
        assert KindAt(table, path[..1]).LeafKind?;
      } else if LeafAbove(table[path[0]].entries, path[1..]) {
        var n :| 0 < n < |path[1..]| && KindAt(table[path[0]].entries, path[1..][..n]).LeafKind?;
        assert path[..n + 1][1..] == path[1..][..n];
        assert KindAt(table, path[..n + 1]).LeafKind?;
      }
    }
  }

  /** At every path the overlay wins where it has anything, it hides the base below its leaves,
      and everywhere else the base shows through unchanged. */
  lemma {:induction false} MergeAtPath(base: Entries, overlay: Entries, path: seq<string>)
    requires path != []
    ensures KindAt(Merged(base, overlay), path) ==
            if KindAt(overlay, path) != Absent then KindAt(overlay, path)
            else if LeafAbove(overlay, path) then Absent
            else KindAt(base, path)
    decreases |path|
  {
    var k := path[0];
    if |path| > 1 {
      LeafAboveStep(overlay, path);
      if k in overlay && overlay[k].Table? && k in base && base[k].Table? {
        MergeAtPath(base[k].entries, overlay[k].entries, path[1..]);
      } else if k in overlay && overlay[k].Table? {
        // The overlay's table stands alone: a path it does not know leads nowhere in the base either.
        assert KindAt(base, path) == Absent;
      }
    } else if LeafAbove(overlay, path) {
      assert false;
    }
  }

  /** A table is known by what its paths lead to, so MergeAtPath pins the merge down completely. */
  lemma {:induction false} SameKindsSameTable(a: Entries, b: Entries)
    requires forall p: seq<string> :: p != [] ==> KindAt(a, p) == KindAt(b, p)
    ensures a == b
    decreases Table(a)
  {
    forall k: string
      ensures (k in a) == (k in b) && (k in a ==> a[k] == b[k])
    {
      assert KindAt(a, [k]) == KindAt(b, [k]);
      if k in a && a[k].Table? {
        forall p: seq<string> | p != []
          ensures KindAt(a[k].entries, p) == KindAt(b[k].entries, p)
        {
          assert ([k] + p)[1..] == p;
          assert KindAt(a, [k] + p) == KindAt(b, [k] + p);
        }
        SameKindsSameTable(a[k].entries, b[k].entries);
      }
    }
  }

  /** Merging the same overlay a second time changes nothing. */
  lemma {:induction false} MergeTwice(base: Entries, overlay: Entries)
    ensures Merged(Merged(base, overlay), overlay) == Merged(base, overlay)
  {
    var once := Merged(base, overlay);
    var twice := Merged(once, overlay);
    forall p: seq<string> | p != []
      ensures KindAt(twice, p) == KindAt(once, p)
    {
      MergeAtPath(once, overlay, p);
      MergeAtPath(base, overlay, p);
    }
    SameKindsSameTable(twice, once);
  }

  // ---------------------------------------------------------- stacked overlays

  /** Declarative files, the settings file and the component files are merged one after another. */
  function MergedAll(base: Entries, overlays: seq<Entries>): Entries {
    if overlays == [] then base
    else Merged(MergedAll(base, overlays[..|overlays| - 1]), overlays[|overlays| - 1])
  }

  /** The overlay has a say about the path: it has something there, or a leaf above it. */
  predicate Speaks(overlay: Entries, path: seq<string>)
    requires path != []
  {
    KindAt(overlay, path) != Absent || LeafAbove(overlay, path)
  }

  /** The last file that speaks about a path decides it; a path no file speaks about (`last` is -1)
      is the base's. */
  lemma {:induction false} LastSpeakerWins(base: Entries, overlays: seq<Entries>, path: seq<string>, last: int)
    requires path != []
    requires -1 <= last < |overlays|
    requires 0 <= last ==> Speaks(overlays[last], path)
    requires forall j :: last < j < |overlays| ==> !Speaks(overlays[j], path)
    ensures KindAt(MergedAll(base, overlays), path) ==
            if 0 <= last then KindAt(overlays[last], path) else KindAt(base, path)
    decreases |overlays|
  {
    if overlays != [] {
      var n := |overlays| - 1;
      MergeAtPath(MergedAll(base, overlays[..n]), overlays[n], path);
      if last < n {
        LastSpeakerWins(base, overlays[..n], path, last);
      }
    }
  }

  // ----------------------------------------------- merging the overlays first

  /** `o1` hides what the base has at the path under a leaf, `o2` puts a table in that leaf's place and
      says nothing at the path itself. */
  predicate Resurfaces(base: Entries, o1: Entries, o2: Entries, path: seq<string>)
    requires path != []
  {
    && KindAt(base, path) != Absent
    && !Speaks(o2, path)
    && exists n :: 0 < n < |path| && KindAt(o1, path[..n]).LeafKind? && KindAt(o2, path[..n]) == TableKind
  }

  /** Below a leaf there is nothing. */
  lemma {:induction false} NothingBelowALeaf(table: Entries, path: seq<string>, n: nat)
    requires 0 < n < |path| && KindAt(table, path[..n]).LeafKind?
    ensures KindAt(table, path) == Absent
    decreases n
  {
    if n > 1 {
      assert path[..n][1..] == path[1..][..n - 1];
      NothingBelowALeaf(table[path[0]].entries, path[1..], n - 1);
    }
  }

  /** A path has at most one leaf above it. */
  lemma OneLeafAbove(table: Entries, path: seq<string>, m: nat, n: nat)
    requires 0 < m < |path| && 0 < n < |path|
    requires KindAt(table, path[..m]).LeafKind? && KindAt(table, path[..n]).LeafKind?
    ensures m == n
  {
    if m < n {
      assert path[..n][..m] == path[..m];
      NothingBelowALeaf(table, path[..n], m);
    } else if n < m {
      assert path[..m][..n] == path[..n];
      NothingBelowALeaf(table, path[..m], n);
    }
  }

  /** A prefix has no leaf above it if the whole path has none. */
  lemma NoLeafAbovePrefix(table: Entries, path: seq<string>, n: nat)
    requires 0 < n < |path| && !LeafAbove(table, path)
    ensures !LeafAbove(table, path[..n]) && !KindAt(table, path[..n]).LeafKind?
  {
    forall m | 0 < m < n
      ensures path[..n][..m] == path[..m]
    {
    }
  }

  /** Where `o2` is silent, the leaves above a path in the two overlays' merge are those of `o1` that no
      table of `o2` replaces. */
  lemma LeafAboveBoth(o1: Entries, o2: Entries, path: seq<string>)
    requires path != [] && !LeafAbove(o2, path)
    ensures LeafAbove(Merged(o1, o2), path)
            <==> exists n :: 0 < n < |path| && KindAt(o1, path[..n]).LeafKind? && KindAt(o2, path[..n]) == Absent
  {
    forall n | 0 < n < |path|
      ensures KindAt(Merged(o1, o2), path[..n]).LeafKind?
              <==> KindAt(o1, path[..n]).LeafKind? && KindAt(o2, path[..n]) == Absent
    {
      MergeAtPath(o1, o2, path[..n]);
      NoLeafAbovePrefix(o2, path, n);
    }
  }

  lemma LeafAboveFromO2(o1: Entries, o2: Entries, path: seq<string>)
    requires path != [] && LeafAbove(o2, path)
    ensures LeafAbove(Merged(o1, o2), path)
  {
    var n :| 0 < n < |path| && KindAt(o2, path[..n]).LeafKind?;
    MergeAtPath(o1, o2, path[..n]);
  }

  /** At one path the two groupings differ exactly when something of the base resurfaces there. */
  lemma GroupingAtPath(base: Entries, o1: Entries, o2: Entries, path: seq<string>)
    requires path != []
    ensures KindAt(Merged(Merged(base, o1), o2), path) == KindAt(Merged(base, Merged(o1, o2)), path)
            <==> !Resurfaces(base, o1, o2, path)
  {
    hide KindAt, LeafAbove;
    MergeAtPath(Merged(base, o1), o2, path);
    MergeAtPath(base, o1, path);
    MergeAtPath(base, Merged(o1, o2), path);
    MergeAtPath(o1, o2, path);
    if LeafAbove(o2, path) {
      LeafAboveFromO2(o1, o2, path);
    } else {
      LeafAboveBoth(o1, o2, path);
      HiddenOrReplaced(o1, o2, path);
    }
  }

  /** A leaf of `o1` above the path either stays or is replaced by a table of `o2`. */
  lemma HiddenOrReplaced(o1: Entries, o2: Entries, path: seq<string>)
    requires path != [] && !LeafAbove(o2, path)
    ensures LeafAbove(o1, path)
            <==> (exists n :: 0 < n < |path| && KindAt(o1, path[..n]).LeafKind? && KindAt(o2, path[..n]) == Absent)
                 || (exists n :: 0 < n < |path| && KindAt(o1, path[..n]).LeafKind? && KindAt(o2, path[..n]) == TableKind)
    ensures !((exists n :: 0 < n < |path| && KindAt(o1, path[..n]).LeafKind? && KindAt(o2, path[..n]) == Absent)
              && (exists n :: 0 < n < |path| && KindAt(o1, path[..n]).LeafKind? && KindAt(o2, path[..n]) == TableKind))
    ensures LeafAbove(o1, path) ==> KindAt(o1, path) == Absent
  {
    hide KindAt;
    forall n | 0 < n < |path|
      ensures KindAt(o2, path[..n]) == Absent || KindAt(o2, path[..n]) == TableKind
    {
      NoLeafAbovePrefix(o2, path, n);
    }
    forall m, n | 0 < m < |path| && 0 < n < |path| && KindAt(o1, path[..m]).LeafKind? && KindAt(o1, path[..n]).LeafKind?
      ensures m == n
    {
      OneLeafAbove(o1, path, m, n);
    }
    if n :| 0 < n < |path| && KindAt(o1, path[..n]).LeafKind? {
      NothingBelowALeaf(o1, path, n);
    }
  }

  /** Files may be merged with one another first exactly when nothing of the base resurfaces: a leaf a
      middle file wrote over a table is forgotten when a later file has a table there. */
  lemma MergingOverlaysFirstAgreesExactlyWhen(base: Entries, o1: Entries, o2: Entries)
    ensures Merged(Merged(base, o1), o2) == Merged(base, Merged(o1, o2))
            <==> forall p: seq<string> :: p != [] ==> !Resurfaces(base, o1, o2, p)
  {
    hide KindAt, Resurfaces, Merged;
    var left, right := Merged(Merged(base, o1), o2), Merged(base, Merged(o1, o2));
    forall p: seq<string> | p != []
      ensures KindAt(left, p) == KindAt(right, p) <==> !Resurfaces(base, o1, o2, p)
    {
      GroupingAtPath(base, o1, o2, p);
    }
    if forall p: seq<string> :: p != [] ==> !Resurfaces(base, o1, o2, p) {
      SameKindsSameTable(left, right);
    }
  }

  /** The base's `dock.x` resurfaces when a middle file turns the dock off and a later one sets `dock.y`. */
  lemma MergingOverlaysFirstDiffers()
    ensures var base: Entries := map["dock" := Table(map["x" := Leaf("1")])];
            var o1: Entries := map["dock" := Leaf("off")];
            var o2: Entries := map["dock" := Table(map["y" := Leaf("2")])];
            Resurfaces(base, o1, o2, ["dock", "x"]) && Merged(Merged(base, o1), o2) != Merged(base, Merged(o1, o2))
  {
    var base: Entries := map["dock" := Table(map["x" := Leaf("1")])];
    var o1: Entries := map["dock" := Leaf("off")];
    var o2: Entries := map["dock" := Table(map["y" := Leaf("2")])];
    var path := ["dock", "x"];
    LeafAboveStep(o2, path);
    assert path[..1] == ["dock"];
    assert KindAt(o1, path[..1]).LeafKind? && KindAt(o2, path[..1]) == TableKind;
    assert KindAt(base, path) == LeafKind("1");
    MergingOverlaysFirstAgreesExactlyWhen(base, o1, o2);
  }
}
