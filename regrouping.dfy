/** `_groupByKey`: adding one more grouping level under every leaf group of
    an existing group tree, and the items in their new order. */
module Regrouping {
  import opened Optional
  import opened Rows
  import opened Sorting

  import GroupKeys
  import opened Groups

  /** The leaf group `g` after `_groupByKey`: its rows sorted by `column`, and
      the groups of that sorted slice as its children. */
  function RegroupLeaf(g: Group, items: seq<Slot>, column: string): (seq<Slot>, Group)
  {
    var sorted := LeafRows(g, items, column);
    (sorted, g.(children := Runs(sorted, column, Some(g))))
  }

  /** The rows of leaf `g`, sorted by `column`. */
  function LeafRows(g: Group, items: seq<Slot>, column: string): seq<Slot>
  {
    SortedCopy(Slice(items, g.startIndex, g.startIndex + g.count), column, false)
  }

  /** What `_groupByKey(groups, items, column)` returns, with the tree it
      leaves behind: the loop over the groups in order, recursing into groups
      that have children and regrouping the leaves. */
  function Regroup(groups: seq<Group>, items: seq<Slot>, column: string): (seq<Slot>, seq<Group>)
  {
    if |groups| == 0 then ([], [])
    else
      var done := Regroup(groups[..|groups| - 1], items, column);
      var g := Last(groups);
      if |g.children| > 0 then
        var below := Regroup(g.children, items, column);
        (done.0 + below.0, done.1 + [g.(children := below.1)])
      else
        var leaf := RegroupLeaf(g, items, column);
        (done.0 + leaf.0, done.1 + [leaf.1])
  }

  /** `_groupByKey(groups, items, column)`: returns the new item order and the
      group tree with the new level added. */
  method GroupByKey(groups: seq<Group>, items: seq<Slot>, column: string)
    returns (groupedItems: seq<Slot>, newGroups: seq<Group>)
    ensures (groupedItems, newGroups) == Regroup(groups, items, column)
    ensures |newGroups| == |groups|
    ensures forall j :: 0 <= j < |groups| ==> newGroups[j] == groups[j].(children := newGroups[j].children)
    ensures SameFields(groups, newGroups)
    ensures multiset(groupedItems) == multiset(LeafSlices(groups, items))
  {
    groupedItems, newGroups := [], [];
    var i := 0;
    while i < |groups|
      invariant 0 <= i <= |groups|
      invariant (groupedItems, newGroups) == Regroup(groups[..i], items, column)
    {
      assert groups[..i + 1][..i] == groups[..i];
      var group := groups[i];
      if |group.children| > 0 {
        var childItems, childGroups := GroupByKey(group.children, items, column);
        groupedItems := groupedItems + childItems;
        newGroups := newGroups + [group.(children := childGroups)];
      } else {
        var itemsInGroup := Slice(items, group.startIndex, group.startIndex + group.count);
        var nextLevelItems := SortedCopy(itemsInGroup, column, false);
        groupedItems := groupedItems + nextLevelItems;
        var children := GetGroups(nextLevelItems, column, Some(group));
        newGroups := newGroups + [group.(children := children)];
      }
      i := i + 1;
    }
    assert groups[..i] == groups;
    RegroupKeepsFields(groups, items, column);
    RegroupPermutes(groups, items, column);
  }

  /** The leaf groups of a tree, in tree order. */
  function Leaves(groups: seq<Group>): seq<Group>
  {
    if |groups| == 0 then []
    else
      var g := Last(groups);
      Leaves(groups[..|groups| - 1]) + (if |g.children| > 0 then Leaves(g.children) else [g])
  }

  /** The rows of the leaf groups' ranges, leaf after leaf, unsorted. */
  function LeafSlices(groups: seq<Group>, items: seq<Slot>): seq<Slot>
  {
    if |groups| == 0 then []
    else
      var g := Last(groups);
      LeafSlices(groups[..|groups| - 1], items) +
        (if |g.children| > 0 then LeafSlices(g.children, items)
         else Slice(items, g.startIndex, g.startIndex + g.count))
  }

  /** `b` is `a` with new children only: the same number of groups, each with
      the key, name, range and level it had, and below every group that had
      children, the same holds again for those children. */
  predicate SameFields(a: seq<Group>, b: seq<Group>)
    decreases a
  {
    |a| == |b| &&
    forall j :: 0 <= j < |a| ==>
      b[j] == a[j].(children := b[j].children) &&
      (|a[j].children| > 0 ==> SameFields(a[j].children, b[j].children))
  }

  /** `_groupByKey` keeps every group's key, name, range and level and only
      gives it new children, at every level of the tree. */
  lemma {:induction false} RegroupKeepsFields(groups: seq<Group>, items: seq<Slot>, column: string)
    ensures var after := Regroup(groups, items, column).1;
      |after| == |groups| &&
      (forall j :: 0 <= j < |groups| ==> after[j] == groups[j].(children := after[j].children)) &&
      SameFields(groups, after)
  {
    if |groups| > 0 {
      var init := groups[..|groups| - 1];
      var g := Last(groups);
      RegroupKeepsFields(init, items, column);
      if |g.children| > 0 {
        RegroupKeepsFields(g.children, items, column);
      }
      var before := Regroup(init, items, column).1;
      var after := Regroup(groups, items, column).1;
      assert after[..|before|] == before;
      forall j | 0 <= j < |groups|
        ensures after[j] == groups[j].(children := after[j].children)
        ensures |groups[j].children| > 0 ==> SameFields(groups[j].children, after[j].children)
      {
        if j < |init| {
          assert after[j] == before[j] && groups[j] == init[j];
        }
      }
    }
  }

  /** The items `_groupByKey` returns are a permutation of the rows of the
      leaf ranges. */
  lemma {:induction false} RegroupPermutes(groups: seq<Group>, items: seq<Slot>, column: string)
    ensures multiset(Regroup(groups, items, column).0) == multiset(LeafSlices(groups, items))
  {
    if |groups| > 0 {
      var init := groups[..|groups| - 1];
      var g := Last(groups);
      RegroupPermutes(init, items, column);
      var done, slices := Regroup(init, items, column).0, LeafSlices(init, items);
      if |g.children| > 0 {
        RegroupPermutes(g.children, items, column);
        RegroupLastBranch(groups, items, column);
        PermutedAppend(Regroup(groups, items, column).0, LeafSlices(groups, items),
          done, Regroup(g.children, items, column).0, slices, LeafSlices(g.children, items));
      } else {
        LeafRowsPermute(g, items, column);
        RegroupLastLeaf(groups, items, column);
        PermutedAppend(Regroup(groups, items, column).0, LeafSlices(groups, items),
          done, LeafRows(g, items, column), slices, Slice(items, g.startIndex, g.startIndex + g.count));
      }
    }
  }

  /** Permutations of two lists, joined, permute the two joined. */
  lemma PermutedAppend(r: seq<Slot>, l: seq<Slot>, a: seq<Slot>, b: seq<Slot>, c: seq<Slot>, d: seq<Slot>)
    requires r == a + b && l == c + d
    requires multiset(a) == multiset(c) && multiset(b) == multiset(d)
    ensures multiset(r) == multiset(l)
  {
  }

  /** A leaf's re-sorted rows are a permutation of the rows of its range. */
  lemma LeafRowsPermute(g: Group, items: seq<Slot>, column: string)
    ensures multiset(LeafRows(g, items, column)) == multiset(Slice(items, g.startIndex, g.startIndex + g.count))
  {
    SortedCopyPermutesAt(Slice(items, g.startIndex, g.startIndex + g.count), LeafRows(g, items, column), column);
  }

  lemma SortedCopyPermutesAt(rows: seq<Slot>, sorted: seq<Slot>, column: string)
    requires sorted == SortedCopy(rows, column, false)
    ensures multiset(sorted) == multiset(rows)
  {
    SortedCopyPermutes(rows, column, false);
  }

  /** One step of `_groupByKey`'s loop on a group with sub-groups: its
      regrouped sub-tree's rows follow those of the groups before it. */
  lemma RegroupLastBranch(groups: seq<Group>, items: seq<Slot>, column: string)
    requires |groups| > 0 && |Last(groups).children| > 0
    ensures var init := groups[..|groups| - 1]; var g := Last(groups);
      Regroup(groups, items, column).0 == Regroup(init, items, column).0 + Regroup(g.children, items, column).0 &&
      LeafSlices(groups, items) == LeafSlices(init, items) + LeafSlices(g.children, items)
  {
  }

  /** One step of `_groupByKey`'s loop on a leaf: its re-sorted rows follow
      those of the groups before it. */
  lemma RegroupLastLeaf(groups: seq<Group>, items: seq<Slot>, column: string)
    requires |groups| > 0 && |Last(groups).children| == 0
    ensures var init := groups[..|groups| - 1]; var g := Last(groups);
      Regroup(groups, items, column).0 == Regroup(init, items, column).0 + LeafRows(g, items, column) &&
      LeafSlices(groups, items) == LeafSlices(init, items) + Slice(items, g.startIndex, g.startIndex + g.count)
  {
  }

  /** The groups tile `[lo, hi)`, and every group with sub-groups has them
      tile its own range, all the way down the tree. */
  predicate TreeTiling(groups: seq<Group>, lo: int, hi: int)
  {
    if |groups| == 0 then lo == hi
    else
      var g := Last(groups);
      g.count >= 1 && lo <= g.startIndex && g.startIndex + g.count == hi &&
      TreeTiling(groups[..|groups| - 1], lo, g.startIndex) &&
      (|g.children| > 0 ==> TreeTiling(g.children, g.startIndex, hi))
  }

  /** Groups without sub-groups that tile a range are a tree that tiles it. */
  lemma {:induction false} FlatTreeTiling(groups: seq<Group>, lo: int, hi: int)
    requires Tiling(groups, lo, hi)
    requires forall j :: 0 <= j < |groups| ==> groups[j].children == []
    ensures TreeTiling(groups, lo, hi) && Leaves(groups) == groups
  {
    if |groups| > 0 {
      var init := groups[..|groups| - 1];
      FlatTreeTiling(init, lo, Last(groups).startIndex);
      assert init + [Last(groups)] == groups;
    }
  }

  /** The leaf ranges of a tree that tiles `[lo, hi)` read the rows
      `items[lo..hi]` back in order. */
  lemma {:induction false} LeafSlicesCover(groups: seq<Group>, items: seq<Slot>, lo: nat, hi: nat)
    requires TreeTiling(groups, lo, hi) && hi <= |items|
    ensures LeafSlices(groups, items) == items[lo..hi]
  {
    if |groups| > 0 {
      var g := Last(groups);
      LeafSlicesCover(groups[..|groups| - 1], items, lo, g.startIndex);
      if |g.children| > 0 {
        LeafSlicesCover(g.children, items, g.startIndex, hi);
      }
      assert items[lo..g.startIndex] + items[g.startIndex..hi] == items[lo..hi];
    }
  }

  /** When the groups tile the first `n` positions, `_groupByKey` returns a
      permutation of those `n` rows. */
  lemma {:induction false} RegroupPermutesItems(groups: seq<Group>, items: seq<Slot>, column: string, n: nat)
    requires TreeTiling(groups, 0, n) && n <= |items|
    ensures var result := Regroup(groups, items, column).0;
      |result| == n && multiset(result) == multiset(items[..n])
  {
    RegroupPermutes(groups, items, column);
    LeafSlicesCover(groups, items, 0, n);
    assert items[0..n] == items[..n];
    var result := Regroup(groups, items, column).0;
    assert |result| == |multiset(result)|;
  }

  /** The parts, one after the other. */
  function Concat(parts: seq<seq<Slot>>): seq<Slot>
  {
    if |parts| == 0 then [] else Concat(parts[..|parts| - 1]) + parts[|parts| - 1]
  }

  lemma {:induction false} ConcatAppend(p: seq<seq<Slot>>, q: seq<seq<Slot>>)
    ensures Concat(p + q) == Concat(p) + Concat(q)
    decreases |q|
  {
    if |q| == 0 {
      assert p + q == p;
    } else {
      var init := q[..|q| - 1];
      var last := q[|q| - 1];
      ConcatAppend(p, init);
      assert (p + q)[..|p + q| - 1] == p + init;
      assert (p + q)[|p + q| - 1] == last;
      assert Concat(p + q) == Concat(p + init) + last;
      assert Concat(q) == Concat(init) + last;
      assert Concat(p) + Concat(init) + last == Concat(p) + (Concat(init) + last);
    }
  }

  /** Parts as long as the groups of a tiling of `[0, hi)` line up with
      them: part `k` sits at group `k`'s range. */
  lemma {:induction false} ConcatAt(parts: seq<seq<Slot>>, groups: seq<Group>, hi: int)
    requires Tiling(groups, 0, hi) && |parts| == |groups|
    requires forall k :: 0 <= k < |parts| ==> |parts[k]| == groups[k].count
    ensures |Concat(parts)| == hi
    ensures forall k :: 0 <= k < |parts| ==>
      0 <= groups[k].startIndex && groups[k].startIndex + groups[k].count <= hi &&
      Concat(parts)[groups[k].startIndex..groups[k].startIndex + groups[k].count] == parts[k]
  {
    if |parts| > 0 {
      var n := |parts|;
      var g := Last(groups);
      ConcatAt(parts[..n - 1], groups[..n - 1], g.startIndex);
      TilingShape(groups, 0, hi);
      var a := Concat(parts[..n - 1]);
      var r := Concat(parts);
      assert r == a + parts[n - 1];
      forall k | 0 <= k < n
        ensures r[groups[k].startIndex..groups[k].startIndex + groups[k].count] == parts[k]
      {
        var h := groups[k];
        if k < n - 1 {
          assert groups[..n - 1][k] == h && parts[..n - 1][k] == parts[k];
          assert r[h.startIndex..h.startIndex + h.count] == a[h.startIndex..h.startIndex + h.count];
        } else {
          assert h == g && h.startIndex == |a|;
        }
      }
    }
  }

  /** The re-sorted rows of each leaf, leaf by leaf. */
  function SortedSlices(leaves: seq<Group>, items: seq<Slot>, column: string): (parts: seq<seq<Slot>>)
    ensures |parts| == |leaves|
  {
    seq(|leaves|, k requires 0 <= k < |leaves| => LeafRows(leaves[k], items, column))
  }

  lemma {:induction false} SortedSlicesAppend(a: seq<Group>, b: seq<Group>, items: seq<Slot>, column: string)
    ensures SortedSlices(a + b, items, column) == SortedSlices(a, items, column) + SortedSlices(b, items, column)
  {
    var l, r := SortedSlices(a + b, items, column), SortedSlices(a, items, column) + SortedSlices(b, items, column);
    forall k | 0 <= k < |l| ensures l[k] == r[k] {
      if k < |a| {
        assert (a + b)[k] == a[k];
      } else {
        assert (a + b)[k] == b[k - |a|];
      }
    }
  }

  lemma {:induction false} SortedSlicesOne(g: Group, items: seq<Slot>, column: string)
    ensures Concat(SortedSlices([g], items, column)) == LeafRows(g, items, column)
  {
    assert SortedSlices([g], items, column)[..0] == [];
  }

  /** The items `_groupByKey` returns are the re-sorted leaf slices, in tree order. */
  lemma {:induction false} RegroupItemsLeafwise(groups: seq<Group>, items: seq<Slot>, column: string)
    ensures Regroup(groups, items, column).0 == Concat(SortedSlices(Leaves(groups), items, column))
  {
    if |groups| > 0 {
      var init := groups[..|groups| - 1];
      var g := Last(groups);
      RegroupItemsLeafwise(init, items, column);
      var below := if |g.children| > 0 then Leaves(g.children) else [g];
      assert Leaves(groups) == Leaves(init) + below;
      if |g.children| > 0 {
        RegroupItemsLeafwise(g.children, items, column);
        assert Regroup(groups, items, column).0 == Regroup(init, items, column).0 + Regroup(g.children, items, column).0;
      } else {
        SortedSlicesOne(g, items, column);
        assert Regroup(groups, items, column).0 == Regroup(init, items, column).0 + LeafRows(g, items, column);
      }
      SortedSlicesAppend(Leaves(init), below, items, column);
      ConcatAppend(SortedSlices(Leaves(init), items, column), SortedSlices(below, items, column));
    }
  }

  lemma {:induction false} TilingAppend(a: seq<Group>, b: seq<Group>, lo: int, mid: int, hi: int)
    requires Tiling(a, lo, mid) && Tiling(b, mid, hi)
    ensures Tiling(a + b, lo, hi)
    decreases |b|
  {
    if |b| == 0 {
      assert a + b == a;
    } else {
      TilingAppend(a, b[..|b| - 1], lo, mid, Last(b).startIndex);
      assert (a + b)[..|a + b| - 1] == a + b[..|b| - 1];
    }
  }

  /** The leaves of a tree that tiles a range tile it too. */
  lemma {:induction false} LeavesTile(groups: seq<Group>, lo: int, hi: int)
    requires TreeTiling(groups, lo, hi)
    ensures Tiling(Leaves(groups), lo, hi)
  {
    if |groups| > 0 {
      var init := groups[..|groups| - 1];
      var g := Last(groups);
      LeavesTile(init, lo, g.startIndex);
      if |g.children| > 0 {
        LeavesTile(g.children, g.startIndex, hi);
        TilingAppend(Leaves(init), Leaves(g.children), lo, g.startIndex, hi);
      } else {
        assert Tiling([g], g.startIndex, hi) by {
          assert [g][..0] == [];
        }
        TilingAppend(Leaves(init), [g], lo, g.startIndex, hi);
      }
    }
  }

  /** A leaf inside the list is re-sorted from exactly the rows of its range. */
  lemma {:induction false} RegroupLeafInRange(g: Group, items: seq<Slot>, column: string)
    requires g.startIndex + g.count <= |items|
    ensures LeafRows(g, items, column) == SortedCopy(items[g.startIndex..g.startIndex + g.count], column, false)
  {
    var rows := Slice(items, g.startIndex, g.startIndex + g.count);
    assert LeafRows(g, items, column) == SortedCopy(rows, column, false);
    assert rows == items[g.startIndex..g.startIndex + g.count];
  }

  /** Over a tiling within the list each leaf's part is the sorted copy of
      its own rows, as long as its range. */
  lemma {:induction false} SortedSlicesInRange(leaves: seq<Group>, items: seq<Slot>, column: string, lo: int, hi: int)
    requires Tiling(leaves, lo, hi) && 0 <= lo && hi <= |items|
    ensures var parts := SortedSlices(leaves, items, column);
      forall k :: 0 <= k < |parts| ==>
        leaves[k].startIndex + leaves[k].count <= |items| &&
        |parts[k]| == leaves[k].count &&
        parts[k] == SortedCopy(items[leaves[k].startIndex..leaves[k].startIndex + leaves[k].count], column, false)
  {
    var parts := SortedSlices(leaves, items, column);
    TilingShape(leaves, lo, hi);
    forall k | 0 <= k < |parts|
      ensures leaves[k].startIndex + leaves[k].count <= |items|
      ensures parts[k] == SortedCopy(items[leaves[k].startIndex..leaves[k].startIndex + leaves[k].count], column, false)
    {
      RegroupLeafInRange(leaves[k], items, column);
    }
  }

  /** When the groups tile the first `n` positions, `_groupByKey` permutes
      every leaf's range only within itself: the range of each leaf holds
      exactly the sorted copy of the rows it held before. */
  lemma {:induction false} RegroupSortsEachLeaf(groups: seq<Group>, items: seq<Slot>, column: string, n: nat)
    requires TreeTiling(groups, 0, n) && n <= |items|
    ensures LeavesSorted(Regroup(groups, items, column).0, Leaves(groups), items, column, n)
  {
    RegroupItemsLeafwise(groups, items, column);
    LeavesTile(groups, 0, n);
    SortedSlicesAt(Leaves(groups), items, column, n);
  }

  /** `r` has `n` positions, and the range of every leaf in `r` holds the
      sorted copy of the rows that range holds in `items`. */
  predicate LeavesSorted(r: seq<Slot>, leaves: seq<Group>, items: seq<Slot>, column: string, n: nat)
  {
    |r| == n && n <= |items| &&
    forall k :: 0 <= k < |leaves| ==>
      var g := leaves[k];
      0 <= g.startIndex && g.startIndex + g.count <= n &&
      r[g.startIndex..g.startIndex + g.count] == SortedCopy(items[g.startIndex..g.startIndex + g.count], column, false)
  }

  /** The re-sorted slices of leaves that tile `[0, n)`, one after the
      other, hold each leaf's sorted rows at that leaf's range. */
  lemma {:induction false} SortedSlicesAt(leaves: seq<Group>, items: seq<Slot>, column: string, n: nat)
    requires Tiling(leaves, 0, n) && n <= |items|
    ensures LeavesSorted(Concat(SortedSlices(leaves, items, column)), leaves, items, column, n)
  {
    SortedSlicesInRange(leaves, items, column, 0, n);
    ConcatAt(SortedSlices(leaves, items, column), leaves, n);
  }

  /** A list has no empty slot exactly when its multiset counts none. */
  lemma {:induction false} LoadedByCount(s: seq<Slot>)
    ensures Loaded(s) <==> multiset(s)[Empty] == 0
  {
    if !Loaded(s) {
      var i :| 0 <= i < |s| && s[i] == Empty;
      assert s[i] in multiset(s);
    }
  }

  /** The rows of `[lo, hi)` are all loaded. */
  predicate LoadedBetween(items: seq<Slot>, lo: int, hi: int)
  {
    forall i :: lo <= i < hi && 0 <= i < |items| ==> items[i].Item?
  }

  /** A leaf with loaded rows gets, from `_groupByKey`, at least one child;
      the children tile the leaf's range, have no children of their own,
      and, when no value holds the separator, cover only rows of their leaf
      key with neighbours of different keys.  Its other fields stay. */
  lemma {:induction false} RegroupLeafSpec(g: Group, items: seq<Slot>, column: string)
    requires g.count >= 1 && g.startIndex + g.count <= |items|
    requires LoadedBetween(items, g.startIndex, g.startIndex + g.count)
    ensures var (sorted, after) := RegroupLeaf(g, items, column);
      after == g.(children := after.children) && |after.children| >= 1 &&
      Tiling(after.children, g.startIndex, g.startIndex + g.count) &&
      TreeTiling(after.children, g.startIndex, g.startIndex + g.count) &&
      (forall j :: 0 <= j < |after.children| ==> after.children[j].children == []) &&
      (SeparatorFree(sorted, column) ==>
        Labelled(after.children, sorted, column, g.startIndex) && Distinct(after.children))
  {
    var rows := items[g.startIndex..g.startIndex + g.count];
    RegroupLeafInRange(g, items, column);
    var sorted := SortedCopy(rows, column, false);
    assert Loaded(rows) by {
      forall i | 0 <= i < |rows| ensures rows[i].Item? {
        assert rows[i] == items[g.startIndex + i];
      }
    }
    SortedCopyPermutes(rows, column, false);
    LoadedPermuted(rows, sorted);
    FlatRuns(sorted, column, Some(g));
    if SeparatorFree(sorted, column) {
      RunsLabelled(sorted, column, Some(g));
    }
  }

  /** Rearranging a loaded list leaves it loaded. */
  lemma LoadedPermuted(a: seq<Slot>, b: seq<Slot>)
    requires Loaded(a) && multiset(a) == multiset(b)
    ensures Loaded(b)
  {
    LoadedByCount(a);
    LoadedByCount(b);
  }

  /** The groups of a loaded list under `parent` are a flat tree, at least
      one group when there is a row, tiling the parent's range. */
  lemma FlatRuns(rows: seq<Slot>, column: string, parent: Option<Group>)
    requires Loaded(rows)
    ensures var groups := Runs(rows, column, parent);
      Tiling(groups, Base(parent), Base(parent) + |rows|) &&
      TreeTiling(groups, Base(parent), Base(parent) + |rows|) &&
      (|rows| > 0 ==> |groups| >= 1) &&
      (forall j :: 0 <= j < |groups| ==> groups[j].children == []) &&
      Leaves(groups) == groups
  {
    var groups := Runs(rows, column, parent);
    RunsTile(rows, column, parent);
    RunsFields(rows, column, parent);
    TilingShape(groups, Base(parent), Base(parent) + |rows|);
    forall j | 0 <= j < |groups| ensures groups[j].children == [] {
      assert OpenedAt(groups[j], rows, column, parent);
    }
    FlatTreeTiling(groups, Base(parent), Base(parent) + |rows|);
  }

  /** Over loaded rows, `_groupByKey` keeps a tree that tiles `[lo, hi)` a
      tiling of `[lo, hi)`, with the new level tiling each former leaf. */
  lemma {:induction false} RegroupTiles(groups: seq<Group>, items: seq<Slot>, column: string, lo: nat, hi: nat)
    requires TreeTiling(groups, lo, hi) && hi <= |items| && LoadedBetween(items, lo, hi)
    ensures TreeTiling(Regroup(groups, items, column).1, lo, hi)
  {
    if |groups| > 0 {
      var init := groups[..|groups| - 1];
      var g := Last(groups);
      RegroupTiles(init, items, column, lo, g.startIndex);
      var before := Regroup(init, items, column).1;
      var after := Regroup(groups, items, column).1;
      var g' := Last(after);
      if |g.children| > 0 {
        RegroupTiles(g.children, items, column, g.startIndex, hi);
      } else {
        RegroupLeafSpec(g, items, column);
      }
      assert after[..|after| - 1] == before;
    }
  }

  /** Rearranging a list keeps its field values free of the separator. */
  lemma {:induction false} SeparatorFreePermuted(a: seq<Slot>, b: seq<Slot>, column: string)
    requires multiset(a) == multiset(b) && SeparatorFree(a, column)
    ensures SeparatorFree(b, column)
  {
    forall i | 0 <= i < |b| && b[i].Item? ensures GroupKeys.Separator !in Value(b[i].row, column) {
      assert b[i] in multiset(a);
    }
  }

  /** The first grouping `_onGroupByColumn` makes: the sorted copy of the
      list and the groups of its runs.  Its loaded rows come first, and the
      groups tile exactly them, as a flat tree. */
  lemma {:induction false} FirstGrouping(items: seq<Slot>, column: string)
    ensures var sorted := SortedCopy(items, column, false);
      var groups := Runs(sorted, column, None);
      var k := |items| - multiset(items)[Empty];
      0 <= k <= |sorted| && LoadedBetween(sorted, 0, k) &&
      (forall i :: k <= i < |sorted| ==> sorted[i] == Empty) &&
      groups == Runs(sorted[..k], column, None) &&
      TreeTiling(groups, 0, k) && Leaves(groups) == groups
  {
    var sorted := SortedCopy(items, column, false);
    var k := |items| - multiset(items)[Empty];
    SortedCopyPermutes(items, column, false);
    SortedCopySorted(items, column, false);
    SortedRowsFirst(sorted, column, false);
    var rows := sorted[..k];
    forall i | 0 <= i < k ensures sorted[i].Item? {
      assert rows[i] == sorted[i];
    }
    RunsIgnoreTrailingEmpty(sorted, k, column, None);
    FlatRuns(rows, column, None);
  }

  /** Rows after the groups' ranges leave every group's labels as they were. */
  lemma {:induction false} LabelledExtend(groups: seq<Group>, items: seq<Slot>, all: seq<Slot>, column: string, base: int)
    requires Labelled(groups, items, column, base)
    requires |items| <= |all| && all[..|items|] == items
    requires forall j :: 0 <= j < |groups| ==> groups[j].startIndex + groups[j].count <= base + |items|
    ensures Labelled(groups, all, column, base)
  {
    forall j, i | 0 <= j < |groups| && 0 <= i < |all| &&
        groups[j].startIndex <= base + i < groups[j].startIndex + groups[j].count
      ensures all[i].Item? && Value(all[i].row, column) == GroupKeys.LeafKey(groups[j].key)
    {
      assert all[i] == items[i];
    }
  }

  /** When no field value holds the separator, each group of the first
      grouping covers only rows of its own key, and neighbouring groups
      have different keys. */
  lemma {:induction false} FirstGroupingLabelled(items: seq<Slot>, column: string)
    requires SeparatorFree(items, column)
    ensures var sorted := SortedCopy(items, column, false);
      var groups := Runs(sorted, column, None);
      Labelled(groups, sorted, column, 0) && Distinct(groups)
  {
    var sorted := SortedCopy(items, column, false);
    SortedCopyPermutes(items, column, false);
    SortedCopySorted(items, column, false);
    SeparatorFreePermuted(items, sorted, column);
    var k := |sorted| - multiset(sorted)[Empty];
    SortedRowsFirst(sorted, column, false);
    RunsIgnoreTrailingEmpty(sorted, k, column, None);
    PrefixLabelled(sorted, k, column);
  }

  /** The groups of a loaded prefix of a list label that prefix within the
      whole list. */
  lemma PrefixLabelled(sorted: seq<Slot>, k: nat, column: string)
    requires k <= |sorted| && Loaded(sorted[..k]) && SeparatorFree(sorted, column)
    ensures var groups := Runs(sorted[..k], column, None);
      Labelled(groups, sorted, column, 0) && Distinct(groups)
  {
    var rows := sorted[..k];
    SeparatorFreePrefix(sorted, k, column);
    var groups := Runs(rows, column, None);
    RunsLabelled(rows, column, None);
    RunsTile(rows, column, None);
    TilingShape(groups, 0, k);
    LabelledExtend(groups, rows, sorted, column, 0);
  }
}
