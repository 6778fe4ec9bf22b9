/** `_getGroups`: one pass over a sorted list that cuts it into runs of equal
    field values, one group per run. */
module Groups {
  import opened Optional
  import opened Rows
  import opened GroupKeys

  /** A group as the list shows it: a composite key, a display name, the
      range `[startIndex, startIndex + count)` of the list it covers, its
      nesting level and its sub-groups (none: the source's `undefined` or
      `[]`).  `isShowingAll` is set by the list when the user asks for every
      row of the group. */
  datatype Group = Group(key: string, name: string, startIndex: nat, count: nat, level: nat,
                         children: seq<Group>, isShowingAll: bool)

  /** Where the groups of a parent's rows start: the parent's own start, or 0 at the top. */
  function Base(parent: Option<Group>): nat
  {
    if parent.Some? then parent.value.startIndex else 0
  }

  /** What precedes a field value in a group key: `parent.key + '-'`, or nothing at the top. */
  function KeyPrefix(parent: Option<Group>): string
  {
    if parent.Some? then parent.value.key + [Separator] else ""
  }

  /** The level of the groups under `parent`: one deeper than it, or 0 at the top. */
  function Level(parent: Option<Group>): nat
  {
    if parent.Some? then parent.value.level + 1 else 0
  }

  /** The group `_getGroups` opens at list position `index` for a row whose
      `column` field is `value`. */
  function NewGroup(value: string, column: string, index: nat, parent: Option<Group>): Group
  {
    Group(KeyPrefix(parent) + value, column + ": " + value, Base(parent) + index, 1, Level(parent), [], false)
  }

  /** The last group of a non-empty sequence of groups. */
  function Last(groups: seq<Group>): Group
    requires |groups| > 0
  {
    groups[|groups| - 1]
  }

  /** One call of the `reduce` callback: open a new group when there is none
      yet or the row's value differs from the leaf key of the last group, and
      otherwise count the row into the last group.  `reduce` does not visit
      the empty slots of a sparse array. */
  function Step(groups: seq<Group>, slot: Slot, index: nat, column: string, parent: Option<Group>): seq<Group>
  {
    match slot
    case Empty => groups
    case Item(row) =>
      if |groups| == 0 || LeafKey(Last(groups).key) != Value(row, column) then
        groups + [NewGroup(Value(row, column), column, index, parent)]
      else
        groups[..|groups| - 1] + [Last(groups).(count := Last(groups).count + 1)]
  }

  /** The groups `_getGroups` returns for `items`: the callback applied to
      every position in turn, starting from no groups. */
  function Runs(items: seq<Slot>, column: string, parent: Option<Group>): seq<Group>
  {
    if |items| == 0 then []
    else Step(Runs(items[..|items| - 1], column, parent), items[|items| - 1], |items| - 1, column, parent)
  }

  /** `_getGroups(groupedItems, column, parentGroup)`. */
  method GetGroups(groupedItems: seq<Slot>, column: string, parent: Option<Group>) returns (groups: seq<Group>)
    ensures groups == Runs(groupedItems, column, parent)
    ensures AllOpenedAt(groups, groupedItems, column, parent)
    ensures Loaded(groupedItems) ==> Tiling(groups, Base(parent), Base(parent) + |groupedItems|)
    ensures Loaded(groupedItems) && SeparatorFree(groupedItems, column) ==>
      Labelled(groups, groupedItems, column, Base(parent))
  {
    groups := [];
    var index := 0;
    while index < |groupedItems|
      invariant 0 <= index <= |groupedItems|
      invariant groups == Runs(groupedItems[..index], column, parent)
    {
      RunsNext(groupedItems, index, column, parent);
      match groupedItems[index] {
        case Empty =>
        case Item(row) =>
          var value := Value(row, column);
          if |groups| == 0 || LeafKey(groups[|groups| - 1].key) != value {
            StepOpens(groups, row, index, column, parent);
            groups := groups + [NewGroup(value, column, index, parent)];
          } else {
            StepCounts(groups, row, index, column, parent);
            var current := groups[|groups| - 1];
            groups := groups[|groups| - 1 := current.(count := current.count + 1)];
          }
      }
      index := index + 1;
    }
    assert groupedItems[..index] == groupedItems;
    RunsSpec(groupedItems, column, parent);
  }

  /** The groups of one more position are one more callback step. */
  lemma RunsNext(items: seq<Slot>, index: nat, column: string, parent: Option<Group>)
    requires index < |items|
    ensures Runs(items[..index + 1], column, parent) ==
      Step(Runs(items[..index], column, parent), items[index], index, column, parent)
  {
    assert items[..index + 1][..index] == items[..index];
  }

  /** A row whose value differs from the last group's leaf key, or that
      comes first, opens a new group after the others. */
  lemma StepOpens(groups: seq<Group>, row: Row, index: nat, column: string, parent: Option<Group>)
    requires |groups| == 0 || LeafKey(groups[|groups| - 1].key) != Value(row, column)
    ensures Step(groups, Item(row), index, column, parent) == groups + [NewGroup(Value(row, column), column, index, parent)]
  {
  }

  /** A row with the last group's leaf key is counted into that group, and
      nothing else changes. */
  lemma StepCounts(groups: seq<Group>, row: Row, index: nat, column: string, parent: Option<Group>)
    requires |groups| > 0 && LeafKey(groups[|groups| - 1].key) == Value(row, column)
    ensures var current := groups[|groups| - 1];
      Step(groups, Item(row), index, column, parent) == groups[|groups| - 1 := current.(count := current.count + 1)]
  {
    var current := groups[|groups| - 1];
    assert groups[..|groups| - 1] + [current.(count := current.count + 1)] == groups[|groups| - 1 := current.(count := current.count + 1)];
  }

  /** What `_getGroups` promises, gathered. */
  lemma RunsSpec(items: seq<Slot>, column: string, parent: Option<Group>)
    ensures var groups := Runs(items, column, parent);
      AllOpenedAt(groups, items, column, parent) &&
      (Loaded(items) ==> Tiling(groups, Base(parent), Base(parent) + |items|)) &&
      (Loaded(items) && SeparatorFree(items, column) ==>
        Labelled(groups, items, column, Base(parent)) && Distinct(groups))
  {
    RunsFields(items, column, parent);
    if Loaded(items) {
      RunsTile(items, column, parent);
      if SeparatorFree(items, column) {
        RunsLabelled(items, column, parent);
      }
    }
  }

  /** `groups` cut `[lo, hi)` into consecutive non-empty ranges, in order. */
  predicate Tiling(groups: seq<Group>, lo: int, hi: int)
  {
    if |groups| == 0 then lo == hi
    else
      var g := Last(groups);
      g.count >= 1 && lo <= g.startIndex && g.startIndex + g.count == hi &&
      Tiling(groups[..|groups| - 1], lo, g.startIndex)
  }

  /** The sum of the groups' counts. */
  function TotalCount(groups: seq<Group>): nat
  {
    if |groups| == 0 then 0 else TotalCount(groups[..|groups| - 1]) + Last(groups).count
  }

  /** A tiling, spelled out: the first group starts at `lo`, each next group
      starts where the previous one ends, every count is at least one, every
      range lies inside `[lo, hi)`, and the counts add up to `hi - lo`. */
  lemma {:induction false} TilingShape(groups: seq<Group>, lo: int, hi: int)
    requires Tiling(groups, lo, hi)
    ensures |groups| == 0 <==> lo == hi
    ensures |groups| > 0 ==> groups[0].startIndex == lo
    ensures forall j, k :: 0 <= j && k == j + 1 < |groups| ==> groups[k].startIndex == groups[j].startIndex + groups[j].count
    ensures forall j :: 0 <= j < |groups| ==>
      groups[j].count >= 1 && lo <= groups[j].startIndex && groups[j].startIndex + groups[j].count <= hi
    ensures TotalCount(groups) == hi - lo
  {
    if |groups| > 0 {
      var init := groups[..|groups| - 1];
      TilingShape(init, lo, Last(groups).startIndex);
    }
  }

  /** Over a list without empty slots the groups tile the parent's range
      `[base, base + |items|)`: no gap, no overlap, counts summing to the length. */
  lemma {:induction false} RunsTile(items: seq<Slot>, column: string, parent: Option<Group>)
    requires Loaded(items)
    ensures Tiling(Runs(items, column, parent), Base(parent), Base(parent) + |items|)
  {
    if |items| > 0 {
      var init := items[..|items| - 1];
      var before := Runs(init, column, parent);
      LoadedPrefix(items, |items| - 1);
      RunsTile(init, column, parent);
      var after := Runs(items, column, parent);
      if |before| == 0 || LeafKey(Last(before).key) != Value(items[|items| - 1].row, column) {
        assert after[..|after| - 1] == before;
      } else {
        assert after[..|after| - 1] == before[..|before| - 1];
      }
    }
  }

  /** No field value of a row of `items` holds the key separator. */
  predicate SeparatorFree(items: seq<Slot>, column: string)
  {
    forall i :: 0 <= i < |items| && items[i].Item? ==> Separator !in Value(items[i].row, column)
  }

  /** A prefix of a list whose values are free of the separator is too. */
  lemma SeparatorFreePrefix(s: seq<Slot>, k: nat, column: string)
    requires k <= |s| && SeparatorFree(s, column)
    ensures SeparatorFree(s[..k], column)
  {
    var rows := s[..k];
    forall i | 0 <= i < |rows| && rows[i].Item? ensures Separator !in Value(rows[i].row, column) {
      assert rows[i] == s[i];
    }
  }

  /** Every row a group covers has the group's leaf key as its field value. */
  predicate Labelled(groups: seq<Group>, items: seq<Slot>, column: string, base: int)
  {
    forall j, i ::
      (0 <= j < |groups| && 0 <= i < |items| &&
       groups[j].startIndex <= base + i < groups[j].startIndex + groups[j].count) ==>
      items[i].Item? && Value(items[i].row, column) == LeafKey(groups[j].key)
  }

  /** The leaf key of a group `_getGroups` opens is the value it opened it for. */
  lemma NewGroupLeaf(value: string, column: string, index: nat, parent: Option<Group>)
    requires Separator !in value
    ensures LeafKey(NewGroup(value, column, index, parent).key) == value
  {
    if parent.Some? {
      LeafKeyOfChild(parent.value.key, value);
    }
  }

  /** Each group covers rows of one value, read back from its key, and two
      neighbouring groups have different values: the groups are the maximal
      runs of equal values. */
  lemma {:induction false} RunsLabelled(items: seq<Slot>, column: string, parent: Option<Group>)
    requires Loaded(items) && SeparatorFree(items, column)
    ensures var groups := Runs(items, column, parent);
      Labelled(groups, items, column, Base(parent)) && Distinct(groups)
  {
    if |items| > 0 {
      var n := |items|;
      var init := items[..n - 1];
      LoadedPrefix(items, n - 1);
      SeparatorFreePrefix(items, n - 1, column);
      RunsLabelled(init, column, parent);
      RunsTile(init, column, parent);
      StepLabelled(Runs(init, column, parent), items, column, parent);
    }
  }

  /** Neighbouring groups have different leaf keys. */
  predicate Distinct(groups: seq<Group>)
  {
    forall j, k :: 0 <= j && k == j + 1 < |groups| ==> LeafKey(groups[j].key) != LeafKey(groups[k].key)
  }

  /** One callback step keeps the labels and distinct neighbours of the
      groups of all but the last position. */
  lemma StepLabelled(before: seq<Group>, items: seq<Slot>, column: string, parent: Option<Group>)
    requires |items| > 0
    requires items[|items| - 1].Item? && Separator !in Value(items[|items| - 1].row, column)
    requires Tiling(before, Base(parent), Base(parent) + |items| - 1)
    requires Labelled(before, items[..|items| - 1], column, Base(parent)) && Distinct(before)
    ensures var after := Step(before, items[|items| - 1], |items| - 1, column, parent);
      Labelled(after, items, column, Base(parent)) && Distinct(after)
  {
    var n := |items|;
    var value := Value(items[n - 1].row, column);
    TilingShape(before, Base(parent), Base(parent) + n - 1);
    if |before| == 0 || LeafKey(Last(before).key) != value {
      NewGroupLeaf(value, column, n - 1, parent);
      OpenLabelled(before, items, NewGroup(value, column, n - 1, parent), column, Base(parent));
      OpenDistinct(before, NewGroup(value, column, n - 1, parent));
    } else {
      ExtendLabelled(before, items, column, Base(parent));
    }
  }

  lemma OpenLabelled(before: seq<Group>, items: seq<Slot>, g: Group, column: string, base: int)
    requires |items| > 0
    requires items[|items| - 1].Item? && LeafKey(g.key) == Value(items[|items| - 1].row, column)
    requires g.startIndex == base + |items| - 1 && g.count == 1
    requires forall j :: 0 <= j < |before| ==> before[j].startIndex + before[j].count <= base + |items| - 1
    requires Labelled(before, items[..|items| - 1], column, base)
    ensures Labelled(before + [g], items, column, base)
  {
    var after, init := before + [g], items[..|items| - 1];
    forall j, i | 0 <= j < |after| && 0 <= i < |items| && after[j].startIndex <= base + i < after[j].startIndex + after[j].count
      ensures items[i].Item? && Value(items[i].row, column) == LeafKey(after[j].key)
    {
      if j < |before| {
        assert after[j] == before[j];
        assert i < |init|;
        assert items[i] == init[i];
      } else {
        assert after[j] == g && i == |init|;
      }
    }
  }

  lemma OpenDistinct(before: seq<Group>, g: Group)
    requires Distinct(before)
    requires |before| > 0 ==> LeafKey(Last(before).key) != LeafKey(g.key)
    ensures Distinct(before + [g])
  {
    var after := before + [g];
    forall j, k | 0 <= j && k == j + 1 < |after| ensures LeafKey(after[j].key) != LeafKey(after[k].key) {
      if k < |before| {
        assert after[j] == before[j] && after[k] == before[k];
      } else {
        assert after[j] == Last(before) && after[k] == g;
      }
    }
  }

  lemma ExtendLabelled(before: seq<Group>, items: seq<Slot>, column: string, base: int)
    requires |items| > 0 && |before| > 0
    requires items[|items| - 1].Item? && LeafKey(Last(before).key) == Value(items[|items| - 1].row, column)
    requires Last(before).startIndex + Last(before).count == base + |items| - 1
    requires forall j :: 0 <= j < |before| ==> before[j].startIndex + before[j].count <= base + |items| - 1
    requires Labelled(before, items[..|items| - 1], column, base) && Distinct(before)
    ensures var after := before[..|before| - 1] + [Last(before).(count := Last(before).count + 1)];
      Labelled(after, items, column, base) && Distinct(after)
  {
    var m := |before|;
    var after := before[..m - 1] + [Last(before).(count := Last(before).count + 1)];
    var init := items[..|items| - 1];
    forall j, i | 0 <= j < |after| && 0 <= i < |items| && after[j].startIndex <= base + i < after[j].startIndex + after[j].count
      ensures items[i].Item? && Value(items[i].row, column) == LeafKey(after[j].key)
    {
      if i < |init| {
        assert items[i] == init[i];
        assert after[j].key == before[j].key && after[j].startIndex == before[j].startIndex;
        assert before[j].startIndex <= base + i < before[j].startIndex + before[j].count;
      }
    }
    assert forall j :: 0 <= j < m ==> after[j].key == before[j].key;
  }

  /** `g` is the group `_getGroups` opened for the row at its first position:
      its key is the parent's key, the separator and that row's value (the
      value alone at the top), its name reads `column: value`, its level is
      one below the parent's (0 at the top), and it has no sub-groups yet. */
  predicate OpenedAt(g: Group, items: seq<Slot>, column: string, parent: Option<Group>)
  {
    var first := g.startIndex - Base(parent);
    0 <= first < |items| && items[first].Item? &&
    g.key == KeyPrefix(parent) + Value(items[first].row, column) &&
    g.name == column + ": " + Value(items[first].row, column) &&
    g.level == Level(parent) && g.children == [] && !g.isShowingAll
  }

  /** Every group `_getGroups` returns carries the key, name and level of the
      row it was opened for, empty slots included in the list or not. */
  lemma {:induction false} RunsFields(items: seq<Slot>, column: string, parent: Option<Group>)
    ensures AllOpenedAt(Runs(items, column, parent), items, column, parent)
  {
    if |items| > 0 {
      var n := |items|;
      var init := items[..n - 1];
      RunsFields(init, column, parent);
      assert items == init + [items[n - 1]];
      StepFields(Runs(init, column, parent), init, items[n - 1], column, parent);
    }
  }

  predicate AllOpenedAt(groups: seq<Group>, items: seq<Slot>, column: string, parent: Option<Group>)
  {
    forall j :: 0 <= j < |groups| ==> OpenedAt(groups[j], items, column, parent)
  }

  lemma StepFields(before: seq<Group>, init: seq<Slot>, slot: Slot, column: string, parent: Option<Group>)
    requires AllOpenedAt(before, init, column, parent)
    ensures AllOpenedAt(Step(before, slot, |init|, column, parent), init + [slot], column, parent)
  {
    AllOpenedAtGrows(before, init, slot, column, parent);
    match slot {
      case Empty =>
      case Item(row) =>
        if |before| == 0 || LeafKey(Last(before).key) != Value(row, column) {
          OpenFields(before, init, slot, column, parent);
        } else {
          ExtendFields(before, init + [slot], column, parent);
        }
    }
  }

  lemma AllOpenedAtGrows(groups: seq<Group>, init: seq<Slot>, slot: Slot, column: string, parent: Option<Group>)
    requires AllOpenedAt(groups, init, column, parent)
    ensures AllOpenedAt(groups, init + [slot], column, parent)
  {
    forall j | 0 <= j < |groups| ensures OpenedAt(groups[j], init + [slot], column, parent) {
      OpenedAtGrows(groups[j], init, slot, column, parent);
    }
  }

  lemma OpenFields(before: seq<Group>, init: seq<Slot>, slot: Slot, column: string, parent: Option<Group>)
    requires slot.Item? && AllOpenedAt(before, init + [slot], column, parent)
    ensures AllOpenedAt(before + [NewGroup(Value(slot.row, column), column, |init|, parent)], init + [slot], column, parent)
  {
    var g := NewGroup(Value(slot.row, column), column, |init|, parent);
    assert OpenedAt(g, init + [slot], column, parent);
    var after := before + [g];
    forall j | 0 <= j < |after| ensures OpenedAt(after[j], init + [slot], column, parent) {
      if j < |before| {
        assert after[j] == before[j];
      }
    }
  }

  lemma ExtendFields(before: seq<Group>, items: seq<Slot>, column: string, parent: Option<Group>)
    requires |before| > 0 && AllOpenedAt(before, items, column, parent)
    ensures AllOpenedAt(before[..|before| - 1] + [Last(before).(count := Last(before).count + 1)], items, column, parent)
  {
    var m := |before|;
    var after := before[..m - 1] + [Last(before).(count := Last(before).count + 1)];
    forall j | 0 <= j < m ensures OpenedAt(after[j], items, column, parent) {
      assert OpenedAt(before[j], items, column, parent);
      assert after[j].startIndex == before[j].startIndex && after[j].key == before[j].key;
    }
  }

  lemma OpenedAtGrows(g: Group, init: seq<Slot>, slot: Slot, column: string, parent: Option<Group>)
    requires OpenedAt(g, init, column, parent)
    ensures OpenedAt(g, init + [slot], column, parent)
  {
    var first := g.startIndex - Base(parent);
    assert (init + [slot])[first] == init[first];
  }

  /** `reduce` skips the empty slots at the end of a list, so they change no group. */
  lemma {:induction false} RunsIgnoreTrailingEmpty(items: seq<Slot>, k: nat, column: string, parent: Option<Group>)
    requires k <= |items|
    requires forall i :: k <= i < |items| ==> items[i] == Empty
    ensures Runs(items, column, parent) == Runs(items[..k], column, parent)
    decreases |items| - k
  {
    if k < |items| {
      RunsIgnoreTrailingEmpty(items[..|items| - 1], k, column, parent);
      assert items[..|items| - 1][..k] == items[..k];
    } else {
      assert items[..k] == items;
    }
  }
}
