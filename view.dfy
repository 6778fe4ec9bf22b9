/** The example's component: its view state and the handlers that change it. */
module View {
  import opened Optional
  import opened Rows
  import opened Sorting
  import opened Groups
  import opened Regrouping
  import opened Limits
  import opened Paging

  /** A column of the list, as far as grouping goes: its field key and
      whether the list is grouped by it. */
  datatype Column = Column(key: string, isGrouped: bool)

  /** The columns as rebuilt for a sorted, ungrouped list: none grouped. */
  function Ungrouped(columns: seq<Column>): (r: seq<Column>)
    ensures |r| == |columns|
    ensures forall i :: 0 <= i < |r| ==> r[i] == columns[i].(isGrouped := false)
  {
    seq(|columns|, i requires 0 <= i < |columns| => columns[i].(isGrouped := false))
  }

  class AdvancedExample {
    /** The master rows (`_items`), created once. */
    const master: seq<Row>

    var items: seq<Slot>
    var groups: Option<seq<Group>>
    var columns: seq<Column>
    var groupItemLimit: int
    var sortedColumnKey: string
    var isSortedDescending: bool
    var isLazyLoaded: bool
    /** `_isFetchingItems`: a refill is scheduled and has not run yet. */
    var isFetchingItems: bool
    /** The page start the scheduled refill will fill, while one is scheduled. */
    var pendingPage: Option<nat>

    /** At most one refill is scheduled, exactly while the flag is set, and
        it starts at a page boundary. */
    predicate Valid()
      reads this
    {
      |master| == ITEMS_COUNT &&
      (isFetchingItems <==> pendingPage.Some?) &&
      (pendingPage.Some? ==> pendingPage.value % PAGING_SIZE == 0)
    }

    /** The initial state: all master rows in their created order, no
        groups, the default limit; the stored sort key is `name`,
        ascending. */
    constructor(rows: seq<Row>, builtColumns: seq<Column>)
      requires |rows| == ITEMS_COUNT
      ensures Valid()
      ensures master == rows && items == Items(rows) && groups == None && columns == builtColumns
      ensures groupItemLimit == DEFAULT_ITEM_LIMIT && sortedColumnKey == "name"
      ensures !isSortedDescending && !isLazyLoaded && !isFetchingItems
    {
      master := rows;
      items := Items(rows);
      groups := None;
      columns := builtColumns;
      groupItemLimit := DEFAULT_ITEM_LIMIT;
      sortedColumnKey := "name";
      isSortedDescending := false;
      isLazyLoaded := false;
      isFetchingItems := false;
      pendingPage := None;
    }

    /** `_onSortColumn(key, descending)`: the list becomes the master rows
        ordered by `key`, groups are dropped, and the sort is remembered. */
    method OnSortColumn(key: string, descending: bool)
      requires Valid()
      modifies this
      ensures Valid()
      ensures items == SortedCopy(Items(master), key, descending)
      ensures Sorted(items, key, descending) && multiset(items) == multiset(Items(master))
      ensures groups == None && columns == Ungrouped(old(columns))
      ensures sortedColumnKey == key && isSortedDescending == descending
      ensures groupItemLimit == old(groupItemLimit) && isLazyLoaded == old(isLazyLoaded)
      ensures isFetchingItems == old(isFetchingItems) && pendingPage == old(pendingPage)
    {
      var sortedItems := SortedCopy(Items(master), key, descending);
      SortedCopyPermutes(Items(master), key, descending);
      SortedCopySorted(Items(master), key, descending);
      items := sortedItems;
      groups := None;
      columns := Ungrouped(columns);
      isSortedDescending := descending;
      sortedColumnKey := key;
    }

    /** Sets `isGrouped` on every column whose key is `key`, in place. */
    method MarkGrouped(key: string)
      modifies this
      ensures |columns| == |old(columns)|
      ensures forall i :: 0 <= i < |columns| ==>
        columns[i] == if old(columns)[i].key == key then old(columns)[i].(isGrouped := true) else old(columns)[i]
      ensures items == old(items) && groups == old(groups) && groupItemLimit == old(groupItemLimit)
      ensures sortedColumnKey == old(sortedColumnKey) && isSortedDescending == old(isSortedDescending)
      ensures isLazyLoaded == old(isLazyLoaded) && isFetchingItems == old(isFetchingItems)
      ensures pendingPage == old(pendingPage)
    {
      var i := 0;
      while i < |columns|
        invariant 0 <= i <= |columns| == |old(columns)|
        invariant forall j :: 0 <= j < i ==>
          columns[j] == if old(columns)[j].key == key then old(columns)[j].(isGrouped := true) else old(columns)[j]
        invariant forall j :: i <= j < |columns| ==> columns[j] == old(columns)[j]
        invariant items == old(items) && groups == old(groups) && groupItemLimit == old(groupItemLimit)
        invariant sortedColumnKey == old(sortedColumnKey) && isSortedDescending == old(isSortedDescending)
        invariant isLazyLoaded == old(isLazyLoaded) && isFetchingItems == old(isFetchingItems)
        invariant pendingPage == old(pendingPage)
      {
        if columns[i].key == key {
          columns := columns[i := columns[i].(isGrouped := true)];
        }
        i := i + 1;
      }
    }

    /** `_onGroupByColumn(column)`: a grouped column ungroups the list by
        re-sorting it as it was last sorted; otherwise the list gains a
        grouping level by the column, nested under the present groups if
        there are any, and the column is marked grouped. */
    method OnGroupByColumn(column: Column)
      requires Valid()
      modifies this
      ensures Valid()
      ensures column.isGrouped ==>
        items == SortedCopy(Items(master), old(sortedColumnKey), old(isSortedDescending)) &&
        groups == None && columns == Ungrouped(old(columns))
      ensures !column.isGrouped && old(groups).Some? ==>
        (items, groups) == (Regroup(old(groups).value, old(items), column.key).0,
                            Some(Regroup(old(groups).value, old(items), column.key).1))
      ensures !column.isGrouped && old(groups).None? ==>
        items == SortedCopy(old(items), column.key, false) && groups == Some(Runs(items, column.key, None)) &&
        multiset(items) == multiset(old(items)) &&
        TreeTiling(groups.value, 0, |old(items)| - multiset(old(items))[Empty])
      ensures !column.isGrouped ==>
        |columns| == |old(columns)| &&
        forall i :: 0 <= i < |columns| ==>
          columns[i] == if old(columns)[i].key == column.key then old(columns)[i].(isGrouped := true) else old(columns)[i]
      ensures groupItemLimit == old(groupItemLimit) && isLazyLoaded == old(isLazyLoaded)
      ensures isFetchingItems == old(isFetchingItems) && pendingPage == old(pendingPage)
      ensures sortedColumnKey == old(sortedColumnKey) && isSortedDescending == old(isSortedDescending)
    {
      if column.isGrouped {
        OnSortColumn(sortedColumnKey, isSortedDescending);
      } else {
        var groupedItems: seq<Slot>;
        var newGroups: seq<Group>;
        if groups.Some? {
          groupedItems, newGroups := GroupByKey(groups.value, items, column.key);
        } else {
          groupedItems := SortedCopy(items, column.key, false);
          SortedCopyPermutes(items, column.key, false);
          SortedCopySorted(items, column.key, false);
          FirstGrouping(items, column.key);
          newGroups := GetGroups(groupedItems, column.key, None);
        }
        MarkGrouped(column.key);
        items := groupedItems;
        groups := Some(newGroups);
      }
    }

    /** `_onDataMiss(index)`: schedules a refill of the page holding `index`
        unless one is already scheduled. */
    method OnDataMiss(index: nat)
      requires Valid()
      modifies this
      ensures Valid()
      ensures old(isFetchingItems) ==> pendingPage == old(pendingPage)
      ensures !old(isFetchingItems) ==> pendingPage == Some(PageStart(index))
      ensures isFetchingItems && items == old(items) && groups == old(groups) && columns == old(columns)
      ensures groupItemLimit == old(groupItemLimit) && isLazyLoaded == old(isLazyLoaded)
      ensures sortedColumnKey == old(sortedColumnKey) && isSortedDescending == old(isSortedDescending)
    {
      var start := PageStart(index);
      if !isFetchingItems {
        isFetchingItems := true;
        pendingPage := Some(start);
      }
    }

    /** The scheduled refill running: the flag clears and the pending page is
        spliced into a copy of the list as it is now.  When the page lies
        within the list and the master rows, exactly that page changes, to
        the master rows. */
    method FinishDataMiss()
      requires Valid() && isFetchingItems
      modifies this
      ensures Valid() && !isFetchingItems && pendingPage == None
      ensures items == Refill(old(items), master, old(pendingPage).value)
      ensures var start := old(pendingPage).value;
        start + PAGING_SIZE <= |old(items)| && start + PAGING_SIZE <= |master| ==>
        PageRefilled(items, old(items), master, start)
      ensures groups == old(groups) && columns == old(columns) && groupItemLimit == old(groupItemLimit)
      ensures sortedColumnKey == old(sortedColumnKey) && isSortedDescending == old(isSortedDescending)
      ensures isLazyLoaded == old(isLazyLoaded)
    {
      var start := pendingPage.value;
      if start + PAGING_SIZE <= |items| && start + PAGING_SIZE <= |master| {
        RefillSpec(items, master, start);
      }
      isFetchingItems := false;
      items := Refill(items, master, start);
      pendingPage := None;
    }

    /** `_onToggleLazyLoad`: turning lazy loading on shows only the first
        page of master rows and empty slots after it; turning it off shows
        all master rows. */
    method OnToggleLazyLoad()
      requires Valid()
      modifies this
      ensures Valid() && isLazyLoaded == !old(isLazyLoaded)
      ensures isLazyLoaded ==>
        |items| == ITEMS_COUNT &&
        (forall i :: 0 <= i < PAGING_SIZE ==> items[i] == Item(master[i])) &&
        (forall i :: PAGING_SIZE <= i < ITEMS_COUNT ==> items[i] == Empty)
      ensures !isLazyLoaded ==> items == Items(master)
      ensures groups == old(groups) && columns == old(columns) && groupItemLimit == old(groupItemLimit)
      ensures sortedColumnKey == old(sortedColumnKey) && isSortedDescending == old(isSortedDescending)
      ensures isFetchingItems == old(isFetchingItems) && pendingPage == old(pendingPage)
    {
      isLazyLoaded := !isLazyLoaded;
      if isLazyLoaded {
        LazyItemsSpec(master);
        items := LazyItems(master);
      } else {
        items := Items(master);
      }
    }

    /** `_onItemLimitChanged(value)`: the typed limit, or the default when it
        does not start with a digit. */
    method OnItemLimitChanged(value: string)
      requires Valid()
      modifies this
      ensures Valid() && groupItemLimit == ParseLimit(value)
      ensures (|value| == 0 || !IsDigit(value[0])) ==> groupItemLimit == DEFAULT_ITEM_LIMIT
      ensures items == old(items) && groups == old(groups) && columns == old(columns)
      ensures sortedColumnKey == old(sortedColumnKey) && isSortedDescending == old(isSortedDescending)
      ensures isLazyLoaded == old(isLazyLoaded)
      ensures isFetchingItems == old(isFetchingItems) && pendingPage == old(pendingPage)
    {
      groupItemLimit := ParseLimit(value);
    }

    /** `_onAddRow`: a new row (from the foreign row factory) goes in front. */
    method OnAddRow(newRow: Row)
      requires Valid()
      modifies this
      ensures Valid() && items == [Item(newRow)] + old(items)
      ensures |items| == |old(items)| + 1 && items[1..] == old(items)
      ensures groups == old(groups) && columns == old(columns) && groupItemLimit == old(groupItemLimit)
      ensures sortedColumnKey == old(sortedColumnKey) && isSortedDescending == old(isSortedDescending)
      ensures isLazyLoaded == old(isLazyLoaded)
      ensures isFetchingItems == old(isFetchingItems) && pendingPage == old(pendingPage)
    {
      items := [Item(newRow)] + items;
    }

    /** `_onDeleteRow`: `items.slice(1)` drops the first row; an empty list
        stays empty. */
    method OnDeleteRow()
      requires Valid()
      modifies this
      ensures Valid() && items == Slice(old(items), 1, |old(items)|)
      ensures |old(items)| == 0 ==> items == []
      ensures |old(items)| > 0 ==> items == old(items)[1..]
      ensures groups == old(groups) && columns == old(columns) && groupItemLimit == old(groupItemLimit)
      ensures sortedColumnKey == old(sortedColumnKey) && isSortedDescending == old(isSortedDescending)
      ensures isLazyLoaded == old(isLazyLoaded)
      ensures isFetchingItems == old(isFetchingItems) && pendingPage == old(pendingPage)
    {
      items := Slice(items, 1, |items|);
    }
  }
}
