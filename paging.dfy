/** Lazy loading: the list starts with one page of rows and empty slots
    after it, and a miss on an empty slot refills the page holding it from
    the master rows. */
module Paging {
  import opened Rows

  /** Rows fetched per refill. */
  const PAGING_SIZE: nat := 10
  /** The number of master rows the example creates. */
  const ITEMS_COUNT: nat := 5000

  /** `Math.floor(index / PAGING_SIZE) * PAGING_SIZE`: the first position of
      the page that holds `index`. */
  function PageStart(index: nat): (start: nat)
    ensures start % PAGING_SIZE == 0
    ensures start <= index < start + PAGING_SIZE
  {
    (index / PAGING_SIZE) * PAGING_SIZE
  }

  /** The page start is the only page boundary within a page's distance
      below `index`. */
  lemma PageStartUnique(index: nat, start: nat)
    requires start % PAGING_SIZE == 0 && start <= index < start + PAGING_SIZE
    ensures start == PageStart(index)
  {
    var a := start / PAGING_SIZE;
    assert start == a * PAGING_SIZE;
    assert index / PAGING_SIZE == a;
  }

  /** `items.splice(start, deleteCount, ...inserted)` on a copy: `start` is
      clamped to the list, at most the rows up to the end are removed, and
      `inserted` takes their place. */
  function Splice(items: seq<Slot>, start: nat, deleteCount: nat, inserted: seq<Slot>): (r: seq<Slot>)
  {
    var from := if start < |items| then start else |items|;
    var to := if deleteCount < |items| - from then from + deleteCount else |items|;
    items[..from] + inserted + items[to..]
  }

  /** The list the refill callback stores: a copy of `items` with the page
      at `start` replaced by the master rows of that page, as far as the
      master rows go. */
  function Refill(items: seq<Slot>, master: seq<Row>, start: nat): seq<Slot>
  {
    Splice(items, start, PAGING_SIZE, Slice(Items(master), start, start + PAGING_SIZE))
  }

  /** `r` is `items` with the page at `start` holding the master rows of
      that page: the length and every other position are as in `items`. */
  predicate PageRefilled(r: seq<Slot>, items: seq<Slot>, master: seq<Row>, start: nat)
  {
    |r| == |items| && start + PAGING_SIZE <= |master| &&
    (forall i :: start <= i < start + PAGING_SIZE && i < |r| ==> r[i] == Item(master[i])) &&
    (forall i :: 0 <= i < |items| && !(start <= i < start + PAGING_SIZE) ==> r[i] == items[i])
  }

  /** A page that lies within both lists is refilled with the master rows of
      that page; every other position, and the length, stay as they were. */
  lemma RefillSpec(items: seq<Slot>, master: seq<Row>, start: nat)
    requires start + PAGING_SIZE <= |items| && start + PAGING_SIZE <= |master|
    ensures PageRefilled(Refill(items, master, start), items, master, start)
  {
    var page := Slice(Items(master), start, start + PAGING_SIZE);
    var r := Refill(items, master, start);
    assert page == Items(master)[start..start + PAGING_SIZE];
    assert r == items[..start] + page + items[start + PAGING_SIZE..];
    forall i | start <= i < start + PAGING_SIZE && i < |r| ensures r[i] == Item(master[i]) {
      assert r[i] == page[i - start];
    }
    forall i | 0 <= i < |items| && !(start <= i < start + PAGING_SIZE) ensures r[i] == items[i] {
      if i < start {
        assert r[i] == items[..start][i];
      } else {
        assert r[i] == items[start + PAGING_SIZE..][i - start - PAGING_SIZE];
      }
    }
  }

  /** Over a full-length list, a miss at `index` refills the page holding it,
      so the row at `index` is loaded afterwards. */
  lemma RefillLoadsMiss(items: seq<Slot>, master: seq<Row>, index: nat)
    requires |items| == ITEMS_COUNT && |master| == ITEMS_COUNT && index < ITEMS_COUNT
    ensures var start := PageStart(index);
      start + PAGING_SIZE <= ITEMS_COUNT && Refill(items, master, start)[index] == Item(master[index])
  {
    var start := PageStart(index);
    assert start + PAGING_SIZE <= ITEMS_COUNT by {
      var p := start / PAGING_SIZE;
      assert start == p * PAGING_SIZE;
      assert p < 500;
    }
    RefillSpec(items, master, start);
  }

  /** The list lazy loading starts from: the first page of master rows and
      empty slots for the rest of `ITEMS_COUNT`. */
  function LazyItems(master: seq<Row>): seq<Slot>
  {
    Slice(Items(master), 0, PAGING_SIZE) + seq(ITEMS_COUNT - PAGING_SIZE, _ => Empty)
  }

  /** With a full page of master rows, the lazy list holds those rows first
      and only empty slots after them, `ITEMS_COUNT` positions in all. */
  lemma LazyItemsSpec(master: seq<Row>)
    requires |master| >= PAGING_SIZE
    ensures var r := LazyItems(master);
      |r| == ITEMS_COUNT &&
      (forall i :: 0 <= i < PAGING_SIZE ==> r[i] == Item(master[i])) &&
      (forall i :: PAGING_SIZE <= i < ITEMS_COUNT ==> r[i] == Empty)
  {
    var page := Slice(Items(master), 0, PAGING_SIZE);
    assert page == Items(master)[0..PAGING_SIZE];
    var r := LazyItems(master);
    forall i | 0 <= i < PAGING_SIZE ensures r[i] == Item(master[i]) {
      assert r[i] == page[i];
    }
  }
}
