/** The sorted copies the example makes: `_groupItems` sorts a copy of the list
    ascending by one column, `_onSortColumn` sorts a copy of the master rows
    ascending or descending.  The sort itself is the library's
    `Array.prototype.sort`; it is modelled here as an insertion sort, and what
    the example relies on is its contract, an ordered permutation. */
module Sorting {
  import opened Rows

  /** `a` may stand before `b` in a list sorted by `key`: loaded rows come
      before empty slots (the library sort moves holes to the end without
      consulting the comparator), and rows go by their `key` values. */
  predicate InOrder(a: Slot, b: Slot, key: string, descending: bool)
  {
    match (a, b)
    case (_, Empty) => true
    case (Empty, Item(_)) => false
    case (Item(x), Item(y)) =>
      if descending then !Less(Value(x, key), Value(y, key))
      else !Less(Value(y, key), Value(x, key))
  }

  predicate Sorted(s: seq<Slot>, key: string, descending: bool)
  {
    forall i, j :: 0 <= i < j < |s| ==> InOrder(s[i], s[j], key, descending)
  }

  lemma InOrderTotal(a: Slot, b: Slot, key: string, descending: bool)
    ensures InOrder(a, b, key, descending) || InOrder(b, a, key, descending)
  {
    if a.Item? && b.Item? {
      LessTotal(Value(a.row, key), Value(b.row, key));
    }
  }

  lemma InOrderTransitive(a: Slot, b: Slot, c: Slot, key: string, descending: bool)
    requires InOrder(a, b, key, descending) && InOrder(b, c, key, descending)
    ensures InOrder(a, c, key, descending)
  {
    if a.Item? && b.Item? && c.Item? {
      var x, y, z := Value(a.row, key), Value(b.row, key), Value(c.row, key);
      LessTotal(x, y);
      LessTotal(y, z);
      LessTotal(x, z);
      if descending {
        if Less(x, z) {
          if Less(y, z) { } else if y == z { } else { LessTransitive(x, z, y); }
        }
      } else {
        if Less(z, x) {
          if Less(z, y) { } else if y == z { } else { LessTransitive(y, z, x); }
        }
      }
    }
  }

  /** Inserts `x` before the first element of `s` it may precede. */
  function Insert(x: Slot, s: seq<Slot>, key: string, descending: bool): (r: seq<Slot>)
    ensures |r| == |s| + 1
  {
    if |s| == 0 then [x]
    else if InOrder(x, s[0], key, descending) then [x] + s
    else [s[0]] + Insert(x, s[1..], key, descending)
  }

  /** Inserting adds exactly `x` to the elements. */
  lemma {:induction false} InsertMultiset(x: Slot, s: seq<Slot>, key: string, descending: bool)
    ensures multiset(Insert(x, s, key, descending)) == multiset(s) + multiset{x}
  {
    if |s| > 0 {
      assert s == [s[0]] + s[1..];
      if !InOrder(x, s[0], key, descending) {
        InsertMultiset(x, s[1..], key, descending);
      }
    }
  }

  /** Inserting into a sorted list keeps it sorted. */
  lemma {:induction false} InsertSorted(x: Slot, s: seq<Slot>, key: string, descending: bool)
    requires Sorted(s, key, descending)
    ensures Sorted(Insert(x, s, key, descending), key, descending)
  {
    if |s| > 0 {
      if InOrder(x, s[0], key, descending) {
        InsertFirst(x, s, key, descending);
      } else {
        var tail := s[1..];
        assert Sorted(tail, key, descending) by {
          forall i, j | 0 <= i < j < |tail| ensures InOrder(tail[i], tail[j], key, descending) {
            assert tail[i] == s[i + 1] && tail[j] == s[j + 1];
          }
        }
        InOrderTotal(x, s[0], key, descending);
        InsertSorted(x, tail, key, descending);
        InsertMultiset(x, tail, key, descending);
        InsertAfterFirst(x, s, Insert(x, tail, key, descending), key, descending);
      }
    }
  }

  lemma InsertFirst(x: Slot, s: seq<Slot>, key: string, descending: bool)
    requires Sorted(s, key, descending) && |s| > 0 && InOrder(x, s[0], key, descending)
    ensures Sorted([x] + s, key, descending)
  {
    forall j | 0 < j < |s| ensures InOrder(x, s[j], key, descending) {
      InOrderTransitive(x, s[0], s[j], key, descending);
    }
  }

  lemma InsertAfterFirst(x: Slot, s: seq<Slot>, rest: seq<Slot>, key: string, descending: bool)
    requires Sorted(s, key, descending) && |s| > 0 && InOrder(s[0], x, key, descending)
    requires Sorted(rest, key, descending) && multiset(rest) == multiset(s[1..]) + multiset{x}
    ensures Sorted([s[0]] + rest, key, descending)
  {
    forall j | 0 <= j < |rest| ensures InOrder(s[0], rest[j], key, descending) {
      assert rest[j] in multiset(rest);
      if rest[j] != x {
        assert rest[j] in multiset(s[1..]);
        var k :| 0 <= k < |s[1..]| && s[1..][k] == rest[j];
        assert s[k + 1] == rest[j];
      }
    }
  }

  /** `items.slice(0).sort(...)`: a copy of `items` in `key` order; the input
      sequence is a value and is left as it was. */
  function SortedCopy(items: seq<Slot>, key: string, descending: bool): (r: seq<Slot>)
    ensures |r| == |items|
  {
    if |items| == 0 then []
    else Insert(items[0], SortedCopy(items[1..], key, descending), key, descending)
  }

  /** The sorted copy holds the same elements as the input. */
  lemma {:induction false} SortedCopyPermutes(items: seq<Slot>, key: string, descending: bool)
    ensures multiset(SortedCopy(items, key, descending)) == multiset(items)
  {
    if |items| > 0 {
      SortedCopyPermutes(items[1..], key, descending);
      InsertMultiset(items[0], SortedCopy(items[1..], key, descending), key, descending);
      assert items == [items[0]] + items[1..];
    }
  }

  /** The sorted copy is ordered by `key`. */
  lemma {:induction false} SortedCopySorted(items: seq<Slot>, key: string, descending: bool)
    ensures Sorted(SortedCopy(items, key, descending), key, descending)
  {
    if |items| > 0 {
      SortedCopySorted(items[1..], key, descending);
      InsertSorted(items[0], SortedCopy(items[1..], key, descending), key, descending);
    }
  }

  /** All empty slots of a sorted list come after all its rows, so its rows
      form a prefix as long as the number of rows. */
  lemma {:induction false} SortedRowsFirst(s: seq<Slot>, key: string, descending: bool)
    requires Sorted(s, key, descending)
    ensures var k := |s| - multiset(s)[Empty];
      0 <= k <= |s| && Loaded(s[..k]) && forall i :: k <= i < |s| ==> s[i] == Empty
  {
    if |s| > 0 {
      var t := s[..|s| - 1];
      var last := s[|s| - 1];
      assert Sorted(t, key, descending) by {
        forall i, j | 0 <= i < j < |t| ensures InOrder(t[i], t[j], key, descending) {
          assert t[i] == s[i] && t[j] == s[j];
        }
      }
      SortedRowsFirst(t, key, descending);
      assert s == t + [last];
      assert multiset(s) == multiset(t) + multiset{last};
      var k := |t| - multiset(t)[Empty];
      if last == Empty {
        assert multiset(s)[Empty] == multiset(t)[Empty] + 1;
        assert s[..k] == t[..k];
      } else {
        assert multiset(s)[Empty] == multiset(t)[Empty];
        forall i | 0 <= i < |t| ensures t[i].Item? {
          assert InOrder(s[i], s[|s| - 1], key, descending);
        }
        assert k == |t|;
        assert s[..|s|] == t + [last];
      }
    }
  }
}
