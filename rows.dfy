/** Rows of the sample data, the slots of the list that shows them, and the
    order JavaScript's `<` puts on their string fields. */
module Rows {

  /** A data row: its string fields by column key. */
  type Row = map<string, string>

  /** One position of the list: a loaded row, or an empty slot of the sparse
      array that lazy loading leaves behind. */
  datatype Slot = Empty | Item(row: Row)

  /** `item[key]`; a row without that column reads as the empty string. */
  function Value(row: Row, key: string): string
  {
    if key in row then row[key] else ""
  }

  /** The slots holding `rows`, in order. */
  function Items(rows: seq<Row>): (r: seq<Slot>)
    ensures |r| == |rows|
    ensures forall i :: 0 <= i < |r| ==> r[i] == Item(rows[i])
  {
    seq(|rows|, i requires 0 <= i < |rows| => Item(rows[i]))
  }

  /** No position of `s` is an empty slot. */
  predicate Loaded(s: seq<Slot>)
  {
    forall i :: 0 <= i < |s| ==> s[i].Item?
  }

  /** A prefix of a loaded list is loaded. */
  lemma LoadedPrefix(s: seq<Slot>, k: nat)
    requires k <= |s| && Loaded(s)
    ensures Loaded(s[..k])
  {
    forall i | 0 <= i < k ensures s[..k][i].Item? {
      assert s[..k][i] == s[i];
    }
  }

  /** `items.slice(start, end)` for non-negative bounds: both ends are clamped
      to the list, and a range that ends before it starts is empty. */
  function Slice(items: seq<Slot>, start: nat, end: nat): (r: seq<Slot>)
    ensures start <= end <= |items| ==> r == items[start..end]
    ensures |r| == if start <= end && start <= |items| then (if end <= |items| then end else |items|) - start else 0
  {
    var from := if start < |items| then start else |items|;
    var to := if end < |items| then end else |items|;
    if from <= to then items[from..to] else []
  }

  /** `a < b` on strings: lexicographic order on characters, a proper prefix first. */
  predicate Less(a: string, b: string)
  {
    if |a| == 0 then |b| > 0
    else if |b| == 0 then false
    else a[0] < b[0] || (a[0] == b[0] && Less(a[1..], b[1..]))
  }

  lemma {:induction false} LessIrreflexive(a: string)
    ensures !Less(a, a)
  {
    if |a| > 0 {
      LessIrreflexive(a[1..]);
    }
  }

  lemma {:induction false} LessTransitive(a: string, b: string, c: string)
    requires Less(a, b) && Less(b, c)
    ensures Less(a, c)
  {
    if |a| > 0 && |b| > 0 && |c| > 0 && a[0] == b[0] == c[0] {
      LessTransitive(a[1..], b[1..], c[1..]);
    }
  }

  /** Two different strings are ordered one way or the other, and never both. */
  lemma {:induction false} LessTotal(a: string, b: string)
    ensures a != b <==> (Less(a, b) || Less(b, a))
    ensures !(Less(a, b) && Less(b, a))
  {
    if |a| > 0 && |b| > 0 {
      LessTotal(a[1..], b[1..]);
      if a[0] == b[0] && a[1..] == b[1..] {
        assert a == [a[0]] + a[1..] && b == [b[0]] + b[1..];
      }
    } else if a == b {
      LessIrreflexive(a);
    }
  }
}
