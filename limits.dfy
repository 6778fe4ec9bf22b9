/** The group item limit: how many rows a collapsed group shows, and the
    number typed into the "Group Item Limit" field that sets it. */
module Limits {
  import opened Optional
  import opened Groups

  /** The limit the view starts with and falls back to on unreadable input. */
  const DEFAULT_ITEM_LIMIT: nat := 5

  /** `getGroupItemLimit(group)`: a group shows all its rows when the user
      asked for all of them and at most `limit` otherwise; without a group
      the whole list counts. */
  function ItemLimit(group: Option<Group>, limit: int, itemCount: nat): (r: int)
    ensures group.None? ==> r == itemCount
    ensures group.Some? ==> r <= group.value.count
    ensures group.Some? && group.value.isShowingAll ==> r == group.value.count
    ensures group.Some? && !group.value.isShowingAll ==>
      r <= limit && (r == group.value.count || r == limit)
  {
    match group
    case None => itemCount
    case Some(g) =>
      if g.isShowingAll then g.count
      else if g.count < limit then g.count else limit
  }

  predicate IsDigit(c: char)
  {
    '0' <= c <= '9'
  }

  /** The run of decimal digits `value` starts with. */
  function LeadingDigits(value: string): (digits: string)
    ensures |digits| <= |value| && digits == value[..|digits|]
    ensures forall i :: 0 <= i < |digits| ==> IsDigit(digits[i])
    ensures |digits| < |value| ==> !IsDigit(value[|digits|])
  {
    if |value| == 0 || !IsDigit(value[0]) then ""
    else [value[0]] + LeadingDigits(value[1..])
  }

  /** The number a run of decimal digits denotes. */
  function DigitsValue(digits: string): nat
    requires forall i :: 0 <= i < |digits| ==> IsDigit(digits[i])
  {
    if |digits| == 0 then 0
    else DigitsValue(digits[..|digits| - 1]) * 10 + DigitValue(digits[|digits| - 1])
  }

  /** The value of one decimal digit. */
  function DigitValue(c: char): (d: nat)
    requires IsDigit(c)
    ensures d < 10
  {
    (c as int - '0' as int) as nat
  }

  /** `parseInt(value, 10)`, falling back to the default limit where it
      gives `NaN`: the number of the leading digits, or the default when
      `value` does not start with a digit. */
  function ParseLimit(value: string): (limit: nat)
    ensures (|value| == 0 || !IsDigit(value[0])) ==> limit == DEFAULT_ITEM_LIMIT
  {
    var digits := LeadingDigits(value);
    if |digits| == 0 then DEFAULT_ITEM_LIMIT else DigitsValue(digits)
  }

  /** The digit character for `d`. */
  function Digit(d: nat): (c: char)
    requires d < 10
    ensures IsDigit(c) && DigitValue(c) == d
  {
    '0' + d as char
  }

  /** `String(n)`: the decimal rendering of `n`, without leading zeros. */
  function Decimal(n: nat): (s: string)
    ensures |s| >= 1 && forall i :: 0 <= i < |s| ==> IsDigit(s[i])
  {
    if n < 10 then [Digit(n)] else Decimal(n / 10) + [Digit(n % 10)]
  }

  lemma {:induction false} DigitsValueDecimal(n: nat)
    ensures DigitsValue(Decimal(n)) == n
  {
    if n >= 10 {
      DigitsValueDecimal(n / 10);
      var s := Decimal(n);
      assert s[..|s| - 1] == Decimal(n / 10);
    }
  }

  /** The leading digits of a run of digits followed by something that is
      not a digit are that run. */
  lemma {:induction false} LeadingDigitsOf(digits: string, rest: string)
    requires forall i :: 0 <= i < |digits| ==> IsDigit(digits[i])
    requires |rest| == 0 || !IsDigit(rest[0])
    ensures LeadingDigits(digits + rest) == digits
  {
    if |digits| > 0 {
      LeadingDigitsOf(digits[1..], rest);
      assert (digits + rest)[1..] == digits[1..] + rest;
    } else {
      assert digits + rest == rest;
    }
  }

  /** A typed number, possibly followed by text that does not start with a
      digit, sets exactly that limit. */
  lemma ParseDecimal(n: nat, rest: string)
    requires |rest| == 0 || !IsDigit(rest[0])
    ensures ParseLimit(Decimal(n) + rest) == n
  {
    LeadingDigitsOf(Decimal(n), rest);
    DigitsValueDecimal(n);
  }
}
