/** Composite group keys: a nested group's key is its parent's key, the
    separator `-`, and the group's own field value; `_getLeafGroupKey` reads
    the own value back as the segment after the last separator. */
module GroupKeys {

  const Separator: char := '-'

  /** `s.split(sep)`: the segments of `s` between occurrences of `sep`. */
  function Split(s: string, sep: char): (parts: seq<string>)
    ensures |parts| >= 1
  {
    if |s| == 0 then [""]
    else
      var parts := Split(s[..|s| - 1], sep);
      var c := s[|s| - 1];
      if c == sep then parts + [""]
      else
        parts[..|parts| - 1] + [parts[|parts| - 1] + [c]]
  }

  /** `parts.join(sep)`. */
  function Join(parts: seq<string>, sep: char): string
    requires |parts| >= 1
  {
    if |parts| == 1 then parts[0] else Join(parts[..|parts| - 1], sep) + [sep] + parts[|parts| - 1]
  }

  /** Splitting a string extended by one character: a separator opens an
      empty segment, any other character extends the last segment. */
  lemma SplitSnoc(t: string, c: char, sep: char)
    ensures var parts := Split(t, sep);
      Split(t + [c], sep) ==
        if c == sep then parts + [""]
        else parts[..|parts| - 1] + [parts[|parts| - 1] + [c]]
  {
    assert (t + [c])[..|t|] == t;
  }

  /** Joining a list extended by one segment appends the separator and the
      segment. */
  lemma JoinSnoc(parts: seq<string>, x: string, sep: char)
    requires |parts| >= 1
    ensures Join(parts + [x], sep) == Join(parts, sep) + [sep] + x
  {
    assert (parts + [x])[..|parts|] == parts;
  }

  /** Joining the segments of a split gives back the string. */
  lemma {:induction false} JoinSplit(s: string, sep: char)
    ensures Join(Split(s, sep), sep) == s
  {
    if |s| > 0 {
      var t := s[..|s| - 1];
      var c := s[|s| - 1];
      assert s == t + [c];
      JoinSplit(t, sep);
      SplitSnoc(t, c, sep);
      var parts := Split(t, sep);
      var n := |parts|;
      if c == sep {
        JoinSnoc(parts, "", sep);
      } else if n == 1 {
        assert parts[..n - 1] + [parts[n - 1] + [c]] == [parts[0] + [c]];
      } else {
        var init := parts[..n - 1];
        assert parts == init + [parts[n - 1]];
        JoinSnoc(init, parts[n - 1], sep);
        JoinSnoc(init, parts[n - 1] + [c], sep);
      }
    }
  }

  /** Splitting a join of separator-free segments gives back the segments. */
  lemma {:induction false} SplitJoin(parts: seq<string>, sep: char)
    requires |parts| >= 1
    requires forall i :: 0 <= i < |parts| ==> sep !in parts[i]
    ensures Split(Join(parts, sep), sep) == parts
  {
    if |parts| > 1 {
      var init := parts[..|parts| - 1];
      SplitJoin(init, sep);
      SplitAppend(Join(init, sep), parts[|parts| - 1], sep);
      assert init + [parts[|parts| - 1]] == parts;
    } else {
      SplitWithoutSeparator(parts[0], sep);
    }
  }

  /** A string without the separator splits into itself alone. */
  lemma {:induction false} SplitWithoutSeparator(s: string, sep: char)
    requires sep !in s
    ensures Split(s, sep) == [s]
  {
    if |s| > 0 {
      SplitWithoutSeparator(s[..|s| - 1], sep);
      assert s[..|s| - 1] + [s[|s| - 1]] == s;
    }
  }

  /** The last segment of a split is a separator-free suffix of the string,
      either all of it or what follows its last separator. */
  lemma {:induction false} SplitLast(s: string, sep: char)
    ensures var parts := Split(s, sep); var last := parts[|parts| - 1];
      SegmentSuffix(s, last, sep)
  {
    if |s| > 0 {
      var t := s[..|s| - 1];
      var c := s[|s| - 1];
      assert s == t + [c];
      SplitLast(t, sep);
      SplitSnoc(t, c, sep);
      var parts := Split(t, sep);
      if c != sep {
        SegmentSuffixSnoc(t, parts[|parts| - 1], c, sep);
      } else {
        assert s[|s| - 0..] == "";
      }
    }
  }

  /** `last` is a separator-free suffix of `s`, all of `s` or preceded by
      the separator. */
  predicate SegmentSuffix(s: string, last: string, sep: char)
  {
    sep !in last && |last| <= |s| && s[|s| - |last|..] == last &&
    (|last| < |s| ==> s[|s| - |last| - 1] == sep)
  }

  lemma SegmentSuffixSnoc(t: string, last: string, c: char, sep: char)
    requires SegmentSuffix(t, last, sep) && c != sep
    ensures SegmentSuffix(t + [c], last + [c], sep)
  {
    var s := t + [c];
    assert s[|s| - |last| - 1..] == t[|t| - |last|..] + [c];
    if |last| < |t| {
      assert s[|s| - |last| - 2] == t[|t| - |last| - 1];
    }
  }

  /** Appending a separator and a separator-free segment appends one part. */
  lemma {:induction false} SplitAppend(s: string, v: string, sep: char)
    requires sep !in v
    ensures Split(s + [sep] + v, sep) == Split(s, sep) + [v]
    decreases |v|
  {
    var t := s + [sep] + v;
    if |v| == 0 {
      assert t == s + [sep];
      SplitSnoc(s, sep, sep);
    } else {
      var w := v[..|v| - 1];
      SplitAppend(s, w, sep);
      assert t == (s + [sep] + w) + [v[|v| - 1]];
      SplitSnoc(s + [sep] + w, v[|v| - 1], sep);
      var parts := Split(s + [sep] + w, sep);
      assert parts[..|parts| - 1] == Split(s, sep);
      assert w + [v[|v| - 1]] == v;
    }
  }

  /** `_getLeafGroupKey(key, '-')`: the key unchanged when it holds no
      separator, otherwise the last segment of its split. */
  function LeafKey(key: string): string
  {
    if Separator in key then
      var parts := Split(key, Separator);
      parts[|parts| - 1]
    else key
  }

  /** The leaf key holds no separator; it is the key itself when the key
      holds none, and otherwise the suffix after the key's last separator. */
  lemma LeafKeySpec(key: string)
    ensures var leaf := LeafKey(key);
      Separator !in leaf &&
      (Separator !in key ==> leaf == key) &&
      |leaf| <= |key| && key[|key| - |leaf|..] == leaf &&
      (|leaf| < |key| ==> key[|key| - |leaf| - 1] == Separator)
  {
    LeafKeyLastPart(key);
    SplitLast(key, Separator);
  }

  /** Either way, the leaf key is the last segment of the key's split. */
  lemma LeafKeyLastPart(key: string)
    ensures var parts := Split(key, Separator); LeafKey(key) == parts[|parts| - 1]
  {
    if Separator !in key {
      SplitWithoutSeparator(key, Separator);
    }
  }

  /** The key `_getGroups` builds under a parent, `parent + '-' + value`,
      has the field value as its leaf key. */
  lemma LeafKeyOfChild(parent: string, value: string)
    requires Separator !in value
    ensures LeafKey(parent + [Separator] + value) == value
  {
    var key := parent + [Separator] + value;
    SplitAppend(parent, value, Separator);
    assert key[|parent|] == Separator;
  }
}
