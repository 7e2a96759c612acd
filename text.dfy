/** JavaScript's `String.prototype.split` with a one-character separator, its
    inverse `Array.prototype.join`, and `Array.prototype.pop` read as "the last
    element". `name.split('.').pop()` is `Last(Split(name, '.'))`. */
module Text {

  /** `s.split(sep)`: the maximal separator-free pieces of `s`, in order. Like
      JavaScript, an empty string gives one empty piece and adjacent or trailing
      separators give empty pieces. */
  function Split(s: string, sep: char): (parts: seq<string>)
    ensures |parts| >= 1
    ensures forall i :: 0 <= i < |parts| ==> sep !in parts[i]
    decreases |s|
  {
    if s == [] then [""]
    else
      var rest := Split(s[1..], sep);
      if s[0] == sep then [""] + rest
      else [[s[0]] + rest[0]] + rest[1..]
  }

  /** `parts.join(sep)`. */
  function Join(parts: seq<string>, sep: char): string
    requires |parts| >= 1
    decreases |parts|
  {
    if |parts| == 1 then parts[0] else parts[0] + [sep] + Join(parts[1..], sep)
  }

  /** The element `pop()` removes and returns from a non-empty array. */
  function Last<T>(xs: seq<T>): T
    requires |xs| >= 1
  {
    xs[|xs| - 1]
  }

  /** Position `k` starts the final piece of `s`: nothing after it is a
      separator and it is either the start of `s` or right after a separator. */
  predicate SegmentStart(s: string, sep: char, k: int)
  {
    0 <= k <= |s| && sep !in s[k..] && (k == 0 || s[k - 1] == sep)
  }

  /** Joining the pieces gives back the string that was split. */
  lemma {:induction false} JoinSplit(s: string, sep: char)
    ensures Join(Split(s, sep), sep) == s
    decreases |s|
  {
    if s != [] {
      var rest := Split(s[1..], sep);
      JoinSplit(s[1..], sep);
      var parts := Split(s, sep);
      if s[0] == sep {
        assert parts[1..] == rest;
        assert s == [sep] + s[1..];
      } else {
        assert parts == [[s[0]] + rest[0]] + rest[1..];
        if |rest| > 1 {
          assert parts[1..] == rest[1..];
          assert Join(rest, sep) == rest[0] + [sep] + Join(rest[1..], sep);
        }
        assert s == [s[0]] + s[1..];
      }
    }
  }

  /** A separator-free prefix is glued onto the first piece of what follows. */
  lemma {:induction false} SplitPrefix(w: string, t: string, sep: char)
    requires sep !in w
    ensures Split(w + t, sep) == [w + Split(t, sep)[0]] + Split(t, sep)[1..]
    decreases |w|
  {
    if w == [] {
      assert w + t == t;
      assert w + Split(t, sep)[0] == Split(t, sep)[0];
      assert Split(t, sep) == [Split(t, sep)[0]] + Split(t, sep)[1..];
    } else {
      SplitPrefix(w[1..], t, sep);
      assert (w + t)[0] == w[0];
      assert (w + t)[1..] == w[1..] + t;
      assert [w[0]] + (w[1..] + Split(t, sep)[0]) == w + Split(t, sep)[0];
    }
  }

  /** Splitting a join of separator-free pieces gives back the pieces. */
  lemma {:induction false} SplitJoin(parts: seq<string>, sep: char)
    requires |parts| >= 1
    requires forall i :: 0 <= i < |parts| ==> sep !in parts[i]
    ensures Split(Join(parts, sep), sep) == parts
    decreases |parts|
  {
    if |parts| == 1 {
      SplitPrefix(parts[0], "", sep);
      assert parts[0] + "" == parts[0];
      assert parts == [parts[0]];
    } else {
      var t := Join(parts[1..], sep);
      SplitJoin(parts[1..], sep);
      SplitPrefix(parts[0], [sep] + t, sep);
      assert Join(parts, sep) == parts[0] + ([sep] + t);
      assert ([sep] + t)[1..] == t;
      assert Split([sep] + t, sep) == [""] + Split(t, sep);
      assert Split([sep] + t, sep)[1..] == Split(t, sep);
      assert parts[0] + Split([sep] + t, sep)[0] == parts[0];
      assert parts == [parts[0]] + parts[1..];
    }
  }

  /** The join of two or more pieces ends with a separator and the last piece. */
  lemma {:induction false} JoinLast(parts: seq<string>, sep: char)
    requires |parts| >= 2
    ensures Join(parts, sep) == Join(parts[..|parts| - 1], sep) + [sep] + Last(parts)
    decreases |parts|
  {
    var n := |parts|;
    if n == 2 {
      assert parts[..1] == [parts[0]];
      assert parts[1..] == [parts[1]];
    } else {
      JoinLast(parts[1..], sep);
      assert parts[1..][..n - 2] == parts[..n - 1][1..];
      assert Last(parts[1..]) == Last(parts);
    }
  }

  /** The last piece is the part of `s` after its final separator. */
  lemma LastSegmentStart(s: string, sep: char)
    ensures |Last(Split(s, sep))| <= |s|
    ensures SegmentStart(s, sep, |s| - |Last(Split(s, sep))|)
    ensures s[|s| - |Last(Split(s, sep))|..] == Last(Split(s, sep))
  {
    var parts := Split(s, sep);
    JoinSplit(s, sep);
    if |parts| > 1 {
      JoinLast(parts, sep);
      var init := Join(parts[..|parts| - 1], sep);
      assert s == init + [sep] + Last(parts);
      assert s[|init|] == sep;
      assert s[|init| + 1..] == Last(parts);
    }
  }

  /** A string has only one final piece. */
  lemma SegmentStartUnique(s: string, sep: char, j: int, k: int)
    requires SegmentStart(s, sep, j) && SegmentStart(s, sep, k)
    ensures j == k
  {
    forall i | j <= i < |s| ensures s[i] != sep {
      assert s[i] == s[j..][i - j];
    }
    forall i | k <= i < |s| ensures s[i] != sep {
      assert s[i] == s[k..][i - k];
    }
  }

  /** `Last(Split(s, sep))` is exactly the text after the last separator of
      `s`, or all of `s` when it has none: both directions. */
  lemma LastSegmentCharacterised(s: string, sep: char, e: string)
    ensures e == Last(Split(s, sep)) <==> exists k :: SegmentStart(s, sep, k) && s[k..] == e
  {
    LastSegmentStart(s, sep);
    var k0 := |s| - |Last(Split(s, sep))|;
    if exists k :: SegmentStart(s, sep, k) && s[k..] == e {
      var k :| SegmentStart(s, sep, k) && s[k..] == e;
      SegmentStartUnique(s, sep, k, k0);
    }
  }

  /** A string without the separator splits into itself alone. */
  lemma SplitWithoutSeparator(s: string, sep: char)
    requires sep !in s
    ensures Split(s, sep) == [s]
  {
    SplitJoin([s], sep);
  }
}
