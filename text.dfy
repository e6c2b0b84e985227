/**
 * Text operations the scripts rely on: splitting on a one-character separator
 * (Python's `str.split(sep)` and Go's `strings.Split`, which agree for a
 * non-empty separator), joining, and Python's `str.strip()`.
 */
module Text {

  /** The pieces of `s` between occurrences of `sep`, left to right. */
  function Split(s: string, sep: char): (r: seq<string>)
    ensures |r| >= 1
    ensures forall k :: 0 <= k < |r| ==> sep !in r[k]
    decreases |s|
  {
    if |s| == 0 then [""]
    else
      var rest := Split(s[1..], sep);
      if s[0] == sep then [""] + rest
      else [[s[0]] + rest[0]] + rest[1..]
  }

  /** Python's `sep.join(parts)`. */
  function Join(parts: seq<string>, sep: char): string
    decreases |parts|
  {
    if |parts| == 0 then ""
    else if |parts| == 1 then parts[0]
    else parts[0] + [sep] + Join(parts[1..], sep)
  }

  /** Joining the pieces with the separator gives back the text. */
  lemma {:induction false} JoinSplit(s: string, sep: char)
    ensures Join(Split(s, sep), sep) == s
    decreases |s|
  {
    if |s| > 0 {
      var rest := Split(s[1..], sep);
      JoinSplit(s[1..], sep);
      if s[0] == sep {
        assert ([""] + rest)[1..] == rest;
      } else if |rest| > 1 {
        assert ([[s[0]] + rest[0]] + rest[1..])[1..] == rest[1..];
        assert s == [s[0]] + s[1..];
      } else {
        assert s == [s[0]] + s[1..];
      }
    }
  }

  /** A separator splits the text into the pieces on its left and those on its right. */
  lemma {:induction false} SplitAround(a: string, sep: char, b: string)
    ensures Split(a + [sep] + b, sep) == Split(a, sep) + Split(b, sep)
    decreases |a|
  {
    if |a| == 0 {
      assert a + [sep] + b == [sep] + b;
      assert ([sep] + b)[1..] == b;
    } else {
      assert (a + [sep] + b)[1..] == a[1..] + [sep] + b;
      SplitAround(a[1..], sep, b);
    }
  }

  /** Text without the separator is a single piece. */
  lemma {:induction false} SplitWithoutSeparator(s: string, sep: char)
    requires sep !in s
    ensures Split(s, sep) == [s]
    decreases |s|
  {
    if |s| > 0 {
      assert sep !in s[1..];
      SplitWithoutSeparator(s[1..], sep);
      assert s == [s[0]] + s[1..];
    }
  }

  /** Text that contains the separator splits into at least two pieces. */
  lemma SplitAtSeparator(s: string, sep: char)
    requires sep in s
    ensures |Split(s, sep)| >= 2
  {
    var k :| 0 <= k < |s| && s[k] == sep;
    assert s == s[..k] + [sep] + s[k + 1..];
    SplitAround(s[..k], sep, s[k + 1..]);
  }

  /** The first piece is the text before the first separator. */
  lemma {:induction false} SplitFirstIsPrefix(s: string, sep: char)
    ensures Split(s, sep)[0] <= s
    ensures sep !in s ==> Split(s, sep)[0] == s
    ensures sep in s ==> s[|Split(s, sep)[0]|] == sep
    decreases |s|
  {
    if |s| > 0 {
      SplitFirstIsPrefix(s[1..], sep);
      assert s == [s[0]] + s[1..];
    }
  }

  /** Splitting joined pieces gives back the pieces, when none holds the separator. */
  lemma {:induction false} SplitJoin(parts: seq<string>, sep: char)
    requires |parts| >= 1
    requires forall k :: 0 <= k < |parts| ==> sep !in parts[k]
    ensures Split(Join(parts, sep), sep) == parts
    decreases |parts|
  {
    SplitWithoutSeparator(parts[0], sep);
    if |parts| > 1 {
      SplitJoin(parts[1..], sep);
      SplitAround(parts[0], sep, Join(parts[1..], sep));
      assert parts == [parts[0]] + parts[1..];
    }
  }

  /** The characters for which Python's `str.isspace()` holds. */
  const PYTHON_WHITESPACE: set<char> := {
    '\t', '\n', '\U{0b}', '\U{0c}', '\r', '\U{1c}', '\U{1d}', '\U{1e}', '\U{1f}', ' ',
    '\U{85}', '\U{a0}', '\U{1680}',
    '\U{2000}', '\U{2001}', '\U{2002}', '\U{2003}', '\U{2004}', '\U{2005}',
    '\U{2006}', '\U{2007}', '\U{2008}', '\U{2009}', '\U{200a}',
    '\U{2028}', '\U{2029}', '\U{202f}', '\U{205f}', '\U{3000}'
  }

  predicate IsSpace(c: char)
  {
    c in PYTHON_WHITESPACE
  }

  /** Python's `str.strip()`: `s` without its leading and trailing whitespace. */
  function Strip(s: string): (r: string)
    ensures |r| <= |s|
    ensures r == [] || (!IsSpace(r[0]) && !IsSpace(r[|r| - 1]))
    decreases |s|
  {
    if |s| > 0 && IsSpace(s[0]) then Strip(s[1..])
    else if |s| > 0 && IsSpace(s[|s| - 1]) then Strip(s[..|s| - 1])
    else s
  }

  /** Stripping only removes characters: every character left was in the text. */
  lemma {:induction false} StripKeepsCharacters(s: string, c: char)
    requires c in Strip(s)
    ensures c in s
    decreases |s|
  {
    if |s| > 0 && IsSpace(s[0]) {
      StripKeepsCharacters(s[1..], c);
    } else if |s| > 0 && IsSpace(s[|s| - 1]) {
      StripKeepsCharacters(s[..|s| - 1], c);
    }
  }

  /** `r` is `s[i..j]`, and everything of `s` before `i` and from `j` on is whitespace. */
  predicate TrimmedAt(s: string, r: string, i: nat, j: nat)
  {
    i <= j <= |s| && r == s[i..j]
    && (forall k :: 0 <= k < i ==> IsSpace(s[k]))
    && (forall k :: j <= k < |s| ==> IsSpace(s[k]))
  }

  /** Whitespace put in front of a trimmed slice keeps it a trimmed slice. */
  lemma TrimmedAfterLeadingSpace(s: string, r: string, i: nat, j: nat)
    requires |s| > 0 && IsSpace(s[0]) && TrimmedAt(s[1..], r, i, j)
    ensures TrimmedAt(s, r, i + 1, j + 1)
  {
    assert s[1..][i..j] == s[i + 1..j + 1];
    forall k | 0 < k < i + 1 ensures IsSpace(s[k]) {
      assert s[k] == s[1..][k - 1];
    }
    forall k | j + 1 <= k < |s| ensures IsSpace(s[k]) {
      assert s[k] == s[1..][k - 1];
    }
  }

  /** Whitespace put after a trimmed slice keeps it a trimmed slice. */
  lemma TrimmedBeforeTrailingSpace(s: string, r: string, i: nat, j: nat)
    requires |s| > 0 && IsSpace(s[|s| - 1]) && TrimmedAt(s[..|s| - 1], r, i, j)
    ensures TrimmedAt(s, r, i, j)
  {
    assert s[..|s| - 1][i..j] == s[i..j];
    forall k | 0 <= k < i ensures IsSpace(s[k]) {
      assert s[k] == s[..|s| - 1][k];
    }
    forall k | j <= k < |s| - 1 ensures IsSpace(s[k]) {
      assert s[k] == s[..|s| - 1][k];
    }
  }

  /**
   * Stripping removes only leading and trailing whitespace: the result is a
   * slice of the text with whitespace alone on either side of it. With
   * `Strip`'s own guarantee that the result neither starts nor ends with
   * whitespace, this fixes the result.
   */
  lemma {:induction false} StripRemovesOuterWhitespace(s: string)
    ensures exists i, j :: TrimmedAt(s, Strip(s), i, j)
    decreases |s|
  {
    if |s| > 0 && IsSpace(s[0]) {
      StripRemovesOuterWhitespace(s[1..]);
      var i: nat, j: nat :| TrimmedAt(s[1..], Strip(s[1..]), i, j);
      TrimmedAfterLeadingSpace(s, Strip(s), i, j);
    } else if |s| > 0 && IsSpace(s[|s| - 1]) {
      StripRemovesOuterWhitespace(s[..|s| - 1]);
      var i: nat, j: nat :| TrimmedAt(s[..|s| - 1], Strip(s[..|s| - 1]), i, j);
      TrimmedBeforeTrailingSpace(s, Strip(s), i, j);
    } else {
      assert TrimmedAt(s, Strip(s), 0, |s|);
    }
  }
}
