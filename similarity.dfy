/**
 * The name-similarity pass over relay nicknames: the first comma-separated
 * field of every input line is taken as a name, and every ordered pair of
 * different names whose Jaro similarity exceeds 0.90 is recorded once,
 * whichever way round it is met first.
 */
module Similarity {
  import opened Text

  /** A similarity score is reported as similar above this value. */
  const THRESHOLD: real := 0.90

  /** `line.split(",")[0]`: the text up to the first comma. */
  function FirstField(line: string): string
  {
    Split(line, ',')[0]
  }

  /**
   * The first field is the longest comma-free prefix of the line: it is a
   * prefix without a comma and is either the whole line or followed by a
   * comma. A line without a comma, trailing newline and all, is kept whole.
   */
  lemma FirstFieldIsLeadingField(line: string)
    ensures FirstField(line) <= line
    ensures ',' !in FirstField(line)
    ensures FirstField(line) == line <==> ',' !in line
    ensures ',' in line ==> line[|FirstField(line)|] == ','
  {
    SplitFirstIsPrefix(line, ',');
  }

  /** The read loop: one name per input line, in input order. */
  method LoadNames(lines: seq<string>) returns (names: seq<string>)
    ensures |names| == |lines|
    ensures forall k :: 0 <= k < |lines| ==> names[k] == FirstField(lines[k])
  {
    names := [];
    for n := 0 to |lines|
      invariant |names| == n
      invariant forall k :: 0 <= k < n ==> names[k] == FirstField(lines[k])
    {
      names := names + [Split(lines[n], ',')[0]];
    }
  }

  type Pair = (string, string)

  /** `jaro(a, b) > .90`, with the Jaro score taken as a parameter. */
  predicate Similar(score: (string, string) -> real, a: string, b: string)
  {
    score(a, b) > THRESHOLD
  }

  /** The pair may be recorded: similar and not the same name. */
  predicate Qualifies(score: (string, string) -> real, a: string, b: string)
  {
    Similar(score, a, b) && a != b
  }

  /** The pair is present, one way round or the other. */
  predicate Recorded(pairs: seq<Pair>, a: string, b: string)
  {
    (a, b) in pairs || (b, a) in pairs
  }

  /** One inner step: `(a, b)` is appended when it qualifies and is not recorded yet. */
  function Consider(score: (string, string) -> real, pairs: seq<Pair>, a: string, b: string): seq<Pair>
  {
    if Qualifies(score, a, b) && !Recorded(pairs, a, b) then pairs + [(a, b)] else pairs
  }

  /** The nested scan, resumed at outer position `i` and inner position `j`. */
  function ScanFrom(names: seq<string>, score: (string, string) -> real, i: nat, j: nat, pairs: seq<Pair>): seq<Pair>
    requires i <= |names| && j <= |names|
    decreases |names| - i, |names| - j
  {
    if i == |names| then pairs
    else if j == |names| then ScanFrom(names, score, i + 1, 0, pairs)
    else ScanFrom(names, score, i, j + 1, Consider(score, pairs, names[i], names[j]))
  }

  /** The pairs the whole scan records. */
  function Scan(names: seq<string>, score: (string, string) -> real): seq<Pair>
  {
    ScanFrom(names, score, 0, 0, [])
  }

  /**
   * The pair loop: every name against every name, in order, appending the
   * qualifying pairs not yet recorded either way round.
   */
  method ScanPairs(names: seq<string>, score: (string, string) -> real) returns (pairs: seq<Pair>)
    ensures pairs == Scan(names, score)
  {
    pairs := [];
    for i := 0 to |names|
      invariant ScanFrom(names, score, i, 0, pairs) == Scan(names, score)
    {
      for j := 0 to |names|
        invariant ScanFrom(names, score, i, j, pairs) == Scan(names, score)
      {
        var n, n2 := names[i], names[j];
        if score(n, n2) > THRESHOLD && n != n2 && (n, n2) !in pairs && (n2, n) !in pairs {
          pairs := pairs + [(n, n2)];
        }
      }
    }
  }

  // ----- What the recorded pairs are -----

  /** Every pair is of two names from the list that qualify in that order. */
  predicate Sound(names: seq<string>, score: (string, string) -> real, pairs: seq<Pair>)
  {
    forall p :: p in pairs ==> p.0 in names && p.1 in names && Qualifies(score, p.0, p.1)
  }

  /** No pair is present twice, in either orientation. */
  predicate Unique(pairs: seq<Pair>)
  {
    forall k, l :: 0 <= k < l < |pairs| ==> pairs[k] != pairs[l] && pairs[k] != (pairs[l].1, pairs[l].0)
  }

  /** Every qualifying pair of positions the scan has passed is recorded. */
  predicate CoveredUpTo(names: seq<string>, score: (string, string) -> real, i: nat, j: nat, pairs: seq<Pair>)
  {
    forall a, b ::
      (0 <= a < |names| && 0 <= b < |names| && (a < i || (a == i && b < j)) && Qualifies(score, names[a], names[b]))
      ==> Recorded(pairs, names[a], names[b])
  }

  /** The scan only ever appends. */
  lemma {:induction false} ScanFromExtends(names: seq<string>, score: (string, string) -> real, i: nat, j: nat, pairs: seq<Pair>)
    requires i <= |names| && j <= |names|
    ensures pairs <= ScanFrom(names, score, i, j, pairs)
    decreases |names| - i, |names| - j
  {
    if i == |names| {
    } else if j == |names| {
      ScanFromExtends(names, score, i + 1, 0, pairs);
    } else {
      ScanFromExtends(names, score, i, j + 1, Consider(score, pairs, names[i], names[j]));
    }
  }

  /** The scan appends only qualifying pairs of names. */
  lemma {:induction false} ScanFromSound(names: seq<string>, score: (string, string) -> real, i: nat, j: nat, pairs: seq<Pair>)
    requires i <= |names| && j <= |names|
    requires Sound(names, score, pairs)
    ensures Sound(names, score, ScanFrom(names, score, i, j, pairs))
    decreases |names| - i, |names| - j
  {
    if i == |names| {
    } else if j == |names| {
      ScanFromSound(names, score, i + 1, 0, pairs);
    } else {
      ScanFromSound(names, score, i, j + 1, Consider(score, pairs, names[i], names[j]));
    }
  }

  /** One inner step appends nothing already recorded either way round. */
  lemma ConsiderKeepsUnique(score: (string, string) -> real, pairs: seq<Pair>, a: string, b: string)
    requires Unique(pairs)
    ensures Unique(Consider(score, pairs, a, b))
  {
    var next := Consider(score, pairs, a, b);
    if next != pairs {
      assert next == pairs + [(a, b)];
      forall k, l | 0 <= k < l < |next|
        ensures next[k] != next[l] && next[k] != (next[l].1, next[l].0)
      {
        if l == |pairs| {
          assert next[k] in pairs;
        } else {
          assert next[k] == pairs[k] && next[l] == pairs[l];
        }
      }
    }
  }

  /** The scan never records a pair twice, in either orientation. */
  lemma {:induction false} ScanFromUnique(names: seq<string>, score: (string, string) -> real, i: nat, j: nat, pairs: seq<Pair>)
    requires i <= |names| && j <= |names|
    requires Unique(pairs)
    ensures Unique(ScanFrom(names, score, i, j, pairs))
    decreases |names| - i, |names| - j
  {
    if i == |names| {
    } else if j == |names| {
      ScanFromUnique(names, score, i + 1, 0, pairs);
    } else {
      ConsiderKeepsUnique(score, pairs, names[i], names[j]);
      ScanFromUnique(names, score, i, j + 1, Consider(score, pairs, names[i], names[j]));
    }
  }

  /** One inner step covers one more position pair. */
  lemma ConsiderCovers(names: seq<string>, score: (string, string) -> real, i: nat, j: nat, pairs: seq<Pair>)
    requires i < |names| && j < |names|
    requires CoveredUpTo(names, score, i, j, pairs)
    ensures CoveredUpTo(names, score, i, j + 1, Consider(score, pairs, names[i], names[j]))
  {
  }

  /** By the end of the scan every qualifying position pair is recorded. */
  lemma {:induction false} ScanFromCovers(names: seq<string>, score: (string, string) -> real, i: nat, j: nat, pairs: seq<Pair>)
    requires i <= |names| && j <= |names|
    requires CoveredUpTo(names, score, i, j, pairs)
    ensures CoveredUpTo(names, score, |names|, 0, ScanFrom(names, score, i, j, pairs))
    decreases |names| - i, |names| - j
  {
    if i == |names| {
    } else if j == |names| {
      assert CoveredUpTo(names, score, i + 1, 0, pairs);
      ScanFromCovers(names, score, i + 1, 0, pairs);
    } else {
      ConsiderCovers(names, score, i, j, pairs);
      ScanFromCovers(names, score, i, j + 1, Consider(score, pairs, names[i], names[j]));
    }
  }

  /**
   * The recorded pairs are exactly the qualifying pairs of names, each
   * unordered pair once: a pair of names is recorded one way round or the
   * other iff both are names of the list and they qualify in one order, and
   * what is recorded qualifies in the order it is recorded.
   */
  lemma ScanRecordsExactly(names: seq<string>, score: (string, string) -> real, x: string, y: string)
    ensures Sound(names, score, Scan(names, score))
    ensures Unique(Scan(names, score))
    ensures Recorded(Scan(names, score), x, y) <==>
              x in names && y in names && (Qualifies(score, x, y) || Qualifies(score, y, x))
  {
    ScanFromSound(names, score, 0, 0, []);
    ScanFromUnique(names, score, 0, 0, []);
    ScanFromCovers(names, score, 0, 0, []);
    var r := Scan(names, score);
    if x in names && y in names && (Qualifies(score, x, y) || Qualifies(score, y, x)) {
      var a :| 0 <= a < |names| && names[a] == x;
      var b :| 0 <= b < |names| && names[b] == y;
      if Qualifies(score, x, y) {
        assert Recorded(r, names[a], names[b]);
      } else {
        assert Recorded(r, names[b], names[a]);
      }
    }
  }

  /**
   * Two near-identical nicknames and an unrelated one: the pair is recorded
   * once, in the order it is first met.
   */
  lemma ScanExample(score: (string, string) -> real)
    requires Similar(score, "alice", "alise")
    requires !Similar(score, "alice", "bob") && !Similar(score, "bob", "alice")
    requires !Similar(score, "alise", "bob") && !Similar(score, "bob", "alise")
    ensures Scan(["alice", "alise", "bob"], score) == [("alice", "alise")]
  {
    var names := ["alice", "alise", "bob"];
    var p := [("alice", "alise")];
    assert "alice" != "alise" && "alice" != "bob" && "alise" != "bob";
    assert ScanFrom(names, score, 0, 0, []) == ScanFrom(names, score, 0, 2, p);
    assert ScanFrom(names, score, 0, 2, p) == ScanFrom(names, score, 1, 0, p);
    assert ScanFrom(names, score, 1, 0, p) == ScanFrom(names, score, 2, 0, p);
    assert ScanFrom(names, score, 2, 0, p) == p;
  }
}
