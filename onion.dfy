/**
 * Recognition of onion-service DNS names in the packet analyser: a name is
 * an onion name when its top-level label is `onion`, the special-use domain of
 * section 2 of RFC 7686.
 */
module OnionDomain {
  import opened Text

  /** `strings.Split(name, ".")`. */
  function Labels(name: string): seq<string>
  {
    Split(name, '.')
  }

  /**
   * The right-most non-empty label, looking no further left than position 1,
   * is `onion` (case-sensitively); empty labels after it, such as the one a
   * trailing dot leaves, are skipped.
   */
  predicate RightmostLabelIsOnion(labels: seq<string>)
  {
    exists i :: 1 <= i < |labels| && labels[i] == "onion" && forall j :: i < j < |labels| ==> labels[j] == ""
  }

  /**
   * `is_onion_domain(name, counter)`: walks the labels from the right down to
   * position 1, skips empty ones and decides on the first non-empty one. The
   * split always yields a label, so the source's guard for an empty label
   * list never fires; `counter` plays no part.
   */
  method IsOnionDomain(name: string, counter: int) returns (isOnion: bool)
    ensures isOnion == RightmostLabelIsOnion(Labels(name))
  {
    var labels := Split(name, '.');
    for i := |labels| downto 1
      invariant forall j :: i <= j < |labels| ==> labels[j] == ""
    {
      if labels[i] == "" {
        continue;
      }
      return labels[i] == "onion";
    }
    return false;
  }

  // ----- A reference definition on the text itself -----

  /** `k` dots. */
  function Dots(k: nat): string
  {
    seq(k, _ => '.')
  }

  /** `k` empty labels. */
  function Empties(k: nat): seq<string>
  {
    seq(k, _ => "")
  }

  /** The name without its trailing dots. */
  function TrimTrailingDots(s: string): (t: string)
    ensures t == [] || t[|t| - 1] != '.'
    ensures |t| <= |s| && s == t + Dots(|s| - |t|)
    decreases |s|
  {
    if |s| > 0 && s[|s| - 1] == '.' then TrimTrailingDots(s[..|s| - 1]) else s
  }

  /** Without its trailing dots, the name ends in ".onion". */
  predicate IsOnionName(name: string)
  {
    var t := TrimTrailingDots(name);
    |t| >= 6 && t[|t| - 6..] == ".onion"
  }

  /** A run of `k` dots splits into `k + 1` empty labels. */
  lemma {:induction false} SplitDots(k: nat)
    ensures Split(Dots(k), '.') == Empties(k + 1)
  {
    if k > 0 {
      SplitDots(k - 1);
      assert Dots(k) == [] + ['.'] + Dots(k - 1);
      SplitAround([], '.', Dots(k - 1));
    }
  }

  /** Trailing dots add one empty label each. */
  lemma SplitTrailingDots(t: string, k: nat)
    ensures Split(t + Dots(k), '.') == Split(t, '.') + Empties(k)
  {
    if k == 0 {
      assert t + Dots(0) == t;
    } else {
      assert t + Dots(k) == t + ['.'] + Dots(k - 1);
      SplitAround(t, '.', Dots(k - 1));
      SplitDots(k - 1);
    }
  }

  /** Joining one more piece appends a separator and the piece. */
  lemma {:induction false} JoinSnoc(parts: seq<string>, sep: char, last: string)
    requires |parts| >= 1
    ensures Join(parts + [last], sep) == Join(parts, sep) + [sep] + last
    decreases |parts|
  {
    if |parts| > 1 {
      assert (parts + [last])[1..] == parts[1..] + [last];
      JoinSnoc(parts[1..], sep, last);
    }
  }

  /** Text that does not end in a dot has a non-empty last label. */
  lemma LastLabelNotEmpty(t: string)
    requires t != [] && t[|t| - 1] != '.'
    ensures Split(t, '.')[|Split(t, '.')| - 1] != ""
  {
    var m := Split(t, '.');
    var last := m[|m| - 1];
    JoinSplit(t, '.');
    if |m| > 1 {
      assert m == m[..|m| - 1] + [last];
      JoinSnoc(m[..|m| - 1], '.', last);
      assert t == Join(m[..|m| - 1], '.') + ['.'] + last;
    }
  }

  /** Text ending in ".onion" has two labels or more, the last being "onion". */
  lemma OnionSuffixGivesLabel(t: string)
    requires |t| >= 6 && t[|t| - 6..] == ".onion"
    ensures |Split(t, '.')| >= 2 && Split(t, '.')[|Split(t, '.')| - 1] == "onion"
  {
    var u := t[..|t| - 6];
    assert t == u + ['.'] + "onion";
    SplitAround(u, '.', "onion");
    assert '.' !in "onion";
    SplitWithoutSeparator("onion", '.');
  }

  /** Two labels or more, the last being "onion", make text ending in ".onion". */
  lemma LabelGivesOnionSuffix(t: string)
    requires |Split(t, '.')| >= 2 && Split(t, '.')[|Split(t, '.')| - 1] == "onion"
    ensures |t| >= 6 && t[|t| - 6..] == ".onion"
  {
    var m := Split(t, '.');
    var front := m[..|m| - 1];
    JoinSplit(t, '.');
    assert m == front + ["onion"];
    JoinSnoc(front, '.', "onion");
    var head := Join(front, '.');
    assert t == head + ".onion";
    assert t[|head|..] == ".onion";
  }

  /** Labels that are all empty hold no onion label. */
  lemma EmptyLabelsNotOnion(k: nat)
    ensures !RightmostLabelIsOnion(Empties(k))
  {
  }

  /**
   * Empty labels after a non-empty last one are skipped: the scan decides on
   * that last label.
   */
  lemma EmptyTailSkipped(m: seq<string>, k: nat)
    requires |m| >= 1 && m[|m| - 1] != ""
    ensures RightmostLabelIsOnion(m + Empties(k)) <==> |m| >= 2 && m[|m| - 1] == "onion"
  {
    var labels := m + Empties(k);
    var last := |m| - 1;
    assert labels[last] == m[last];
    if RightmostLabelIsOnion(labels) {
      var i :| 1 <= i < |labels| && labels[i] == "onion" && forall j :: i < j < |labels| ==> labels[j] == "";
      assert i == last;
    }
    if |m| >= 2 && m[last] == "onion" {
      assert forall j :: last < j < |labels| ==> labels[j] == Empties(k)[j - |m|];
    }
  }

  /**
   * The label scan and the reference agree on every name: the scan answers
   * true exactly when the name, trailing dots removed, ends in ".onion".
   */
  lemma OnionScanMatchesReference(name: string)
    ensures RightmostLabelIsOnion(Labels(name)) <==> IsOnionName(name)
  {
    var t := TrimTrailingDots(name);
    var k := |name| - |t|;
    var m := Split(t, '.');
    SplitTrailingDots(t, k);
    assert Labels(name) == m + Empties(k);
    if t == [] {
      assert m == [""];
      assert m + Empties(k) == Empties(k + 1);
      EmptyLabelsNotOnion(k + 1);
    } else {
      LastLabelNotEmpty(t);
      EmptyTailSkipped(m, k);
      if |t| >= 6 && t[|t| - 6..] == ".onion" {
        OnionSuffixGivesLabel(t);
      }
      if |m| >= 2 && m[|m| - 1] == "onion" {
        LabelGivesOnionSuffix(t);
      }
    }
  }

  /** A name whose last label is "onion" is an onion name. */
  lemma OnionNameAccepted()
    ensures RightmostLabelIsOnion(Labels("foo.onion"))
  {
    OnionScanMatchesReference("foo.onion");
    assert TrimTrailingDots("foo.onion") == "foo.onion";
    assert "foo.onion"[3..] == ".onion";
  }

  /** A trailing dot is skipped. */
  lemma TrailingDotSkipped()
    ensures RightmostLabelIsOnion(Labels("foo.onion."))
  {
    OnionScanMatchesReference("foo.onion.");
    assert "foo.onion."[..9] == "foo.onion";
    assert TrimTrailingDots("foo.onion.") == "foo.onion";
    assert "foo.onion"[3..] == ".onion";
  }

  /** So are several. */
  lemma TrailingDotsSkipped()
    ensures RightmostLabelIsOnion(Labels("foo.onion.."))
  {
    OnionScanMatchesReference("foo.onion..");
    assert "foo.onion.."[..10] == "foo.onion.";
    assert "foo.onion."[..9] == "foo.onion";
    assert TrimTrailingDots("foo.onion..") == "foo.onion";
    assert "foo.onion"[3..] == ".onion";
  }

  /** Label 0 is never looked at: a bare "onion" is no onion name, ".onion" is. */
  lemma FirstLabelIgnored()
    ensures RightmostLabelIsOnion(Labels(".onion"))
    ensures !RightmostLabelIsOnion(Labels("onion"))
    ensures !RightmostLabelIsOnion(Labels("onion."))
  {
    OnionScanMatchesReference(".onion");
    OnionScanMatchesReference("onion");
    OnionScanMatchesReference("onion.");
    assert TrimTrailingDots(".onion") == ".onion";
    assert ".onion"[0..] == ".onion";
    assert TrimTrailingDots("onion") == "onion";
    assert TrimTrailingDots("onion.") == "onion";
  }

  /** Only the right-most non-empty label decides. */
  lemma RightmostLabelDecides()
    ensures !RightmostLabelIsOnion(Labels("a.onion.com"))
  {
    OnionScanMatchesReference("a.onion.com");
    assert TrimTrailingDots("a.onion.com") == "a.onion.com";
    assert "a.onion.com"[5..] != ".onion";
  }

  /** The comparison is case-sensitive. */
  lemma LabelCaseMatters()
    ensures !RightmostLabelIsOnion(Labels("x.ONION"))
  {
    OnionScanMatchesReference("x.ONION");
    assert TrimTrailingDots("x.ONION") == "x.ONION";
    assert "x.ONION"[1..] != ".onion";
  }

  /** Names made of dots only, the empty one included, are no onion names. */
  lemma DotsOnlyRejected()
    ensures !RightmostLabelIsOnion(Labels(""))
    ensures !RightmostLabelIsOnion(Labels("..."))
  {
    OnionScanMatchesReference("");
    OnionScanMatchesReference("...");
    assert TrimTrailingDots("...") == TrimTrailingDots("..") == TrimTrailingDots(".") == "";
  }
}
