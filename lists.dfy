/**
 * The Python list operations the survey script uses: a list comprehension
 * with a condition (`[r for r in xs if p(r)]`) and `list.remove(x)`, plus the
 * order-preserving "subsequence of" relation used to state what they keep.
 */
module Lists {

  /** `[x for x in s if p(x)]`. */
  function Keep<T>(s: seq<T>, p: T -> bool): (r: seq<T>)
    ensures |r| <= |s|
    ensures forall x :: x in r ==> x in s && p(x)
    decreases |s|
  {
    if s == [] then []
    else (if p(s[0]) then [s[0]] else []) + Keep(s[1..], p)
  }

  /** Appending one element to the input appends it to the output when it satisfies `p`. */
  lemma {:induction false} KeepSnoc<T>(s: seq<T>, x: T, p: T -> bool)
    ensures Keep(s + [x], p) == Keep(s, p) + (if p(x) then [x] else [])
    decreases |s|
  {
    if s == [] {
      assert [x][1..] == [];
    } else {
      assert (s + [x])[1..] == s[1..] + [x];
      KeepSnoc(s[1..], x, p);
    }
  }

  /** Nothing is kept when no element satisfies `p`. */
  lemma KeepNone<T>(s: seq<T>, p: T -> bool)
    requires forall x :: x in s ==> !p(x)
    ensures Keep(s, p) == []
  {
    if Keep(s, p) != [] {
      assert Keep(s, p)[0] in Keep(s, p);
    }
  }

  /** `a` is `b` with some elements left out, the rest in their order. */
  predicate IsSubseq<T(==)>(a: seq<T>, b: seq<T>)
    decreases |b|
  {
    || a == []
    || (&& b != []
        && ((a[0] == b[0] && IsSubseq(a[1..], b[1..])) || IsSubseq(a, b[1..])))
  }

  lemma {:induction false} SubseqRefl<T>(s: seq<T>)
    ensures IsSubseq(s, s)
    decreases |s|
  {
    if s != [] {
      SubseqRefl(s[1..]);
    }
  }

  lemma {:induction false} SubseqTrans<T>(a: seq<T>, b: seq<T>, c: seq<T>)
    requires IsSubseq(a, b) && IsSubseq(b, c)
    ensures IsSubseq(a, c)
    decreases |c|
  {
    if a != [] {
      if IsSubseq(b, c[1..]) {
        SubseqTrans(a, b, c[1..]);
      } else if a[0] == b[0] && IsSubseq(a[1..], b[1..]) {
        SubseqTrans(a[1..], b[1..], c[1..]);
      } else {
        SubseqTrans(a, b[1..], c[1..]);
      }
    }
  }

  /** A subsequence holds nothing the sequence does not. */
  lemma {:induction false} SubseqMembers<T>(a: seq<T>, b: seq<T>, x: T)
    requires IsSubseq(a, b) && x in a
    ensures x in b
    decreases |b|
  {
    if a[0] == b[0] && IsSubseq(a[1..], b[1..]) {
      if x != a[0] {
        SubseqMembers(a[1..], b[1..], x);
      }
    } else {
      SubseqMembers(a, b[1..], x);
    }
  }

  /** The comprehension keeps, in their order, the elements that satisfy `p`. */
  lemma {:induction false} KeepIsSubseq<T>(s: seq<T>, p: T -> bool)
    ensures IsSubseq(Keep(s, p), s)
    decreases |s|
  {
    if s != [] {
      KeepIsSubseq(s[1..], p);
      var k := Keep(s, p);
      if p(s[0]) {
        assert k == [s[0]] + Keep(s[1..], p);
        assert k[0] == s[0] && k[1..] == Keep(s[1..], p);
      } else {
        assert k == Keep(s[1..], p);
      }
    }
  }

  /** Every element that satisfies `p` is kept. */
  lemma {:induction false} KeepComplete<T>(s: seq<T>, p: T -> bool, x: T)
    requires x in s && p(x)
    ensures x in Keep(s, p)
    decreases |s|
  {
    if s[0] != x {
      KeepComplete(s[1..], p, x);
    }
  }

  /** A weaker condition keeps at least as many elements. */
  lemma {:induction false} KeepMonotone<T>(s: seq<T>, p: T -> bool, q: T -> bool)
    requires forall x :: x in s && p(x) ==> q(x)
    ensures |Keep(s, p)| <= |Keep(s, q)|
    decreases |s|
  {
    if s != [] {
      KeepMonotone(s[1..], p, q);
    }
  }

  /** Keeping with `p` and `q` in turn is keeping with both. */
  lemma {:induction false} KeepKeep<T>(s: seq<T>, p: T -> bool, q: T -> bool, pq: T -> bool)
    requires forall x :: pq(x) == (p(x) && q(x))
    ensures Keep(Keep(s, p), q) == Keep(s, pq)
    decreases |s|
  {
    if s != [] {
      KeepKeep(s[1..], p, q, pq);
      var k := Keep(s, p);
      if p(s[0]) {
        assert k == [s[0]] + Keep(s[1..], p);
        assert k[0] == s[0] && k[1..] == Keep(s[1..], p);
        assert pq(s[0]) == q(s[0]);
      } else {
        assert k == Keep(s[1..], p);
        assert !pq(s[0]);
      }
    }
  }

  /** `list.index(x)`: the position of the first element equal to `x`. */
  function IndexOf<T(==)>(s: seq<T>, x: T): (k: nat)
    requires x in s
    ensures k < |s| && s[k] == x && x !in s[..k]
    decreases |s|
  {
    if s[0] == x then 0
    else
      var k := 1 + IndexOf(s[1..], x);
      assert s[..k] == [s[0]] + s[1..][..k - 1];
      k
  }

  /** `list.remove(x)` on a list that holds `x`: drops its first equal element. */
  function RemoveFirst<T(==)>(s: seq<T>, x: T): (r: seq<T>)
    requires x in s
    ensures r == s[..IndexOf(s, x)] + s[IndexOf(s, x) + 1..]
    decreases |s|
  {
    if s[0] == x then s[1..]
    else
      assert s[1..][..IndexOf(s, x) - 1] == s[1..IndexOf(s, x)];
      [s[0]] + RemoveFirst(s[1..], x)
  }

  /** Removing an element leaves a sequence one shorter, with one copy of `x` fewer. */
  lemma RemoveFirstCount<T>(s: seq<T>, x: T)
    requires x in s
    ensures |RemoveFirst(s, x)| == |s| - 1
    ensures multiset(RemoveFirst(s, x)) == multiset(s) - multiset{x}
  {
    var k := IndexOf(s, x);
    var r := RemoveFirst(s, x);
    assert s == s[..k] + [x] + s[k + 1..];
    calc {
      multiset(s);
      multiset(s[..k] + [x] + s[k + 1..]);
      multiset(s[..k]) + multiset{x} + multiset(s[k + 1..]);
      multiset(r) + multiset{x};
    }
  }

  /** What is left after a removal is a subsequence of what was there. */
  lemma {:induction false} RemoveFirstIsSubseq<T>(s: seq<T>, x: T)
    requires x in s
    ensures IsSubseq(RemoveFirst(s, x), s)
    decreases |s|
  {
    var r := RemoveFirst(s, x);
    if s[0] == x {
      SubseqRefl(s[1..]);
      assert r == s[1..];
    } else {
      RemoveFirstIsSubseq(s[1..], x);
      assert r == [s[0]] + RemoveFirst(s[1..], x);
      assert r[0] == s[0] && r[1..] == RemoveFirst(s[1..], x);
    }
  }

  /** Removing an element that fails `p` changes nothing that `p` keeps. */
  lemma {:induction false} KeepIgnoresRemoved<T>(s: seq<T>, x: T, p: T -> bool)
    requires x in s && !p(x)
    ensures Keep(RemoveFirst(s, x), p) == Keep(s, p)
    decreases |s|
  {
    if s[0] != x {
      KeepIgnoresRemoved(s[1..], x, p);
      assert RemoveFirst(s, x)[1..] == RemoveFirst(s[1..], x);
    }
  }
}
