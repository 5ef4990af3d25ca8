/** Boolean-mask selection, `table[mask]`: the rows for which `keep` holds,
    in their original order. */
module Masks {

  function Mask<T>(s: seq<T>, keep: T -> bool): (r: seq<T>)
    ensures |r| <= |s|
  {
    if s == [] then []
    else if keep(s[0]) then [s[0]] + Mask(s[1..], keep)
    else Mask(s[1..], keep)
  }

  /** `a` can be obtained from `b` by deleting elements: nothing invented, order kept. */
  predicate IsSubsequence<T(==)>(a: seq<T>, b: seq<T>)
    decreases |b|
  {
    a == [] || (b != [] && ((a[0] == b[0] && IsSubsequence(a[1..], b[1..])) || IsSubsequence(a, b[1..])))
  }

  /** An element is selected exactly when it is in the table and the mask keeps it. */
  lemma {:induction false} MaskMembership<T>(s: seq<T>, keep: T -> bool, x: T)
    ensures x in Mask(s, keep) <==> x in s && keep(x)
  {
    if s != [] {
      MaskMembership(s[1..], keep, x);
      assert s == [s[0]] + s[1..];
    }
  }

  /** Each kept element is selected as many times as it occurs; the others never. */
  lemma {:induction false} MaskMultiplicity<T>(s: seq<T>, keep: T -> bool, x: T)
    ensures multiset(Mask(s, keep))[x] == if keep(x) then multiset(s)[x] else 0
  {
    if s != [] {
      MaskMultiplicity(s[1..], keep, x);
      assert s == [s[0]] + s[1..];
    }
  }

  /** The selection is a subsequence of the table. */
  lemma {:induction false} MaskSubsequence<T>(s: seq<T>, keep: T -> bool)
    ensures IsSubsequence(Mask(s, keep), s)
  {
    if s != [] {
      MaskSubsequence(s[1..], keep);
      var rest := Mask(s[1..], keep);
      if keep(s[0]) {
        assert ([s[0]] + rest)[1..] == rest;
      }
    }
  }

  /** A mask that keeps every element changes nothing. */
  lemma {:induction false} MaskAll<T>(s: seq<T>, keep: T -> bool)
    requires forall i :: 0 <= i < |s| ==> keep(s[i])
    ensures Mask(s, keep) == s
  {
    if s != [] {
      MaskAll(s[1..], keep);
      assert s == [s[0]] + s[1..];
    }
  }

  /** A mask that keeps nothing yields the empty table. */
  lemma {:induction false} MaskNone<T>(s: seq<T>, keep: T -> bool)
    requires forall i :: 0 <= i < |s| ==> !keep(s[i])
    ensures Mask(s, keep) == []
  {
    if s != [] {
      MaskNone(s[1..], keep);
    }
  }

  /** Every selected element satisfies the mask. */
  lemma {:induction false} MaskKept<T>(s: seq<T>, keep: T -> bool)
    ensures forall i :: 0 <= i < |Mask(s, keep)| ==> keep(Mask(s, keep)[i])
  {
    if s != [] {
      MaskKept(s[1..], keep);
    }
  }

  /** Applying a mask twice is the same as applying it once. */
  lemma MaskIdempotent<T>(s: seq<T>, keep: T -> bool)
    ensures Mask(Mask(s, keep), keep) == Mask(s, keep)
  {
    MaskKept(s, keep);
    MaskAll(Mask(s, keep), keep);
  }

  /** Two masks may be applied in either order. */
  lemma {:induction false} MaskCommutes<T>(s: seq<T>, p: T -> bool, q: T -> bool)
    ensures Mask(Mask(s, p), q) == Mask(Mask(s, q), p)
  {
    if s != [] {
      MaskCommutes(s[1..], p, q);
    }
  }

  /** Selection distributes over concatenation: rows from the front of the
      table stay in front of rows from the back. */
  lemma {:induction false} MaskConcat<T>(a: seq<T>, b: seq<T>, keep: T -> bool)
    ensures Mask(a + b, keep) == Mask(a, keep) + Mask(b, keep)
  {
    if a == [] {
      assert a + b == b;
    } else {
      assert (a + b)[1..] == a[1..] + b;
      MaskConcat(a[1..], b, keep);
    }
  }
}
