/** Order-preserving selection from a sequence: the theory behind `Array.prototype.filter`,
    which every delete handler uses. */
module Seqs {

  /** `s` can be obtained from `t` by deleting elements, keeping the order of the rest. */
  predicate IsSubsequence<T(==)>(s: seq<T>, t: seq<T>)
    decreases |t|
  {
    || |s| == 0
    || (&& |t| > 0
        && ((s[0] == t[0] && IsSubsequence(s[1..], t[1..])) || IsSubsequence(s, t[1..])))
  }

  /** Every element of `s` passes `keep`. */
  predicate AllKept<T>(s: seq<T>, keep: T -> bool) {
    forall i :: 0 <= i < |s| ==> keep(s[i])
  }

  /** `r` is a longest subsequence of `s` all of whose elements pass `keep`: a description
      of filtering that does not say how to compute it. */
  ghost predicate KeepsExactly<T(!new)>(r: seq<T>, s: seq<T>, keep: T -> bool) {
    && IsSubsequence(r, s)
    && AllKept(r, keep)
    && forall t :: IsSubsequence(t, s) && AllKept(t, keep) ==> |t| <= |r|
  }

  /** `s.filter(keep)`. */
  function Filter<T(==,!new)>(s: seq<T>, keep: T -> bool): (r: seq<T>)
    ensures AllKept(r, keep)
    ensures IsSubsequence(r, s)
  {
    if |s| == 0 then []
    else if keep(s[0]) then
      var r := [s[0]] + Filter(s[1..], keep);
      assert r[1..] == Filter(s[1..], keep);
      r
    else Filter(s[1..], keep)
  }

  /** The filtered sequence holds exactly the elements of `s` that pass `keep`. */
  lemma {:induction false} FilterMembers<T(!new)>(s: seq<T>, keep: T -> bool)
    ensures forall x :: x in Filter(s, keep) <==> x in s && keep(x)
  {
    if |s| > 0 {
      FilterMembers(s[1..], keep);
      assert s == [s[0]] + s[1..];
    }
  }

  /** A subsequence is never longer than the sequence, and one of equal length is the
      sequence itself. */
  lemma {:induction false} SubsequenceBound<T>(s: seq<T>, t: seq<T>)
    requires IsSubsequence(s, t)
    ensures |s| <= |t|
    ensures |s| == |t| ==> s == t
    decreases |t|
  {
    if |s| == 0 {
    } else if s[0] == t[0] && IsSubsequence(s[1..], t[1..]) {
      SubsequenceBound(s[1..], t[1..]);
      if |s| == |t| {
        assert s == [s[0]] + s[1..];
        assert t == [t[0]] + t[1..];
      }
    } else {
      SubsequenceBound(s, t[1..]);
    }
  }

  /** Any subsequence whose elements all pass `keep` is a subsequence of the filtered
      sequence. */
  lemma {:induction false} SubsequenceOfFilter<T(!new)>(t: seq<T>, s: seq<T>, keep: T -> bool)
    requires IsSubsequence(t, s) && AllKept(t, keep)
    ensures IsSubsequence(t, Filter(s, keep))
    decreases |s|
  {
    if |t| == 0 {
    } else {
      var f := Filter(s[1..], keep);
      if t[0] == s[0] && IsSubsequence(t[1..], s[1..]) {
        assert keep(t[0]);
        SubsequenceOfFilter(t[1..], s[1..], keep);
        assert Filter(s, keep) == [s[0]] + f;
        assert ([s[0]] + f)[1..] == f;
      } else {
        SubsequenceOfFilter(t, s[1..], keep);
        if keep(s[0]) {
          assert Filter(s, keep) == [s[0]] + f;
          assert ([s[0]] + f)[1..] == f;
        }
      }
    }
  }

  /** `Filter` is a longest subsequence of passing elements, and it is the only one. */
  lemma FilterKeepsExactly<T(!new)>(r: seq<T>, s: seq<T>, keep: T -> bool)
    ensures KeepsExactly(Filter(s, keep), s, keep)
    ensures KeepsExactly(r, s, keep) ==> r == Filter(s, keep)
  {
    var f := Filter(s, keep);
    forall t | IsSubsequence(t, s) && AllKept(t, keep)
      ensures |t| <= |f|
    {
      SubsequenceOfFilter(t, s, keep);
      SubsequenceBound(t, f);
    }
    if KeepsExactly(r, s, keep) {
      SubsequenceOfFilter(r, s, keep);
      SubsequenceBound(r, f);
    }
  }

  /** Filtering a sequence whose elements all pass changes nothing. */
  lemma {:induction false} FilterAllKept<T(!new)>(s: seq<T>, keep: T -> bool)
    requires AllKept(s, keep)
    ensures Filter(s, keep) == s
  {
    if |s| > 0 {
      FilterAllKept(s[1..], keep);
      assert s == [s[0]] + s[1..];
    }
  }

  /** Filtering distributes over concatenation. */
  lemma {:induction false} FilterAppend<T(!new)>(a: seq<T>, b: seq<T>, keep: T -> bool)
    ensures Filter(a + b, keep) == Filter(a, keep) + Filter(b, keep)
  {
    if |a| == 0 {
      assert a + b == b;
    } else {
      FilterAppend(a[1..], b, keep);
      assert (a + b)[0] == a[0];
      assert (a + b)[1..] == a[1..] + b;
    }
  }

  /** Filtering twice with the same predicate is filtering once. */
  lemma FilterIdempotent<T(!new)>(s: seq<T>, keep: T -> bool)
    ensures Filter(Filter(s, keep), keep) == Filter(s, keep)
  {
    FilterAllKept(Filter(s, keep), keep);
  }
}
