/** Order-preserving filtering of a table, the shape shared by `dropna` and the
    outlier masks `df[cond]`, together with the laws every such filter obeys. */
module Seqs {

  /** The elements of `s` on which `keep` holds, in their original order. */
  function Filter<T(!new)>(s: seq<T>, keep: T -> bool): (r: seq<T>)
    ensures |r| <= |s|
    ensures forall i :: 0 <= i < |r| ==> keep(r[i])
  {
    if |s| == 0 then []
    else (if keep(s[0]) then [s[0]] else []) + Filter(s[1..], keep)
  }

  /** Every element satisfying `keep` survives as often as it occurs; no
      other element survives. */
  lemma {:induction false} FilterMultiplicity<T(!new)>(s: seq<T>, keep: T -> bool)
    ensures forall x :: multiset(Filter(s, keep))[x] == if keep(x) then multiset(s)[x] else 0
  {
    if |s| > 0 {
      FilterMultiplicity(s[1..], keep);
      assert s == [s[0]] + s[1..];
    }
  }

  /** `r` can be obtained from `s` by deleting elements (order kept). */
  ghost predicate IsSubsequence<T>(r: seq<T>, s: seq<T>)
    decreases |s|
  {
    |r| == 0 ||
    (|s| > 0 &&
     ((r[0] == s[0] && IsSubsequence(r[1..], s[1..])) || IsSubsequence(r, s[1..])))
  }

  lemma {:induction false} FilterIsSubsequence<T(!new)>(s: seq<T>, keep: T -> bool)
    ensures IsSubsequence(Filter(s, keep), s)
  {
    if |s| > 0 {
      FilterIsSubsequence(s[1..], keep);
      var r := Filter(s, keep);
      if keep(s[0]) {
        assert r[0] == s[0] && r[1..] == Filter(s[1..], keep);
      } else {
        assert r == Filter(s[1..], keep);
      }
    }
  }

  /** Membership: an element survives iff it was present and satisfies `keep`. */
  lemma FilterMembership<T(!new)>(s: seq<T>, keep: T -> bool)
    ensures forall x :: x in Filter(s, keep) <==> x in s && keep(x)
  {
    var r := Filter(s, keep);
    FilterMultiplicity(s, keep);
    forall x
      ensures x in r <==> x in s && keep(x)
    {
      assert x in r <==> multiset(r)[x] > 0;
      assert x in s <==> multiset(s)[x] > 0;
    }
  }

  /** Filtering is idempotent: a second pass removes nothing. */
  lemma FilterIdempotent<T(!new)>(s: seq<T>, keep: T -> bool)
    ensures Filter(Filter(s, keep), keep) == Filter(s, keep)
  {
    FilterKeepsAll(Filter(s, keep), keep);
  }

  /** A filter whose predicate holds everywhere returns its input unchanged. */
  lemma {:induction false} FilterKeepsAll<T(!new)>(s: seq<T>, keep: T -> bool)
    requires forall i :: 0 <= i < |s| ==> keep(s[i])
    ensures Filter(s, keep) == s
  {
    if |s| > 0 {
      FilterKeepsAll(s[1..], keep);
      assert s == [s[0]] + s[1..];
    }
  }

  /** A filter whose predicate fails everywhere returns nothing. */
  lemma {:induction false} FilterDropsAll<T(!new)>(s: seq<T>, keep: T -> bool)
    requires forall i :: 0 <= i < |s| ==> !keep(s[i])
    ensures Filter(s, keep) == []
  {
    if |s| > 0 {
      FilterDropsAll(s[1..], keep);
    }
  }

  /** Every index moved one place right. */
  function Shift(p: seq<nat>): (q: seq<nat>)
    ensures |q| == |p| && forall j :: 0 <= j < |p| ==> q[j] == p[j] + 1
  {
    seq(|p|, j requires 0 <= j < |p| => p[j] + 1)
  }

  /** The indices of the elements `keep` accepts, in increasing order. */
  function Positions<T>(s: seq<T>, keep: T -> bool): (idx: seq<nat>)
    ensures |idx| <= |s|
    ensures forall j :: 0 <= j < |idx| ==> idx[j] < |s|
  {
    if |s| == 0 then [] else (if keep(s[0]) then [0] else []) + Shift(Positions(s[1..], keep))
  }

  /** Every listed index is accepted. */
  lemma {:induction false} PositionsAccepted<T>(s: seq<T>, keep: T -> bool)
    ensures forall j :: 0 <= j < |Positions(s, keep)| ==> keep(s[Positions(s, keep)[j]])
  {
    if |s| > 0 {
      PositionsAccepted(s[1..], keep);
      var p := Positions(s[1..], keep);
      var q := Shift(p);
      var h: seq<nat> := if keep(s[0]) then [0] else [];
      assert Positions(s, keep) == h + q;
      forall j | 0 <= j < |q|
        ensures keep(s[q[j]])
      {
        assert s[1..][p[j]] == s[q[j]];
      }
    }
  }

  /** The indices are listed in strictly increasing order, so each once. */
  lemma {:induction false} PositionsIncreasing<T>(s: seq<T>, keep: T -> bool)
    ensures forall j, k :: 0 <= j < k < |Positions(s, keep)| ==> Positions(s, keep)[j] < Positions(s, keep)[k]
  {
    if |s| > 0 {
      PositionsIncreasing(s[1..], keep);
      var q := Shift(Positions(s[1..], keep));
      var h: seq<nat> := if keep(s[0]) then [0] else [];
      var idx := h + q;
      assert Positions(s, keep) == idx;
      forall j, k | 0 <= j < k < |idx|
        ensures idx[j] < idx[k]
      {
        assert idx[k] == q[k - |h|];
        if j >= |h| {
          assert idx[j] == q[j - |h|];
        }
      }
    }
  }

  /** Every accepted index is listed. */
  lemma {:induction false} PositionsComplete<T>(s: seq<T>, keep: T -> bool)
    ensures forall i :: 0 <= i < |s| && keep(s[i]) ==> i in Positions(s, keep)
  {
    if |s| > 0 {
      PositionsComplete(s[1..], keep);
      var p := Positions(s[1..], keep);
      var q := Shift(p);
      var h: seq<nat> := if keep(s[0]) then [0] else [];
      assert Positions(s, keep) == h + q;
      forall i | 1 <= i < |s| && keep(s[i])
        ensures i in q
      {
        assert s[1..][i - 1] == s[i];
        var j :| 0 <= j < |p| && p[j] == i - 1;
        assert q[j] == i;
      }
    }
  }

  /** The filter's j-th element is the element at the j-th accepted index. */
  lemma {:induction false} FilterAtPositions<T(!new)>(s: seq<T>, keep: T -> bool)
    ensures |Filter(s, keep)| == |Positions(s, keep)|
    ensures forall j :: 0 <= j < |Filter(s, keep)| ==> Filter(s, keep)[j] == s[Positions(s, keep)[j]]
  {
    if |s| > 0 {
      FilterAtPositions(s[1..], keep);
      var f := Filter(s[1..], keep);
      var p := Positions(s[1..], keep);
      forall j | 0 <= j < |f|
        ensures s[Shift(p)[j]] == f[j]
      {
        assert s[1..][p[j]] == s[p[j] + 1];
      }
    }
  }

  /** Positions depend only on which indices are accepted. */
  lemma {:induction false} PositionsAgree<T, U>(s: seq<T>, keep: T -> bool, s2: seq<U>, keep2: U -> bool)
    requires |s| == |s2|
    requires forall i :: 0 <= i < |s| ==> (keep(s[i]) <==> keep2(s2[i]))
    ensures Positions(s, keep) == Positions(s2, keep2)
  {
    if |s| > 0 {
      PositionsAgree(s[1..], keep, s2[1..], keep2);
    }
  }
}
