/** Selection of the largest entries of a tally, as `nlargest` followed by an
    ascending `sort_values` does it for the brand bar chart. */
module Ranking {
  import opened Counts

  /** A suffix of a tally holds only entries of the tally, and keeps labels unique. */
  lemma SuffixEntries(s: seq<(string, nat)>, m: nat)
    requires m <= |s|
    ensures forall p :: p in s[m..] ==> p in s
    ensures NoDupKeys(s) ==> NoDupKeys(s[m..])
  {
    var r := s[m..];
    forall p | p in r
      ensures p in s
    {
      var i :| 0 <= i < |r| && r[i] == p;
      assert s[m + i] == p;
    }
    if NoDupKeys(s) {
      forall i, j | 0 <= i < j < |r|
        ensures r[i].0 != r[j].0
      {
        assert s[m + i] == r[i] && s[m + j] == r[j];
      }
    }
  }

  /** In an ascending tally, an entry outside a suffix has a count no larger
      than any entry of the suffix. */
  lemma SuffixDominates(s: seq<(string, nat)>, m: nat)
    requires m <= |s| && Ascending(s)
    ensures forall p, i :: p in s && p !in s[m..] && 0 <= i < |s| - m ==> p.1 <= s[m..][i].1
  {
    var r := s[m..];
    forall p, i | p in s && p !in r && 0 <= i < |r|
      ensures p.1 <= r[i].1
    {
      var j :| 0 <= j < |s| && s[j] == p;
      assert j < m;
      assert r[i] == s[m + i];
    }
  }

  /** `nlargest(n).sort_values(ascending=True)`: the `n` entries with the
      largest counts (all of them when there are fewer), ascending. */
  function Largest(t: seq<(string, nat)>, n: nat): (r: seq<(string, nat)>)
    ensures |r| <= n
    ensures Ascending(r)
  {
    var sorted := Sort(t);
    var k := if |sorted| < n then |sorted| else n;
    sorted[|sorted| - k..]
  }

  /** The selected entries come from the tally, labels staying unique. */
  lemma LargestEntries(t: seq<(string, nat)>, n: nat)
    ensures forall p :: p in Largest(t, n) ==> p in t
    ensures NoDupKeys(t) ==> NoDupKeys(Largest(t, n))
  {
    var sorted := Sort(t);
    SortFacts(t);
    var r := Largest(t, n);
    var m := |sorted| - |r|;
    assert r == sorted[m..];
    SuffixEntries(sorted, m);
  }

  /** Fewer than `n` entries means nothing was left out, and no entry left
      out has a larger count than any entry selected. */
  lemma LargestSelection(t: seq<(string, nat)>, n: nat)
    ensures |Largest(t, n)| == n || forall p :: p in t ==> p in Largest(t, n)
    ensures forall p, i :: p in t && p !in Largest(t, n) && 0 <= i < |Largest(t, n)| ==>
              p.1 <= Largest(t, n)[i].1
  {
    var sorted := Sort(t);
    SortMembers(t);
    var r := Largest(t, n);
    var m := |sorted| - |r|;
    assert r == sorted[m..];
    SuffixDominates(sorted, m);
    if |r| < n {
      assert m == 0 && r == sorted;
    }
  }
}
