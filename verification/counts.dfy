/** Category tallies as pandas' `value_counts` produces them: a sequence of
    (label, number of rows) pairs, plus the ascending `sort_values` and the
    label assignment `s[label] = v` the charts apply to such a tally. */
module Counts {
  import Seqs

  /** Number of occurrences of `k` in `keys`. */
  function Count(keys: seq<string>, k: string): (n: nat)
    ensures n <= |keys|
    ensures n > 0 <==> k in keys
  {
    if |keys| == 0 then 0
    else (if keys[0] == k then 1 else 0) + Count(keys[1..], k)
  }

  predicate NoDup(s: seq<string>) {
    forall i, j :: 0 <= i < j < |s| ==> s[i] != s[j]
  }

  /** The distinct labels of `keys`, in order of first appearance. */
  function Distinct(keys: seq<string>): (d: seq<string>)
    ensures NoDup(d)
    ensures forall k :: k in d <==> k in keys
  {
    if |keys| == 0 then []
    else
      var init := keys[..|keys| - 1];
      var k := keys[|keys| - 1];
      assert keys == init + [k];
      var d := Distinct(init);
      if k in d then d else d + [k]
  }

  /** Some entry of the tally is labelled `k`. */
  predicate HasKey(s: seq<(string, nat)>, k: string) {
    exists p :: p in s && p.0 == k
  }

  predicate NoDupKeys(s: seq<(string, nat)>) {
    forall i, j :: 0 <= i < j < |s| ==> s[i].0 != s[j].0
  }

  predicate Ascending(s: seq<(string, nat)>) {
    forall i, j :: 0 <= i < j < |s| ==> s[i].1 <= s[j].1
  }

  /** Sum of the counts of a tally. */
  function SumValues(s: seq<(string, nat)>): nat {
    if |s| == 0 then 0 else s[0].1 + SumValues(s[1..])
  }

  /** The count recorded for label `k` (its first entry), 0 when absent. */
  function ValueOf(s: seq<(string, nat)>, k: string): nat {
    if |s| == 0 then 0 else if s[0].0 == k then s[0].1 else ValueOf(s[1..], k)
  }

  /** One entry per label of `d`, carrying that label's count in `keys`. */
  function Tally(d: seq<string>, keys: seq<string>): (t: seq<(string, nat)>)
    ensures |t| == |d|
    ensures forall i :: 0 <= i < |t| ==> t[i].0 == d[i] && t[i].1 == Count(keys, d[i])
  {
    if |d| == 0 then [] else [(d[0], Count(keys, d[0]))] + Tally(d[1..], keys)
  }

  /** `value_counts`: every label that occurs, once, with its number of rows. */
  function ValueCounts(keys: seq<string>): (vc: seq<(string, nat)>)
    ensures NoDupKeys(vc)
  {
    Tally(Distinct(keys), keys)
  }

  /** Every label that occurs has an entry carrying its exact count, and
      there is no other entry. */
  lemma ValueCountsEntries(keys: seq<string>)
    ensures forall p :: p in ValueCounts(keys) ==> p.0 in keys && p.1 == Count(keys, p.0)
    ensures forall k :: k in keys ==> (k, Count(keys, k)) in ValueCounts(keys)
  {
    var d := Distinct(keys);
    var vc := ValueCounts(keys);
    assert forall k :: k in keys ==> exists i :: 0 <= i < |d| && d[i] == k && vc[i] == (k, Count(keys, k));
  }

  lemma {:induction false} TallyOfNone(d: seq<string>)
    ensures SumValues(Tally(d, [])) == 0
  {
    if |d| > 0 {
      TallyOfNone(d[1..]);
    }
  }

  lemma {:induction false} TallyCons(d: seq<string>, k: string, rest: seq<string>)
    ensures SumValues(Tally(d, [k] + rest)) == SumValues(Tally(d, rest)) + Count(d, k)
  {
    if |d| > 0 {
      TallyCons(d[1..], k, rest);
      assert ([k] + rest)[1..] == rest;
    }
  }

  lemma {:induction false} CountInNoDup(d: seq<string>, k: string)
    requires NoDup(d)
    ensures Count(d, k) == if k in d then 1 else 0
  {
    if |d| > 0 {
      CountInNoDup(d[1..], k);
      if d[0] == k {
        assert k !in d[1..] by {
          forall j | 0 <= j < |d[1..]|
            ensures d[1..][j] != k
          {
            assert d[1..][j] == d[j + 1];
          }
        }
      }
    }
  }

  lemma {:induction false} TallyTotal(d: seq<string>, keys: seq<string>)
    requires NoDup(d)
    requires forall k :: k in keys ==> k in d
    ensures SumValues(Tally(d, keys)) == |keys|
  {
    if |keys| == 0 {
      TallyOfNone(d);
    } else {
      assert keys == [keys[0]] + keys[1..];
      TallyCons(d, keys[0], keys[1..]);
      TallyTotal(d, keys[1..]);
      CountInNoDup(d, keys[0]);
    }
  }

  /** The counts of `value_counts` add up to the number of rows. */
  lemma ValueCountsTotal(keys: seq<string>)
    ensures SumValues(ValueCounts(keys)) == |keys|
  {
    TallyTotal(Distinct(keys), keys);
  }

  lemma {:induction false} SumAppend(a: seq<(string, nat)>, b: seq<(string, nat)>)
    ensures SumValues(a + b) == SumValues(a) + SumValues(b)
  {
    if |a| > 0 {
      SumAppend(a[1..], b);
      assert (a + b)[1..] == a[1..] + b;
    } else {
      assert a + b == b;
    }
  }

  /** Inserts `x` in front of the first entry whose count is not smaller. */
  function Insert(x: (string, nat), s: seq<(string, nat)>): (r: seq<(string, nat)>)
    requires Ascending(s)
    ensures |r| == |s| + 1
    ensures r[0] == x || (|s| > 0 && r[0] == s[0])
    ensures Ascending(r)
  {
    if |s| == 0 then [x]
    else if x.1 <= s[0].1 then [x] + s
    else
      var rest := Insert(x, s[1..]);
      var r := [s[0]] + rest;
      assert s == [s[0]] + s[1..];
      assert s[0].1 <= rest[0].1;
      assert Ascending(r) by {
        forall i, j | 0 <= i < j < |r|
          ensures r[i].1 <= r[j].1
        {
          assert r[j] == rest[j - 1];
          if i > 0 {
            assert r[i] == rest[i - 1];
          } else if j > 1 {
            assert rest[0].1 <= rest[j - 1].1;
          }
        }
      }
      r
  }

  /** Insertion adds `x` and loses nothing. */
  lemma {:induction false} InsertPermutation(x: (string, nat), s: seq<(string, nat)>)
    requires Ascending(s)
    ensures multiset(Insert(x, s)) == multiset(s) + multiset{x}
  {
    if |s| > 0 && x.1 > s[0].1 {
      InsertPermutation(x, s[1..]);
      assert Insert(x, s) == [s[0]] + Insert(x, s[1..]);
      assert s == [s[0]] + s[1..];
    }
  }

  /** The entries after insertion are `x` and those of `s`. */
  lemma {:induction false} InsertMembers(x: (string, nat), s: seq<(string, nat)>)
    requires Ascending(s)
    ensures forall y :: y in Insert(x, s) <==> y == x || y in s
  {
    if |s| > 0 && x.1 > s[0].1 {
      InsertMembers(x, s[1..]);
      assert Insert(x, s) == [s[0]] + Insert(x, s[1..]);
      assert s == [s[0]] + s[1..];
    }
  }

  /** Insertion adds `x`'s count to the total. */
  lemma {:induction false} InsertSum(x: (string, nat), s: seq<(string, nat)>)
    requires Ascending(s)
    ensures SumValues(Insert(x, s)) == SumValues(s) + x.1
  {
    if |s| > 0 && x.1 > s[0].1 {
      InsertSum(x, s[1..]);
      var rest := Insert(x, s[1..]);
      assert Insert(x, s) == [s[0]] + rest;
      assert ([s[0]] + rest)[1..] == rest;
    } else if |s| > 0 {
      assert Insert(x, s) == [x] + s;
      assert ([x] + s)[1..] == s;
    }
  }

  /** Prepending an entry with a new label keeps labels unique. */
  lemma ConsNoDupKeys(a: (string, nat), s: seq<(string, nat)>)
    requires NoDupKeys(s)
    requires forall y :: y in s ==> y.0 != a.0
    ensures NoDupKeys([a] + s)
  {
    var r := [a] + s;
    forall i, j | 0 <= i < j < |r|
      ensures r[i].0 != r[j].0
    {
      assert r[j] == s[j - 1];
      if i > 0 {
        assert r[i] == s[i - 1];
      } else {
        assert s[j - 1] in s;
      }
    }
  }

  /** Insertion keeps labels unique when `x`'s label is new. */
  lemma {:induction false} InsertNoDupKeys(x: (string, nat), s: seq<(string, nat)>)
    requires Ascending(s) && NoDupKeys(s)
    requires forall y :: y in s ==> y.0 != x.0
    ensures NoDupKeys(Insert(x, s))
  {
    if |s| == 0 || x.1 <= s[0].1 {
      ConsNoDupKeys(x, s);
    } else {
      var tail := s[1..];
      assert s == [s[0]] + tail;
      InsertNoDupKeys(x, tail);
      InsertMembers(x, tail);
      var rest := Insert(x, tail);
      forall y | y in rest
        ensures y.0 != s[0].0
      {
        if y != x {
          var i :| 0 <= i < |tail| && tail[i] == y;
          assert s[i + 1] == y;
        }
      }
      ConsNoDupKeys(s[0], rest);
    }
  }

  /** `sort_values(ascending=True)` on a tally: a permutation ordered by count. */
  function Sort(s: seq<(string, nat)>): (r: seq<(string, nat)>)
    ensures |r| == |s|
    ensures Ascending(r)
  {
    if |s| == 0 then []
    else
      assert s == [s[0]] + s[1..];
      Insert(s[0], Sort(s[1..]))
  }

  /** Sorting is a permutation of the tally. */
  lemma {:induction false} SortPermutation(s: seq<(string, nat)>)
    ensures multiset(Sort(s)) == multiset(s)
  {
    if |s| > 0 {
      SortPermutation(s[1..]);
      InsertPermutation(s[0], Sort(s[1..]));
      assert s == [s[0]] + s[1..];
    }
  }

  /** Sorting keeps exactly the entries of the tally. */
  lemma {:induction false} SortMembers(s: seq<(string, nat)>)
    ensures forall y :: y in Sort(s) <==> y in s
  {
    if |s| > 0 {
      SortMembers(s[1..]);
      InsertMembers(s[0], Sort(s[1..]));
      assert s == [s[0]] + s[1..];
    }
  }

  /** Sorting keeps the total. */
  lemma {:induction false} SortSum(s: seq<(string, nat)>)
    ensures SumValues(Sort(s)) == SumValues(s)
  {
    if |s| > 0 {
      SortSum(s[1..]);
      InsertSum(s[0], Sort(s[1..]));
    }
  }

  /** Sorting keeps labels unique. */
  lemma {:induction false} SortNoDupKeys(s: seq<(string, nat)>)
    requires NoDupKeys(s)
    ensures NoDupKeys(Sort(s))
  {
    if |s| > 0 {
      var tail := s[1..];
      var rest := Sort(tail);
      SortNoDupKeys(tail);
      SortMembers(tail);
      forall y | y in rest
        ensures y.0 != s[0].0
      {
        var i :| 0 <= i < |tail| && tail[i] == y;
        assert s[i + 1] == y;
      }
      InsertNoDupKeys(s[0], rest);
    }
  }

  /** Sorting keeps the entries, the total and the uniqueness of labels. */
  lemma SortFacts(s: seq<(string, nat)>)
    ensures forall y :: y in Sort(s) <==> y in s
    ensures SumValues(Sort(s)) == SumValues(s)
    ensures NoDupKeys(s) ==> NoDupKeys(Sort(s))
  {
    SortMembers(s);
    SortSum(s);
    if NoDupKeys(s) {
      SortNoDupKeys(s);
    }
  }

  /** `s[k] = v`: overwrites the entry labelled `k` in place, or appends one. */
  function SetValue(s: seq<(string, nat)>, k: string, v: nat): (r: seq<(string, nat)>)
    ensures (k, v) in r
  {
    if |s| == 0 then [(k, v)]
    else if s[0].0 == k then [(k, v)] + s[1..]
    else [s[0]] + SetValue(s[1..], k, v)
  }

  /** Entries with any other label are exactly those of `s`. */
  lemma {:induction false} SetValueOthers(s: seq<(string, nat)>, k: string, v: nat)
    ensures forall p: (string, nat) :: p.0 != k ==> (p in SetValue(s, k, v) <==> p in s)
  {
    if |s| > 0 {
      assert s == [s[0]] + s[1..];
      if s[0].0 != k {
        SetValueOthers(s[1..], k, v);
      }
    }
  }

  /** The total changes by the new value minus the overwritten one. */
  lemma {:induction false} SetValueSum(s: seq<(string, nat)>, k: string, v: nat)
    ensures SumValues(SetValue(s, k, v)) + ValueOf(s, k) == SumValues(s) + v
  {
    if |s| > 0 && s[0].0 != k {
      SetValueSum(s[1..], k, v);
      var rest := SetValue(s[1..], k, v);
      assert ([s[0]] + rest)[1..] == rest;
    } else if |s| > 0 {
      assert ([(k, v)] + s[1..])[1..] == s[1..];
    }
  }

  /** Setting a value keeps labels unique. */
  lemma {:induction false} SetValueNoDupKeys(s: seq<(string, nat)>, k: string, v: nat)
    requires NoDupKeys(s)
    ensures NoDupKeys(SetValue(s, k, v))
  {
    if |s| > 0 {
      var tail := s[1..];
      assert s == [s[0]] + tail;
      forall y | y in tail
        ensures y.0 != s[0].0
      {
        var i :| 0 <= i < |tail| && tail[i] == y;
        assert s[i + 1] == y;
      }
      if s[0].0 == k {
        ConsNoDupKeys((k, v), tail);
      } else {
        SetValueNoDupKeys(tail, k, v);
        SetValueOthers(tail, k, v);
        var rest := SetValue(tail, k, v);
        forall y | y in rest
          ensures y.0 != s[0].0
        {
        }
        ConsNoDupKeys(s[0], rest);
      }
    }
  }

  /** The entry recorded for a label of a tally with unique labels. */
  lemma {:induction false} ValueOfMember(s: seq<(string, nat)>, p: (string, nat))
    requires NoDupKeys(s) && p in s
    ensures ValueOf(s, p.0) == p.1
  {
    if s[0] != p {
      assert p in s[1..];
      if s[0].0 == p.0 {
        assert false;
      }
      ValueOfMember(s[1..], p);
    }
  }

  lemma {:induction false} ValueOfAbsent(s: seq<(string, nat)>, k: string)
    requires !HasKey(s, k)
    ensures ValueOf(s, k) == 0
  {
    if |s| > 0 {
      assert s[0] in s;
      assert forall p :: p in s[1..] ==> p in s;
      ValueOfAbsent(s[1..], k);
    }
  }

  /** Filtering a tally keeps its labels unique. */
  lemma {:induction false} FilterNoDupKeys(s: seq<(string, nat)>, keep: ((string, nat)) -> bool)
    requires NoDupKeys(s)
    ensures NoDupKeys(Seqs.Filter(s, keep))
  {
    if |s| > 0 {
      FilterNoDupKeys(s[1..], keep);
      var rest := Seqs.Filter(s[1..], keep);
      if keep(s[0]) {
        Seqs.FilterMembership(s[1..], keep);
        forall j | 0 <= j < |rest|
          ensures rest[j].0 != s[0].0
        {
          assert rest[j] in rest;
          var i :| 0 <= i < |s[1..]| && s[1..][i] == rest[j];
          assert s[i + 1] == rest[j];
        }
        assert Seqs.Filter(s, keep) == [s[0]] + rest;
      }
    }
  }

  /** Filtering a tally never adds to its total. */
  lemma {:induction false} FilterSumBound(s: seq<(string, nat)>, keep: ((string, nat)) -> bool)
    ensures SumValues(Seqs.Filter(s, keep)) <= SumValues(s)
  {
    if |s| > 0 {
      FilterSumBound(s[1..], keep);
      var rest := Seqs.Filter(s[1..], keep);
      if keep(s[0]) {
        assert Seqs.Filter(s, keep) == [s[0]] + rest;
        assert ([s[0]] + rest)[1..] == rest;
      } else {
        assert Seqs.Filter(s, keep) == rest;
      }
    }
  }
}
