/** Min-max normalisation of a numeric column, `(v - min) / (max - min)`,
    in exact real arithmetic (Dashboard/app.py:115-118). */
module MinMax {
  import opened Wrappers

  datatype NormError = DegenerateRange

  function MinOf(vs: seq<real>): (m: real)
    requires |vs| > 0
    ensures m in vs
    ensures forall i :: 0 <= i < |vs| ==> m <= vs[i]
  {
    if |vs| == 1 then vs[0]
    else
      var rest := MinOf(vs[1..]);
      assert forall i :: 1 <= i < |vs| ==> vs[i] == vs[1..][i - 1];
      if vs[0] <= rest then vs[0] else rest
  }

  function MaxOf(vs: seq<real>): (m: real)
    requires |vs| > 0
    ensures m in vs
    ensures forall i :: 0 <= i < |vs| ==> vs[i] <= m
  {
    if |vs| == 1 then vs[0]
    else
      var rest := MaxOf(vs[1..]);
      assert forall i :: 1 <= i < |vs| ==> vs[i] == vs[1..][i - 1];
      if rest <= vs[0] then vs[0] else rest
  }

  function Scale(v: real, lo: real, hi: real): real
    requires lo < hi
  {
    (v - lo) / (hi - lo)
  }

  lemma DivSelf(d: real)
    requires d > 0.0
    ensures d / d == 1.0
  {
  }

  /** Maps a scaled value back onto the original range. */
  function Unscale(x: real, lo: real, hi: real): real {
    x * (hi - lo) + lo
  }

  lemma ScaleInverse(v: real, lo: real, hi: real)
    requires lo < hi
    ensures Unscale(Scale(v, lo, hi), lo, hi) == v
  {
  }

  lemma ScaleEnds(lo: real, hi: real)
    requires lo < hi
    ensures Scale(lo, lo, hi) == 0.0
    ensures Scale(hi, lo, hi) == 1.0
  {
    assert Scale(hi, lo, hi) == (hi - lo) / (hi - lo);
    DivSelf(hi - lo);
  }

  lemma ScaleBounds(v: real, lo: real, hi: real)
    requires lo <= v <= hi && lo < hi
    ensures 0.0 <= Scale(v, lo, hi) <= 1.0
  {
    ScaleInverse(v, lo, hi);
  }

  lemma ScaleMonotone(a: real, b: real, lo: real, hi: real)
    requires lo < hi
    ensures a <= b <==> Scale(a, lo, hi) <= Scale(b, lo, hi)
  {
    var d := hi - lo;
    ScaleInverse(a, lo, hi);
    ScaleInverse(b, lo, hi);
    var sa, sb := Scale(a, lo, hi), Scale(b, lo, hi);
    assert (sb - sa) * d == b - a;
    if sa <= sb {
      assert (sb - sa) * d >= 0.0;
    } else {
      assert (sa - sb) * d > 0.0;
    }
  }

  function Normalize(vs: seq<real>): (r: Result<seq<real>, NormError>)
    ensures r.Err? <==> |vs| > 0 && MinOf(vs) == MaxOf(vs)
    ensures r.Ok? ==> |r.value| == |vs|
    ensures r.Ok? ==> forall i :: 0 <= i < |vs| ==> 0.0 <= r.value[i] <= 1.0
  {
    if |vs| == 0 then Ok([])
    else
      var lo, hi := MinOf(vs), MaxOf(vs);
      if lo == hi then Err(DegenerateRange)
      else
        assert forall i :: 0 <= i < |vs| ==> 0.0 <= Scale(vs[i], lo, hi) <= 1.0 by {
          forall i | 0 <= i < |vs| {
            ScaleBounds(vs[i], lo, hi);
          }
        }
        Ok(seq(|vs|, i requires 0 <= i < |vs| => Scale(vs[i], lo, hi)))
  }

  lemma NormalizeAt(vs: seq<real>, i: int)
    requires Normalize(vs).Ok? && 0 <= i < |vs|
    ensures MinOf(vs) < MaxOf(vs)
    ensures Normalize(vs).value[i] == Scale(vs[i], MinOf(vs), MaxOf(vs))
  {
  }

  /** Per position: the scaled value lies in [0, 1], is 0 at the minimum and
      1 at the maximum, and maps back to the input. */
  lemma NormalizePoint(vs: seq<real>, i: int)
    requires Normalize(vs).Ok? && 0 <= i < |vs|
    ensures Unscale(Normalize(vs).value[i], MinOf(vs), MaxOf(vs)) == vs[i]
    ensures vs[i] == MinOf(vs) ==> Normalize(vs).value[i] == 0.0
    ensures vs[i] == MaxOf(vs) ==> Normalize(vs).value[i] == 1.0
  {
    NormalizeAt(vs, i);
    ScaleInverse(vs[i], MinOf(vs), MaxOf(vs));
    ScaleEnds(MinOf(vs), MaxOf(vs));
  }

  lemma NormalizeEnds(vs: seq<real>)
    requires Normalize(vs).Ok? && |vs| > 0
    ensures forall i :: 0 <= i < |vs| && vs[i] == MinOf(vs) ==> Normalize(vs).value[i] == 0.0
    ensures forall i :: 0 <= i < |vs| && vs[i] == MaxOf(vs) ==> Normalize(vs).value[i] == 1.0
  {
    forall i | 0 <= i < |vs| {
      NormalizePoint(vs, i);
    }
  }

  lemma NormalizeInverse(vs: seq<real>)
    requires Normalize(vs).Ok? && |vs| > 0
    ensures forall i :: 0 <= i < |vs| ==> Unscale(Normalize(vs).value[i], MinOf(vs), MaxOf(vs)) == vs[i]
  {
    forall i | 0 <= i < |vs| {
      NormalizePoint(vs, i);
    }
  }

  lemma NormalizeMonotone(vs: seq<real>)
    requires Normalize(vs).Ok?
    ensures forall i, j :: 0 <= i < |vs| && 0 <= j < |vs| ==>
              (vs[i] <= vs[j] <==> Normalize(vs).value[i] <= Normalize(vs).value[j])
  {
    forall i, j | 0 <= i < |vs| && 0 <= j < |vs|
      ensures vs[i] <= vs[j] <==> Normalize(vs).value[i] <= Normalize(vs).value[j]
    {
      NormalizeAt(vs, i);
      NormalizeAt(vs, j);
      ScaleMonotone(vs[i], vs[j], MinOf(vs), MaxOf(vs));
    }
  }
}
