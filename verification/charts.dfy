/** The derived views the dashboard's charts consume, computed from the
    prepared product table (Dashboard/app.py:64-118). */
module Charts {
  import opened Wrappers
  import opened Table
  import opened Counts
  import opened Ranking
  import opened MinMax
  import Seqs

  // ---------------------------------------------------------------------
  // Chart 2: the ten most frequent brands

  /** How many brands the bar chart shows. */
  const TopN: nat := 10

  function Brands(ps: seq<Product>): (bs: seq<string>)
    ensures |bs| == |ps| && forall i :: 0 <= i < |ps| ==> bs[i] == ps[i].brand
  {
    seq(|ps|, i requires 0 <= i < |ps| => ps[i].brand)
  }

  /** `value_counts().nlargest(10).sort_values(ascending=True)` on the brand
      column: rows per brand (not quantity sold), ten largest, ascending. */
  function TopBrands(ps: seq<Product>): (r: seq<(string, nat)>)
    ensures |r| <= TopN
    ensures Ascending(r)
  {
    Largest(ValueCounts(Brands(ps)), TopN)
  }

  /** Each bar is a distinct brand carrying its exact number of rows. */
  lemma TopBrandsEntries(ps: seq<Product>)
    ensures NoDupKeys(TopBrands(ps))
    ensures forall p :: p in TopBrands(ps) ==>
              p.0 in Brands(ps) && p.1 == Count(Brands(ps), p.0)
  {
    LargestEntries(ValueCounts(Brands(ps)), TopN);
    ValueCountsEntries(Brands(ps));
  }

  /** Fewer than ten bars means every brand is shown, and no brand left out
      has more rows than any brand shown. */
  lemma TopBrandsSelection(ps: seq<Product>)
    ensures |TopBrands(ps)| == TopN || forall b :: b in Brands(ps) ==> HasKey(TopBrands(ps), b)
    ensures forall b, i :: b in Brands(ps) && !HasKey(TopBrands(ps), b) && 0 <= i < |TopBrands(ps)|
              ==> Count(Brands(ps), b) <= TopBrands(ps)[i].1
  {
    var bs := Brands(ps);
    var vc := ValueCounts(bs);
    var r := TopBrands(ps);
    LargestSelection(vc, TopN);
    ValueCountsEntries(bs);
    forall b | b in bs
      ensures (b, Count(bs, b)) in vc
    {
    }
  }

  // ---------------------------------------------------------------------
  // Charts 3 and 6: outlier filters

  /** Exclusive upper bound on quantity sold for the scatter and regression views. */
  const QuantityCap: int := 50000
  /** Exclusive upper bound on price for the scatter view. */
  const PriceCap: real := 1000.0

  predicate InScatterRange(p: Product) {
    p.quantity < QuantityCap && p.price < PriceCap
  }

  predicate InRegressionRange(p: Product) {
    p.quantity < QuantityCap
  }

  /** `df[(Qtd_Vendidos < 50000) & (Preço < 1000)]`. */
  function ScatterRows(ps: seq<Product>): (r: seq<Product>)
    ensures forall i :: 0 <= i < |r| ==> r[i].quantity < QuantityCap && r[i].price < PriceCap
  {
    Seqs.Filter(ps, InScatterRange)
  }

  /** `df[Qtd_Vendidos < 50000]`. */
  function RegressionRows(ps: seq<Product>): (r: seq<Product>)
    ensures forall i :: 0 <= i < |r| ==> r[i].quantity < QuantityCap
  {
    Seqs.Filter(ps, InRegressionRange)
  }

  /** The scatter view is the in-range rows of the table, in order, each as
      often as it occurs: nothing in range is dropped. */
  lemma ScatterRowsLaws(ps: seq<Product>)
    ensures Seqs.IsSubsequence(ScatterRows(ps), ps)
    ensures forall x :: x in ScatterRows(ps) <==> x in ps && x.quantity < QuantityCap && x.price < PriceCap
    ensures forall x :: multiset(ScatterRows(ps))[x] ==
              if InScatterRange(x) then multiset(ps)[x] else 0
  {
    Seqs.FilterIsSubsequence(ps, InScatterRange);
    Seqs.FilterMembership(ps, InScatterRange);
    Seqs.FilterMultiplicity(ps, InScatterRange);
  }

  /** The regression rows are the rows below the quantity cap, in order. */
  lemma RegressionRowsLaws(ps: seq<Product>)
    ensures Seqs.IsSubsequence(RegressionRows(ps), ps)
    ensures forall x :: x in RegressionRows(ps) <==> x in ps && x.quantity < QuantityCap
    ensures forall x :: multiset(RegressionRows(ps))[x] ==
              if InRegressionRange(x) then multiset(ps)[x] else 0
  {
    Seqs.FilterIsSubsequence(ps, InRegressionRange);
    Seqs.FilterMembership(ps, InRegressionRange);
    Seqs.FilterMultiplicity(ps, InRegressionRange);
  }

  // ---------------------------------------------------------------------
  // Chart 5: category shares with minor categories collapsed

  /** Label of the synthetic residual category. */
  const Other: string := "Outros"

  /** `count / total > 0.014`, in exact arithmetic. */
  predicate AboveShare(count: nat, total: nat) {
    count * 1000 > 14 * total
  }

  function Passes(total: nat): ((string, nat)) -> bool {
    (p: (string, nat)) => AboveShare(p.1, total)
  }

  /** The kept entries with 'Outros' set to the rows they do not cover,
      overwriting an entry already labelled 'Outros', then sorted ascending. */
  function WithResidual(kept: seq<(string, nat)>, total: nat): (r: seq<(string, nat)>)
    requires SumValues(kept) <= total
    ensures Ascending(r)
  {
    Sort(SetValue(kept, Other, total - SumValues(kept)))
  }

  lemma WithResidualEntries(kept: seq<(string, nat)>, total: nat)
    requires SumValues(kept) <= total && NoDupKeys(kept)
    ensures NoDupKeys(WithResidual(kept, total))
    ensures forall p: (string, nat) :: p.0 != Other ==> (p in WithResidual(kept, total) <==> p in kept)
    ensures (Other, total - SumValues(kept)) in WithResidual(kept, total)
  {
    var withOther := SetValue(kept, Other, total - SumValues(kept));
    SetValueOthers(kept, Other, total - SumValues(kept));
    SetValueNoDupKeys(kept, Other, total - SumValues(kept));
    SortMembers(withOther);
    SortNoDupKeys(withOther);
  }

  lemma WithResidualSum(kept: seq<(string, nat)>, total: nat)
    requires SumValues(kept) <= total
    ensures SumValues(WithResidual(kept, total)) + ValueOf(kept, Other) == total
  {
    SetValueSum(kept, Other, total - SumValues(kept));
    SortSum(SetValue(kept, Other, total - SumValues(kept)));
  }

  /** The categories whose share is above the threshold, with their counts,
      in first-appearance order. */
  function Kept(labels: seq<string>): (kept: seq<(string, nat)>)
    ensures NoDupKeys(kept)
    ensures SumValues(kept) <= |labels|
  {
    var vc := ValueCounts(labels);
    ValueCountsTotal(labels);
    FilterSumBound(vc, Passes(|labels|));
    FilterNoDupKeys(vc, Passes(|labels|));
    Seqs.Filter(vc, Passes(|labels|))
  }

  /** An entry is kept exactly when it is a category of the data, with its
      count, whose share is above the threshold. */
  lemma KeptEntries(labels: seq<string>)
    ensures forall p: (string, nat) :: p in Kept(labels) <==>
              p.0 in labels && p.1 == Count(labels, p.0) && AboveShare(p.1, |labels|)
  {
    var vc := ValueCounts(labels);
    ValueCountsEntries(labels);
    Seqs.FilterMembership(vc, Passes(|labels|));
  }

  /** The pie's input (`value_counts`, share filter, `s['Outros'] = total -
      kept sum` overwriting a kept 'Outros' in place, ascending sort). */
  function CollapseMinor(labels: seq<string>): (r: seq<(string, nat)>)
    ensures Ascending(r)
  {
    WithResidual(Kept(labels), |labels|)
  }

  /** A category other than 'Outros' appears iff its share is above the
      threshold, and then with its exact count; labels are unique. */
  lemma CollapseMinorCategories(labels: seq<string>)
    ensures NoDupKeys(CollapseMinor(labels))
    ensures forall c :: c != Other ==>
              (HasKey(CollapseMinor(labels), c) <==> AboveShare(Count(labels, c), |labels|))
    ensures forall p :: p in CollapseMinor(labels) && p.0 != Other ==> p.1 == Count(labels, p.0)
  {
    var kept := Kept(labels);
    KeptEntries(labels);
    WithResidualEntries(kept, |labels|);
    var r := CollapseMinor(labels);
    forall c | c != Other
      ensures HasKey(r, c) <==> AboveShare(Count(labels, c), |labels|)
    {
      if AboveShare(Count(labels, c), |labels|) {
        assert Count(labels, c) > 0;
        assert (c, Count(labels, c)) in kept;
        assert (c, Count(labels, c)) in r;
      }
    }
  }

  /** 'Outros' is always present and is the residual: together with the kept
      categories it makes up every row. */
  lemma CollapseMinorResidual(labels: seq<string>)
    ensures (Other, |labels| - SumValues(Kept(labels))) in CollapseMinor(labels)
    ensures ValueOf(CollapseMinor(labels), Other) + SumValues(Kept(labels)) == |labels|
  {
    var kept := Kept(labels);
    WithResidualEntries(kept, |labels|);
    ValueOfMember(CollapseMinor(labels), (Other, |labels| - SumValues(kept)));
  }

  /** What the kept tally records under 'Outros': the rows of a category
      already named so when it passes the threshold, and nothing otherwise. */
  lemma KeptOther(labels: seq<string>)
    ensures ValueOf(Kept(labels), Other) ==
              if AboveShare(Count(labels, Other), |labels|) then Count(labels, Other) else 0
  {
    var kept := Kept(labels);
    KeptEntries(labels);
    if AboveShare(Count(labels, Other), |labels|) {
      assert (Other, Count(labels, Other)) in kept;
      ValueOfMember(kept, (Other, Count(labels, Other)));
    } else {
      assert !HasKey(kept, Other);
      ValueOfAbsent(kept, Other);
    }
  }

  /** The slices add up to the row count, except that a category already
      named 'Outros' that passes the threshold is overwritten and its rows lost. */
  lemma CollapseMinorTotal(labels: seq<string>)
    ensures SumValues(CollapseMinor(labels)) ==
              if AboveShare(Count(labels, Other), |labels|) then |labels| - Count(labels, Other)
              else |labels|
  {
    WithResidualSum(Kept(labels), |labels|);
    KeptOther(labels);
  }

  /** With no category named 'Outros' in the data, the pie accounts for every row. */
  lemma CollapseMinorPreservesTotal(labels: seq<string>)
    requires Other !in labels
    ensures SumValues(CollapseMinor(labels)) == |labels|
  {
    CollapseMinorTotal(labels);
  }

  /** With nothing kept, 'Outros' is the whole pie. */
  lemma WithResidualNoneKept(total: nat)
    ensures WithResidual([], total) == [(Other, total)]
  {
    assert SetValue([], Other, total) == [(Other, total)];
    assert Sort([(Other, total)]) == Insert((Other, total), Sort([]));
  }

  /** When no category passes the threshold, 'Outros' alone holds every row. */
  lemma CollapseMinorAllMinor(labels: seq<string>)
    requires forall c :: c in labels ==> !AboveShare(Count(labels, c), |labels|)
    ensures CollapseMinor(labels) == [(Other, |labels|)]
  {
    var vc := ValueCounts(labels);
    ValueCountsEntries(labels);
    assert forall i :: 0 <= i < |vc| ==> vc[i] in vc;
    Seqs.FilterDropsAll(vc, Passes(|labels|));
    WithResidualNoneKept(|labels|);
  }

  /** The overwrite in action: one 'Outros' row and one 'Feminino' row give a
      pie whose slices sum to 1, not 2. */
  lemma CollapseMinorOverwriteExample()
    ensures SumValues(CollapseMinor(["Outros", "Feminino"])) == 1
  {
    var labels := ["Outros", "Feminino"];
    assert Count(labels, Other) == 1;
    CollapseMinorTotal(labels);
  }

  /** Worked case on a tally: of 100 rows, two categories with one row each
      fall under 1.4% and become 'Outros'; the third is kept. */
  lemma WithResidualScenario()
    ensures var t := [("A", 1), ("B", 1), ("C", 98)];
            SumValues(Seqs.Filter(t, Passes(100))) <= 100 &&
            WithResidual(Seqs.Filter(t, Passes(100)), 100) == [(Other, 2), ("C", 98)]
  {
    var t: seq<(string, nat)> := [("A", 1), ("B", 1), ("C", 98)];
    assert Seqs.Filter(t, Passes(100)) == [("C", 98)];
    assert SetValue([("C", 98)], Other, 2) == [("C", 98), (Other, 2)];
    assert Sort([(Other, 2)]) == [(Other, 2)];
  }

  function Genders(ps: seq<Product>): (gs: seq<string>)
    ensures |gs| == |ps| && forall i :: 0 <= i < |ps| ==> gs[i] == ps[i].gender
  {
    seq(|ps|, i requires 0 <= i < |ps| => ps[i].gender)
  }

  /** The gender pie of the prepared table. */
  function GenderPie(ps: seq<Product>): (r: seq<(string, nat)>)
    ensures Ascending(r)
  {
    CollapseMinor(Genders(ps))
  }

  /** Chart 5 on the table: a gender other than 'Outros' has a slice iff
      more than 1.4% of the products carry it, and then its slice is its
      number of products; 'Outros' holds the products of the other genders. */
  lemma GenderPieSlices(ps: seq<Product>)
    ensures NoDupKeys(GenderPie(ps))
    ensures forall g :: g != Other ==>
              (HasKey(GenderPie(ps), g) <==> AboveShare(Count(Genders(ps), g), |ps|))
    ensures forall p :: p in GenderPie(ps) && p.0 != Other ==> p.1 == Count(Genders(ps), p.0)
    ensures ValueOf(GenderPie(ps), Other) + SumValues(Kept(Genders(ps))) == |ps|
  {
    CollapseMinorCategories(Genders(ps));
    CollapseMinorResidual(Genders(ps));
  }

  // ---------------------------------------------------------------------
  // Chart 6: normalised regression points

  function Ratings(rows: seq<Product>): (xs: seq<real>)
    ensures |xs| == |rows| && forall i :: 0 <= i < |rows| ==> xs[i] == rows[i].rating
  {
    seq(|rows|, i requires 0 <= i < |rows| => rows[i].rating)
  }

  function Quantities(rows: seq<Product>): (ys: seq<real>)
    ensures |ys| == |rows| && forall i :: 0 <= i < |rows| ==> ys[i] == rows[i].quantity as real
  {
    seq(|rows|, i requires 0 <= i < |rows| => rows[i].quantity as real)
  }

  /** (normalised rating, normalised quantity) for each row below the
      quantity cap, in row order; a constant column has no normalisation. */
  function RegressionPoints(ps: seq<Product>): (r: Result<seq<(real, real)>, NormError>)
    ensures r.Ok? ==> |r.value| == |RegressionRows(ps)|
    ensures r.Ok? ==> forall i :: 0 <= i < |r.value| ==>
              0.0 <= r.value[i].0 <= 1.0 && 0.0 <= r.value[i].1 <= 1.0
  {
    var rows := RegressionRows(ps);
    match Normalize(Ratings(rows))
    case Err(e) => Err(e)
    case Ok(xs) =>
      match Normalize(Quantities(rows))
      case Err(e) => Err(e)
      case Ok(ys) => Ok(seq(|rows|, i requires 0 <= i < |rows| => (xs[i], ys[i])))
  }

  /** The points fail only when a column is constant, and otherwise map back
      to each row's rating and quantity through the column's range. */
  lemma RegressionPointsLaws(ps: seq<Product>)
    ensures var rows := RegressionRows(ps);
            RegressionPoints(ps).Err? <==>
              |rows| > 0 && (MinOf(Ratings(rows)) == MaxOf(Ratings(rows)) ||
                             MinOf(Quantities(rows)) == MaxOf(Quantities(rows)))
    ensures var rows := RegressionRows(ps);
            RegressionPoints(ps).Ok? && |rows| > 0 ==> forall i :: 0 <= i < |rows| ==>
              && Unscale(RegressionPoints(ps).value[i].0, MinOf(Ratings(rows)), MaxOf(Ratings(rows))) == rows[i].rating
              && Unscale(RegressionPoints(ps).value[i].1, MinOf(Quantities(rows)), MaxOf(Quantities(rows))) == rows[i].quantity as real
  {
    var rows := RegressionRows(ps);
    if RegressionPoints(ps).Ok? && |rows| > 0 {
      NormalizeInverse(Ratings(rows));
      NormalizeInverse(Quantities(rows));
    }
  }
}
