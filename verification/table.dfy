/** The product table and its preparation: the sales-bucket repair of the
    Qtd_Vendidos column followed by `dropna` (Dashboard/app.py:28-42). */
module Table {
  import opened Wrappers
  import opened NumericText
  import Seqs

  /** One CSV row as loaded. Every cell may be missing (pandas' NaN);
      `quantity` is still text, `others` are the dataset's remaining columns,
      which `dropna` inspects as well. */
  datatype RawRow = RawRow(
    rating: Option<real>,        // Nota
    reviews: Option<int>,        // N_Avaliações
    discount: Option<real>,      // Desconto
    price: Option<real>,         // Preço
    quantity: Option<string>,    // Qtd_Vendidos, bucket token or integer text
    brand: Option<string>,       // Marca
    gender: Option<string>,      // Gênero
    others: seq<Option<string>>)

  /** A row after the quantity column has been cast to int. */
  datatype Row = Row(
    rating: Option<real>,
    reviews: Option<int>,
    discount: Option<real>,
    price: Option<real>,
    quantity: int,
    brand: Option<string>,
    gender: Option<string>,
    others: seq<Option<string>>)

  /** A row with no missing cell, as the charts consume it. */
  datatype Product = Product(
    rating: real,
    reviews: int,
    discount: real,
    price: real,
    quantity: int,
    brand: string,
    gender: string)

  /** The fixed sales-bucket vocabulary and the integer each token stands for. */
  const Buckets: map<string, int> := map[
    "+10mil" := 10000,
    "+50mil" := 50000,
    "+1000" := 1000,
    "+100" := 100,
    "+50" := 50,
    "+5" := 5,
    "+25" := 25
  ]

  /** Range of the int64 column `astype(int)` produces. */
  const Int64Min: int := -0x8000_0000_0000_0000
  const Int64Max: int := 0x7FFF_FFFF_FFFF_FFFF

  predicate InInt64(n: int) {
    Int64Min <= n <= Int64Max
  }

  /** Why one quantity cell cannot be cast to int. */
  datatype CellError =
    | MissingCell              // NaN cannot be converted to an integer
    | NotAnInteger(text: string) // neither a bucket token nor integer text
    | Overflow(value: int)     // integer text outside int64

  /** The first row whose quantity cell could not be cast; the cast aborts
      the whole preparation. */
  datatype RepairError = BadQuantity(row: nat, cause: CellError)

  /** One quantity cell after whole-cell token replacement and the int cast. */
  function DecodeCell(c: Option<string>): (r: Result<int, CellError>)
    ensures r.Ok? ==> InInt64(r.value)
    ensures r.Ok? ==> c.Some? && (c.value in Buckets || IsIntegerText(c.value))
    ensures c.None? ==> r == Err(MissingCell)
  {
    match c
    case None => Err(MissingCell)
    case Some(s) =>
      if s in Buckets then Ok(Buckets[s])
      else match ParseInt(s)
        case None => Err(NotAnInteger(s))
        case Some(n) => if InInt64(n) then Ok(n) else Err(Overflow(n))
  }

  /** Each of the seven tokens decodes to exactly its documented magnitude. */
  lemma BucketTokensDecode()
    ensures DecodeCell(Some("+10mil")) == Ok(10000)
    ensures DecodeCell(Some("+50mil")) == Ok(50000)
    ensures DecodeCell(Some("+1000")) == Ok(1000)
    ensures DecodeCell(Some("+100")) == Ok(100)
    ensures DecodeCell(Some("+50")) == Ok(50)
    ensures DecodeCell(Some("+5")) == Ok(5)
    ensures DecodeCell(Some("+25")) == Ok(25)
  {
  }

  /** Integer text decodes to the integer it denotes: the canonical text of
      every int64 value reads back as that value. */
  lemma DecodeIntegerText(n: int)
    requires InInt64(n)
    ensures DecodeCell(Some(ShowInt(n))) == Ok(n)
  {
    ParseShowRoundTrip(n);
  }

  /** Integer text outside the int64 range cannot be cast. */
  lemma DecodeOverflow(n: int)
    requires !InInt64(n)
    ensures DecodeCell(Some(ShowInt(n))) == Err(Overflow(n))
  {
    ParseShowRoundTrip(n);
  }

  /** Text that is neither a token nor integer text is an error, never a
      value (in particular never 0); so is a missing cell. */
  lemma UnknownTextRejected(c: Option<string>)
    requires c.None? || (c.value !in Buckets && !IsIntegerText(c.value))
    ensures DecodeCell(c).Err?
    ensures forall n :: DecodeCell(c) != Ok(n)
  {
  }

  /** Replaces the quantity text of a row by its decoded integer. */
  function WithQuantity(r: RawRow, q: int): Row {
    Row(r.rating, r.reviews, r.discount, r.price, q, r.brand, r.gender, r.others)
  }

  /** The column-wide cast: succeeds iff every cell decodes, and then keeps
      every row in place; otherwise reports the first offending row. */
  function RepairQuantities(rows: seq<RawRow>): (r: Result<seq<Row>, RepairError>)
    ensures r.Ok? <==> forall i :: 0 <= i < |rows| ==> DecodeCell(rows[i].quantity).Ok?
    ensures r.Ok? ==> |r.value| == |rows|
    ensures r.Ok? ==> forall i :: 0 <= i < |rows| ==>
              r.value[i] == WithQuantity(rows[i], DecodeCell(rows[i].quantity).value)
    ensures r.Err? ==> r.error.row < |rows|
    ensures r.Err? ==> DecodeCell(rows[r.error.row].quantity) == Err(r.error.cause)
    ensures r.Err? ==> forall i :: 0 <= i < r.error.row ==> DecodeCell(rows[i].quantity).Ok?
  {
    if |rows| == 0 then Ok([])
    else
      match DecodeCell(rows[0].quantity)
      case Err(e) => Err(BadQuantity(0, e))
      case Ok(q) =>
        match RepairQuantities(rows[1..])
        case Err(BadQuantity(k, e)) => Err(BadQuantity(k + 1, e))
        case Ok(rest) => Ok([WithQuantity(rows[0], q)] + rest)
  }

  /** No cell of the row is missing. */
  predicate Complete(r: Row) {
    && r.rating.Some? && r.reviews.Some? && r.discount.Some? && r.price.Some?
    && r.brand.Some? && r.gender.Some?
    && forall j :: 0 <= j < |r.others| ==> r.others[j].Some?
  }

  /** `dropna`: the complete rows, in their original order. */
  function DropIncomplete(rows: seq<Row>): (r: seq<Row>)
    ensures forall i :: 0 <= i < |r| ==> Complete(r[i])
  {
    Seqs.Filter(rows, Complete)
  }

  /** Row removal keeps exactly the complete rows, each as often as it
      occurred, in order; a second pass changes nothing. */
  lemma DropIncompleteLaws(rows: seq<Row>)
    ensures Seqs.IsSubsequence(DropIncomplete(rows), rows)
    ensures forall x :: multiset(DropIncomplete(rows))[x] ==
              if Complete(x) then multiset(rows)[x] else 0
    ensures forall x :: x in DropIncomplete(rows) <==> x in rows && Complete(x)
    ensures DropIncomplete(DropIncomplete(rows)) == DropIncomplete(rows)
  {
    Seqs.FilterIsSubsequence(rows, Complete);
    Seqs.FilterMembership(rows, Complete);
    Seqs.FilterMultiplicity(rows, Complete);
    Seqs.FilterIdempotent(rows, Complete);
  }

  function ToProduct(r: Row): Product
    requires Complete(r)
  {
    Product(r.rating.value, r.reviews.value, r.discount.value, r.price.value,
            r.quantity, r.brand.value, r.gender.value)
  }

  /** Quantity repair, then row removal, then the typed table the charts read.
      Repair comes first, so a missing quantity aborts instead of dropping. */
  function Prepare(raw: seq<RawRow>): (r: Result<seq<Product>, RepairError>)
    ensures r.Ok? <==> forall i :: 0 <= i < |raw| ==> DecodeCell(raw[i].quantity).Ok?
    ensures r.Ok? ==> |r.value| <= |raw|
    ensures r.Ok? ==> forall i :: 0 <= i < |r.value| ==> InInt64(r.value[i].quantity)
  {
    match RepairQuantities(raw)
    case Err(e) => Err(e)
    case Ok(rows) =>
      var kept := DropIncomplete(rows);
      Seqs.FilterMembership(rows, Complete);
      Ok(seq(|kept|, i requires 0 <= i < |kept| => ToProduct(kept[i])))
  }

  /** Raw row `i` with its quantity decoded. */
  function Repaired(raw: seq<RawRow>, i: int): Row
    requires 0 <= i < |raw| && DecodeCell(raw[i].quantity).Ok?
  {
    WithQuantity(raw[i], DecodeCell(raw[i].quantity).value)
  }

  /** The prepared table holds exactly the raw rows that have no missing
      cell, each with its decoded quantity. */
  lemma PrepareRows(raw: seq<RawRow>)
    requires Prepare(raw).Ok?
    ensures forall i :: 0 <= i < |raw| && Complete(Repaired(raw, i)) ==>
              ToProduct(Repaired(raw, i)) in Prepare(raw).value
    ensures forall p :: p in Prepare(raw).value ==>
              exists i :: 0 <= i < |raw| && Complete(Repaired(raw, i)) && ToProduct(Repaired(raw, i)) == p
  {
    var rows := RepairQuantities(raw).value;
    var kept := DropIncomplete(rows);
    var ps := Prepare(raw).value;
    Seqs.FilterMembership(rows, Complete);
    assert |ps| == |kept| && forall j :: 0 <= j < |kept| ==> ps[j] == ToProduct(kept[j]);
    forall i | 0 <= i < |raw| && Complete(Repaired(raw, i))
      ensures ToProduct(Repaired(raw, i)) in ps
    {
      assert rows[i] == Repaired(raw, i);
      assert rows[i] in kept;
      var j :| 0 <= j < |kept| && kept[j] == rows[i];
      assert ps[j] == ToProduct(rows[i]);
    }
    forall p | p in ps
      ensures exists i :: 0 <= i < |raw| && Complete(Repaired(raw, i)) && ToProduct(Repaired(raw, i)) == p
    {
      var j :| 0 <= j < |ps| && ps[j] == p;
      assert kept[j] in rows;
      var i :| 0 <= i < |rows| && rows[i] == kept[j];
      assert rows[i] == Repaired(raw, i);
    }
  }

  /** No cell of the raw row is missing apart from, possibly, its quantity:
      the rows `dropna` keeps once the quantity has been cast. */
  predicate Usable(r: RawRow) {
    && r.rating.Some? && r.reviews.Some? && r.discount.Some? && r.price.Some?
    && r.brand.Some? && r.gender.Some?
    && forall j :: 0 <= j < |r.others| ==> r.others[j].Some?
  }

  /** Order and multiplicity: the j-th product is the j-th usable raw row,
      so each such row appears once, in file order (with the laws of
      `Seqs.Positions`: exactly the usable indices, increasing). */
  lemma PrepareOrder(raw: seq<RawRow>)
    requires Prepare(raw).Ok?
    ensures |Prepare(raw).value| == |Seqs.Positions(raw, Usable)|
    ensures forall j :: 0 <= j < |Prepare(raw).value| ==>
              var i := Seqs.Positions(raw, Usable)[j];
              Usable(raw[i]) && Prepare(raw).value[j] == ToProduct(Repaired(raw, i))
  {
    var rows := RepairQuantities(raw).value;
    var kept := DropIncomplete(rows);
    var ps := Prepare(raw).value;
    assert |ps| == |kept| && forall j :: 0 <= j < |kept| ==> ps[j] == ToProduct(kept[j]);
    assert forall i :: 0 <= i < |raw| ==> rows[i] == Repaired(raw, i);
    Seqs.FilterAtPositions(rows, Complete);
    Seqs.PositionsAccepted(raw, Usable);
    Seqs.PositionsAgree(rows, Complete, raw, Usable);
  }

  /** A missing quantity cell is fatal rather than a dropped row. */
  lemma MissingQuantityIsFatal(raw: seq<RawRow>, k: nat)
    requires k < |raw| && raw[k].quantity.None?
    ensures Prepare(raw).Err?
  {
    assert !DecodeCell(raw[k].quantity).Ok?;
  }

  /** A complete raw row with the given rating and quantity text. */
  function SampleRow(rating: real, quantity: string): RawRow {
    RawRow(Some(rating), Some(10), Some(0.1), Some(99.9), Some(quantity),
           Some("Marca"), Some("Feminino"), [])
  }

  /** Worked scenario: a token and plain integer text both decode, and no
      complete row is dropped. */
  lemma PrepareScenario()
    ensures var r := Prepare([SampleRow(4.5, "+100"), SampleRow(3.0, "50")]);
            r.Ok? && |r.value| == 2 && r.value[0].quantity == 100 && r.value[1].quantity == 50
  {
    var raw := [SampleRow(4.5, "+100"), SampleRow(3.0, "50")];
    assert DecodeCell(raw[0].quantity) == Ok(100);
    assert "50"[..1] == "5";
    assert DigitsValue("50") == 50;
    assert DecodeCell(raw[1].quantity) == Ok(50);
    var rows := RepairQuantities(raw).value;
    assert Complete(rows[0]) && Complete(rows[1]);
    Seqs.FilterKeepsAll(rows, Complete);
  }
}
