/**
 * The sales ledger entry (sales/apps/sales/models.py, class SalesRecord): its
 * fields and validators, the product snapshot it captures on its first save,
 * and its string form. The aggregation queries of the same class are in
 * module SalesAggregation.
 */
module SalesRecords {
  import opened Wrappers
  import opened Text
  import opened Products
  import Decimals

  /** `total_sales_amount` is `DecimalField(max_digits=19, decimal_places=4)`: units of 0.0001. */
  const AmountPlaces: nat := 4

  /**
   * The JSON `product_snapshot`: `{}` by default, or the name, category and
   * price string of the product at the time of the first save.
   */
  datatype ProductSnapshot =
    | EmptySnapshot
    | Snapshot(name: string, category: string, price: string)

  /**
   * A stored record as a queryset reads it. `product` is the catalogue entry
   * the foreign key points at now (absent after the product was deleted,
   * `on_delete=SET_NULL`); `dateOfSale` is a UTC instant in microseconds.
   */
  datatype SaleRow = SaleRow(
    uuid: string,
    product: Option<Product>,
    snapshot: ProductSnapshot,
    quantitySold: int,
    totalSalesAmount: int,
    dateOfSale: int)

  /** `ProductSnapshot(name=…, category=…, price=str(product.price))`. */
  function CaptureSnapshot(p: Product): (s: ProductSnapshot)
    ensures s.Snapshot? && s.name == p.name && s.category == p.category
    ensures Decimals.ParseFixed(s.price, PricePlaces)
         == Some((p.price < 0, if p.price < 0 then -p.price else p.price))
  {
    PriceStringRoundTrip(p);
    Snapshot(p.name, p.category, PriceString(p))
  }

  /** `not self.pk and self.product`: no primary key yet (None, or the falsy 0) and a product. */
  predicate CapturesOnSave(pk: Option<int>, product: Option<Product>)
  {
    (pk.None? || pk == Some(0)) && product.Some?
  }

  /** The largest value the `quantity_sold` column holds: Django's range for `PositiveIntegerField`. */
  const MaxQuantity: int := 2_147_483_647

  /**
   * The fields `full_clean()` rejects, in field order. `product` and
   * `product_snapshot` allow no blank value, so a record without a product
   * and the default `{}` snapshot are both reported. `quantity_sold` must
   * be at least 1 (`MinValueValidator(1)`) and within the column's range;
   * `total_sales_amount` must not be negative (`MinValueValidator(0)`) or
   * wider than the column.
   */
  function CleanErrors(r: SaleRow): (errors: seq<string>)
    ensures "product" in errors <==> r.product.None?
    ensures "product_snapshot" in errors <==> r.snapshot.EmptySnapshot?
    ensures "quantity_sold" in errors <==> r.quantitySold < 1 || r.quantitySold > MaxQuantity
    ensures "total_sales_amount" in errors <==> r.totalSalesAmount < 0 || !FitsDecimalField(r.totalSalesAmount)
    ensures forall f :: f in errors ==> f in ["product", "product_snapshot", "quantity_sold", "total_sales_amount"]
  {
    (if r.product.None? then ["product"] else [])
    + (if r.snapshot.EmptySnapshot? then ["product_snapshot"] else [])
    + (if r.quantitySold < 1 || r.quantitySold > MaxQuantity then ["quantity_sold"] else [])
    + (if r.totalSalesAmount < 0 || !FitsDecimalField(r.totalSalesAmount) then ["total_sales_amount"] else [])
  }

  predicate ValidRow(r: SaleRow)
  {
    CleanErrors(r) == []
  }

  /**
   * A valid record has a product, a captured snapshot, between 1 and
   * 2^31 - 1 units sold and a non-negative amount that fits the column.
   */
  lemma ValidRowFields(r: SaleRow)
    ensures ValidRow(r) <==> r.product.Some? && r.snapshot.Snapshot?
                             && 1 <= r.quantitySold <= MaxQuantity && 0 <= r.totalSalesAmount < DigitsLimit
  {
    if !ValidRow(r) {
      var e := CleanErrors(r);
      assert e[0] in e;
    }
  }

  /** Python's `str(n)` for any integer. */
  function IntToString(n: int): (s: string)
    ensures |s| >= 1
  {
    if n < 0 then "-" + NatToString(-n) else NatToString(n)
  }

  /** A model instance in memory: the ORM object whose `save()` and `delete()` change its fields. */
  class SalesRecord {
    var pk: Option<int>
    const uuid: string
    var product: Option<Product>
    var productSnapshot: ProductSnapshot
    var quantitySold: int
    var totalSalesAmount: int
    var dateOfSale: int

    /** `SalesRecord(product=…, quantity_sold=…, …)`: unsaved, with the default empty snapshot. */
    constructor (uuid: string, product: Option<Product>, quantitySold: int, totalSalesAmount: int, dateOfSale: int)
      ensures pk == None && productSnapshot == EmptySnapshot
      ensures this.uuid == uuid && this.product == product && this.quantitySold == quantitySold
      ensures this.totalSalesAmount == totalSalesAmount && this.dateOfSale == dateOfSale
    {
      this.pk := None;
      this.uuid := uuid;
      this.product := product;
      this.productSnapshot := EmptySnapshot;
      this.quantitySold := quantitySold;
      this.totalSalesAmount := totalSalesAmount;
      this.dateOfSale := dateOfSale;
    }

    /** The row this instance stores. */
    function Row(): SaleRow
      reads this
    {
      SaleRow(uuid, product, productSnapshot, quantitySold, totalSalesAmount, dateOfSale)
    }

    /**
     * `save()`: on the first save of a record with a product, the snapshot
     * becomes a copy of that product; otherwise it stays as it was. An
     * insert takes the primary key the database assigns; an instance that
     * has one keeps it.
     */
    method Save(assignedPk: int)
      modifies this
      ensures productSnapshot == if CapturesOnSave(old(pk), old(product))
                                 then CaptureSnapshot(old(product).value)
                                 else old(productSnapshot)
      ensures pk == if old(pk).None? then Some(assignedPk) else old(pk)
      ensures product == old(product) && quantitySold == old(quantitySold)
      ensures totalSalesAmount == old(totalSalesAmount) && dateOfSale == old(dateOfSale)
    {
      if CapturesOnSave(pk, product) {
        productSnapshot := CaptureSnapshot(product.value);
      }
      if pk.None? {
        pk := Some(assignedPk);
      }
    }

    /**
     * `delete()`: removes the row and clears the primary key of the instance;
     * an instance without a key cannot be deleted (`ValueError`).
     */
    method Delete() returns (deleted: bool)
      modifies this
      ensures deleted <==> old(pk).Some?
      ensures pk == None
      ensures Row() == old(Row())
    {
      deleted := pk.Some?;
      pk := None;
    }

    /**
     * `__str__`: the product's name, a space and the id (`None` before the
     * first save); with the product gone, `self.product.name` raises
     * `AttributeError`, modelled as None.
     */
    function Str(): (s: Option<string>)
      reads this
      ensures s.None? <==> product.None?
      ensures s.Some? ==> |s.value| >= |product.value.name| + 2
                          && s.value[..|product.value.name|] == product.value.name
                          && s.value[|product.value.name|] == ' '
      ensures s.Some? && pk.None? ==> |s.value| == |product.value.name| + 5
                                      && s.value[|product.value.name| + 1..] == "None"
      ensures s.Some? && pk.Some? ==> s.value[|product.value.name| + 1..] == IntToString(pk.value)
    {
      match product
      case None => None
      case Some(p) =>
        Some(p.name + " " + (match pk case None => "None" case Some(n) => IntToString(n)))
    }
  }

  /**
   * First save captures the product; changing the product afterwards and
   * saving again leaves the snapshot as captured (the database's automatic
   * keys start at 1, so the saved instance's key is never the falsy 0).
   */
  method CreateThenResave(uuid: string, p: Product, renamed: Product, quantity: int, amount: int, when: int,
                          firstPk: int, laterPk: int)
    returns (r: SalesRecord)
    requires firstPk >= 1
    ensures fresh(r)
    ensures r.productSnapshot == CaptureSnapshot(p)
    ensures r.product == Some(renamed)
  {
    r := new SalesRecord(uuid, Some(p), quantity, amount, when);
    r.Save(firstPk);
    r.product := Some(renamed);
    r.Save(laterPk);
  }

  /** A record created without a product keeps the empty snapshot through every save. */
  method CreateWithoutProduct(uuid: string, quantity: int, amount: int, when: int, firstPk: int, laterPk: int)
    returns (r: SalesRecord)
    ensures fresh(r)
    ensures r.productSnapshot == EmptySnapshot
  {
    r := new SalesRecord(uuid, None, quantity, amount, when);
    r.Save(firstPk);
    r.Save(laterPk);
  }
}
