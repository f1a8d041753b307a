/**
 * The JSON shapes of the two list endpoints (sales/apps/sales/api/serializers.py):
 * a sales record with its current product, and an aggregation row whose
 * group is 'YYYY-MM' or a category label and whose amounts are decimals with
 * two places.
 */
module SalesSerializers {
  import opened Wrappers
  import opened Text
  import opened Calendar
  import opened Decimals
  import opened Products
  import opened SalesRecords
  import opened SalesAggregation

  // ---------------------------------------------------------------------------
  // Groups

  /** `strftime('%Y-%m')`: the year on four digits, '-', the month on two. */
  function FormatYearMonth(ym: YearMonth): (s: string)
    requires ValidYearMonth(ym)
    ensures |s| == 7 && s[4] == '-'
  {
    NatToStringLength(ym.year, 4);
    NatToStringLength(ym.month, 2);
    PadLeft(NatToString(ym.year), 4) + "-" + PadLeft(NatToString(ym.month), 2)
  }

  /** Reads 'YYYY-MM' back; anything else, or a month outside 1 to 12, is None. */
  function ParseYearMonth(s: string): (r: Option<YearMonth>)
    ensures r.Some? ==> ValidYearMonth(r.value)
  {
    if |s| == 7 && s[4] == '-' && AllDigits(s[..4]) && AllDigits(s[5..]) then
      var ym := YearMonth(ParseDigits(s[..4]), ParseDigits(s[5..]));
      if ValidYearMonth(ym) then Some(ym) else None
    else None
  }

  /** Formatting a month loses nothing: it reads back as the same month. */
  lemma FormatParseYearMonth(ym: YearMonth)
    requires ValidYearMonth(ym)
    ensures ParseYearMonth(FormatYearMonth(ym)) == Some(ym)
  {
    var y, m := NatToString(ym.year), NatToString(ym.month);
    NatToStringLength(ym.year, 4);
    NatToStringLength(ym.month, 2);
    var s := FormatYearMonth(ym);
    assert s[..4] == PadLeft(y, 4);
    assert s[5..] == PadLeft(m, 2);
    ParsePadLeft(y, 4);
    ParsePadLeft(m, 2);
    ParseNatToString(ym.year);
    ParseNatToString(ym.month);
  }

  /** Different months never share a label. */
  lemma FormatYearMonthInjective(a: YearMonth, b: YearMonth)
    requires ValidYearMonth(a) && ValidYearMonth(b)
    requires FormatYearMonth(a) == FormatYearMonth(b)
    ensures a == b
  {
    FormatParseYearMonth(a);
    FormatParseYearMonth(b);
  }

  /** `get_group`: a month is written 'YYYY-MM'; a category or 'Unknown' is returned as it is. */
  function GetGroup(k: GroupKey): (s: string)
    requires k.MonthGroup? ==> ValidYearMonth(k.month)
    ensures k.CategoryGroup? ==> s == k.name
    ensures k.MonthGroup? ==> ParseYearMonth(s) == Some(k.month)
  {
    match k
    case MonthGroup(ym) => FormatParseYearMonth(ym); FormatYearMonth(ym)
    case CategoryGroup(name) => name
  }

  /** August 2024 is written '2024-08'. */
  lemma AugustLabel()
    ensures GetGroup(MonthGroup(YearMonth(2024, 8))) == "2024-08"
  {
    YearDigits();
    assert NatToString(8) == "8";
    assert PadLeft("8", 2) == "08";
    assert FormatYearMonth(YearMonth(2024, 8)) == "2024" + "-" + "08";
  }

  lemma YearDigits()
    ensures NatToString(2024) == "2024" && PadLeft("2024", 4) == "2024"
  {
    assert NatToString(202) == "202" by {
      assert NatToString(20) == "20";
    }
  }

  // ---------------------------------------------------------------------------
  // Decimal fields with two places

  function Abs(x: real): real
  {
    if x < 0.0 then -x else x
  }

  /**
   * `DecimalField(max_digits=19, decimal_places=2).to_representation`:
   * quantized to hundredths, ties to even, and written with its sign and two
   * places; a value needing more than 19 digits makes `quantize` raise
   * (`InvalidOperation`), which is None.
   */
  function Decimal2(x: real): (s: Option<string>)
    ensures s.Some? <==> -(DigitsLimit as int) < RoundHalfEven(x * 100.0) < DigitsLimit
    ensures s.Some? ==>
      var parsed := ParseFixed(s.value, 2);
      && parsed.Some? && parsed.value.0 == (x < 0.0)
      && -0.005 <= parsed.value.1 as real / 100.0 - Abs(x) <= 0.005
  {
    var cents := RoundHalfEven(x * 100.0);
    if -(DigitsLimit as int) < cents < DigitsLimit then
      var magnitude: nat := if cents < 0 then -cents else cents;
      RenderParse(x < 0.0, magnitude, 2);
      Some(RenderFixed(x < 0.0, magnitude, 2))
    else None
  }

  /** An amount in units of 0.0001 as a decimal value. */
  function UnitsToReal(units: real): real
  {
    units / 10000.0
  }

  // ---------------------------------------------------------------------------
  // Responses

  /** One aggregation row as JSON: `group`, `total_sales`, `average_price`. */
  datatype AggregateJson = AggregateJson(group: string, totalSales: string, averagePrice: string)

  /** `SalesDataAggregateSerializer(row).data`; None when an amount does not fit 19 digits. */
  function SerializeAggregateRow(row: AggregateRow): (r: Option<AggregateJson>)
    requires row.group.MonthGroup? ==> ValidYearMonth(row.group.month)
    requires row.count >= 1
    ensures r.Some? <==> Decimal2(UnitsToReal(row.totalSales as real)).Some?
                         && Decimal2(UnitsToReal(AveragePrice(row))).Some?
    ensures r.Some? ==> r.value.group == GetGroup(row.group)
    ensures r.Some? ==> r.value.totalSales == Decimal2(UnitsToReal(row.totalSales as real)).value
    ensures r.Some? ==> r.value.averagePrice == Decimal2(UnitsToReal(AveragePrice(row))).value
  {
    var total := Decimal2(UnitsToReal(row.totalSales as real));
    var average := Decimal2(UnitsToReal(AveragePrice(row)));
    if total.Some? && average.Some? then Some(AggregateJson(GetGroup(row.group), total.value, average.value))
    else None
  }

  /** A whole number of hundredths below 10^6 fits the field and is shown as it is rendered. */
  lemma WholeCentsShown(x: real, cents: nat)
    requires x * 100.0 == cents as real && cents < 1_000_000
    ensures Decimal2(x) == Some(RenderFixed(false, cents, 2))
  {
    assert RoundHalfEven(x * 100.0) == cents;
    assert !(x < 0.0);
  }

  /** A whole amount's hundredths divide exactly by 10^2. */
  lemma HundredsSplit(whole: nat)
    ensures Pow10(2) == 100
    ensures Quot(whole * 100, Pow10(2)) == whole && (whole * 100) % Pow10(2) == 0
  {
    assert Pow10(2) == 100;
  }

  /** Whole amounts have '00' after the point. */
  lemma WholeRendered(whole: nat)
    ensures RenderFixed(false, whole * 100, 2) == NatToString(whole) + ".00"
  {
    HundredsSplit(whole);
    assert PadLeft(NatToString(0), 2) == "00" by {
      assert NatToString(0) == "0";
      assert Zeros(1) == "0";
    }
    var w := NatToString(whole);
    assert "" + w + "." + "00" == w + ".00";
  }

  lemma ThousandRendered()
    ensures RenderFixed(false, 100000, 2) == "1000.00"
  {
    WholeRendered(1000);
    assert NatToString(1000) == "1000" by {
      assert NatToString(100) == "100" by {
        assert NatToString(10) == "10";
      }
    }
  }

  lemma FiftyRendered()
    ensures RenderFixed(false, 5000, 2) == "50.00"
  {
    WholeRendered(50);
    assert NatToString(50) == "50";
  }

  /**
   * Two sales of one group, 250.00 for 5 units and 750.00 for 15, are shown
   * as a total of '1000.00' at an average of '50.00'.
   */
  lemma TwoSalesShown(name: string)
    ensures SerializeAggregateRow(AggregateRow(CategoryGroup(name), 10_000_000, 1_000_000.0, 2))
         == Some(AggregateJson(name, "1000.00", "50.00"))
  {
    WholeCentsShown(UnitsToReal(10_000_000 as real), 100000);
    WholeCentsShown(UnitsToReal(500_000.0), 5000);
    ThousandRendered();
    FiftyRendered();
  }

  /** The `product` object of a record: `id` from the uuid, `name`, `category`. */
  datatype ProductJson = ProductJson(id: string, name: string, category: string)

  /**
   * One record as JSON: `id` from the uuid, the current product or null,
   * `quantity_sold`, `total_sales_amount` with two places and `date_of_sale`
   * (kept here as the instant; its ISO 8601 text is not modelled).
   */
  datatype RecordJson = RecordJson(id: string, product: Option<ProductJson>, quantitySold: int,
                                   totalSalesAmount: string, dateOfSale: int)

  /** `SalesRecordSerializer(record).data`; None when the amount does not fit 19 digits. */
  function SerializeRecord(r: SaleRow): (j: Option<RecordJson>)
    ensures j.Some? <==> Decimal2(UnitsToReal(r.totalSalesAmount as real)).Some?
    ensures j.Some? ==> j.value.id == r.uuid && j.value.quantitySold == r.quantitySold
    ensures j.Some? ==> j.value.dateOfSale == r.dateOfSale
    ensures j.Some? ==> (j.value.product.None? <==> r.product.None?)
    ensures j.Some? && r.product.Some? ==>
      j.value.product.value == ProductJson(r.product.value.uuid, r.product.value.name, r.product.value.category)
    ensures j.Some? ==> j.value.totalSalesAmount == Decimal2(UnitsToReal(r.totalSalesAmount as real)).value
  {
    match Decimal2(UnitsToReal(r.totalSalesAmount as real))
    case None => None
    case Some(amount) =>
      var product := match r.product
        case None => None
        case Some(p) => Some(ProductJson(p.uuid, p.name, p.category));
      Some(RecordJson(r.uuid, product, r.quantitySold, amount, r.dateOfSale))
  }

  /**
   * Every stored amount of a valid record is shown: four places fit 19 digits,
   * so two places do too.
   */
  lemma ValidRecordShown(r: SaleRow)
    requires ValidRow(r)
    ensures SerializeRecord(r).Some?
  {
    ValidRowFields(r);
    var x := UnitsToReal(r.totalSalesAmount as real);
    var cents := RoundHalfEven(x * 100.0);
    assert cents as real <= x * 100.0 + 0.5;
    assert x * 100.0 == r.totalSalesAmount as real / 100.0;
    assert cents as real <= r.totalSalesAmount as real + 0.5;
  }
}
