/**
 * The product catalogue entry (sales/apps/products/models.py): what a sales
 * record points at and copies into its snapshot.
 */
module Products {
  import opened Wrappers
  import opened Text
  import Decimals

  /** Prices are `DecimalField(max_digits=19, decimal_places=4)`: integers in units of 0.0001. */
  const PricePlaces: nat := 4
  const MaxDigits: nat := 19
  const MaxNameLength: nat := 255
  const MaxCategoryLength: nat := 255

  datatype Product = Product(uuid: string, name: string, category: string, price: int)

  /** A product as created with only a name: category '' and price 0 by default. */
  function NewProduct(uuid: string, name: string): (p: Product)
    ensures p.category == "" && p.price == 0 && p.name == name
  {
    Product(uuid, name, "", 0)
  }

  /**
   * A decimal with 4 places fits `max_digits=19` when it has at most 15
   * whole digits, that is, when its magnitude in units is below 10^19.
   */
  predicate FitsDecimalField(units: int)
  {
    -(DigitsLimit as int) < units < DigitsLimit
  }

  /** 10^19, written out: the first coefficient too wide for 19 digits. */
  const DigitsLimit: nat := 10_000_000_000_000_000_000

  lemma DigitsLimitIsPow10()
    ensures DigitsLimit == Pow10(MaxDigits)
  {
    assert Pow10(5) == 100_000;
    assert Pow10(10) == 10_000_000_000;
    assert Pow10(15) == 1_000_000_000_000_000;
  }

  /**
   * The fields `full_clean()` rejects, in declaration order: `name` when blank
   * or longer than 255, `category` when longer than 255 (blank is allowed),
   * `price` when negative or too wide for the column.
   */
  function CleanErrors(p: Product): (errors: seq<string>)
    ensures "name" in errors <==> p.name == "" || |p.name| > MaxNameLength
    ensures "category" in errors <==> |p.category| > MaxCategoryLength
    ensures "price" in errors <==> p.price < 0 || !FitsDecimalField(p.price)
    ensures forall f :: f in errors ==> f in ["name", "category", "price"]
  {
    (if p.name == "" || |p.name| > MaxNameLength then ["name"] else [])
    + (if |p.category| > MaxCategoryLength then ["category"] else [])
    + (if p.price < 0 || !FitsDecimalField(p.price) then ["price"] else [])
  }

  predicate Valid(p: Product)
  {
    CleanErrors(p) == []
  }

  /** A valid product has a non-negative price, and a blank category is allowed. */
  lemma ValidProductFields(p: Product)
    ensures Valid(p) <==> p.name != "" && |p.name| <= MaxNameLength
                          && |p.category| <= MaxCategoryLength
                          && 0 <= p.price < DigitsLimit
  {
    if !Valid(p) {
      var e := CleanErrors(p);
      assert e[0] in e;
    }
  }

  /** `str(product)` is the product's name. */
  function Str(p: Product): (s: string)
    ensures s == p.name
  {
    p.name
  }

  /** `str(product.price)` for the four-place Decimal the column holds, e.g. "99.9900". */
  function PriceString(p: Product): string
  {
    Decimals.RenderFixed(p.price < 0, if p.price < 0 then -p.price else p.price, PricePlaces)
  }

  /** The price string gives the price back exactly. */
  lemma PriceStringRoundTrip(p: Product)
    ensures Decimals.ParseFixed(PriceString(p), PricePlaces)
         == Some((p.price < 0, if p.price < 0 then -p.price else p.price))
  {
    var negative := p.price < 0;
    var magnitude: nat := if negative then -p.price else p.price;
    assert PriceString(p) == Decimals.RenderFixed(negative, magnitude, PricePlaces);
    Decimals.RenderParse(negative, magnitude, PricePlaces);
  }
}
