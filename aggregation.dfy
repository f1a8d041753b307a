/**
 * The aggregation queries of sales/apps/sales/models.py
 * (`SalesRecord._get_data_aggregated_queryset` and
 * `get_data_aggregated_queryset`): drop records with no units sold, group
 * the rest by month or by product category, and report per group the sum of
 * the amounts and the mean unit price, in ascending group order.
 *
 * The query is modelled as a fold of the records into a strictly sorted list
 * of groups (`Accumulate`), proved against an independent reference: the
 * members of a group are the eligible records with its key (`Members`).
 */
module SalesAggregation {
  import opened Wrappers
  import opened Text
  import opened Calendar
  import opened Products
  import opened SalesRecords

  /** `SalesRecord.AggregateByChoices`. */
  datatype AggregateBy = ByMonth | ByCategory

  /** The choice a request value names, if any. */
  function ParseAggregateBy(s: string): (r: Option<AggregateBy>)
    ensures r == Some(ByMonth) <==> s == "month"
    ensures r == Some(ByCategory) <==> s == "category"
    ensures r.None? <==> s != "month" && s != "category"
  {
    if s == "month" then Some(ByMonth)
    else if s == "category" then Some(ByCategory)
    else None
  }

  /** The `group` annotation: a truncated month or a category label. */
  datatype GroupKey = MonthGroup(month: YearMonth) | CategoryGroup(name: string)

  /** The label of records whose product is gone. */
  const UnknownLabel: string := "Unknown"

  /** `quantity_sold__gt=0`. */
  predicate Eligible(r: SaleRow)
  {
    r.quantitySold > 0
  }

  /**
   * The month key needs every date of sale, read on the zone's wall clock, to
   * fall in years 1 to 9999 (a Python `datetime`).
   */
  predicate KeysDefined(choice: AggregateBy, rows: seq<SaleRow>, offset: int)
  {
    choice == ByMonth ==> forall i :: 0 <= i < |rows| ==> WallClockInRange(rows[i].dateOfSale + offset)
  }

  /**
   * The group of a sale whose product is `product` and whose date of sale
   * reads `wallClock` on the zone's clock: `TruncMonth('date_of_sale')` in the
   * current zone, or `Case(When(product__isnull=True, then='Unknown'),
   * default=product__category)`.
   */
  function KeyOf(choice: AggregateBy, product: Option<Product>, wallClock: int): (k: GroupKey)
    requires choice == ByMonth ==> WallClockInRange(wallClock)
    ensures choice == ByMonth ==> k.MonthGroup? && ValidYearMonth(k.month)
    ensures choice == ByCategory ==>
      k.CategoryGroup?
      && (product.None? ==> k.name == UnknownLabel)
      && (product.Some? ==> k.name == product.value.category)
  {
    match choice
    case ByMonth => MonthGroup(MonthOfWallClock(wallClock))
    case ByCategory => CategoryGroup(if product.None? then UnknownLabel else product.value.category)
  }

  /**
   * The month key of a sale is `ym` exactly when its wall-clock reading lies
   * between the first instant of `ym` and the first instant of the month
   * after it.
   */
  lemma MonthKeyWindow(product: Option<Product>, wallClock: int, ym: YearMonth)
    requires WallClockInRange(wallClock) && ValidYearMonth(ym)
    ensures KeyOf(ByMonth, product, wallClock) == MonthGroup(ym) <==> InMonth(wallClock, ym)
  {
    MonthOfWallClockSpec(wallClock, ym);
  }

  /** The key of a stored record: its date of sale is read in the zone `offset` east of UTC. */
  function RowKey(choice: AggregateBy, r: SaleRow, offset: int): GroupKey
    requires choice == ByMonth ==> WallClockInRange(r.dateOfSale + offset)
  {
    KeyOf(choice, r.product, r.dateOfSale + offset)
  }

  // ---------------------------------------------------------------------------
  // The order of `order_by('group')`

  /** Months in calendar order, labels by code point; one query never mixes the two. */
  predicate KeyLess(a: GroupKey, b: GroupKey)
  {
    match (a, b)
    case (MonthGroup(x), MonthGroup(y)) => x.year < y.year || (x.year == y.year && x.month < y.month)
    case (MonthGroup(_), CategoryGroup(_)) => true
    case (CategoryGroup(_), MonthGroup(_)) => false
    case (CategoryGroup(x), CategoryGroup(y)) => StrLess(x, y)
  }

  lemma KeyLessIrreflexive(a: GroupKey)
    ensures !KeyLess(a, a)
  {
    if a.CategoryGroup? {
      StrLessIrreflexive(a.name);
    }
  }

  lemma KeyLessTransitive(a: GroupKey, b: GroupKey, c: GroupKey)
    requires KeyLess(a, b) && KeyLess(b, c)
    ensures KeyLess(a, c)
  {
    if a.CategoryGroup? && b.CategoryGroup? && c.CategoryGroup? {
      StrLessTransitive(a.name, b.name, c.name);
    }
  }

  lemma KeyLessTotal(a: GroupKey, b: GroupKey)
    ensures a == b || KeyLess(a, b) || KeyLess(b, a)
  {
    if a.CategoryGroup? && b.CategoryGroup? {
      StrLessTotal(a.name, b.name);
    }
  }

  // ---------------------------------------------------------------------------
  // Reference: the members of a group

  /** The amount divided by the units sold: `F('total_sales_amount') / F('quantity_sold')`. */
  function UnitPrice(r: SaleRow): real
    requires Eligible(r)
  {
    r.totalSalesAmount as real / r.quantitySold as real
  }

  /** The eligible records whose key is `k`, in their original order. */
  function Members(choice: AggregateBy, rows: seq<SaleRow>, offset: int, k: GroupKey): (ms: seq<SaleRow>)
    requires KeysDefined(choice, rows, offset)
    ensures forall i :: 0 <= i < |ms| ==> Eligible(ms[i])
    ensures |ms| <= |rows|
    decreases |rows|
  {
    if rows == [] then []
    else
      var r := rows[|rows| - 1];
      var ms := Members(choice, rows[..|rows| - 1], offset, k);
      if Eligible(r) && RowKey(choice, r, offset) == k then ms + [r] else ms
  }

  function SumAmounts(rows: seq<SaleRow>): int
    decreases |rows|
  {
    if rows == [] then 0 else SumAmounts(rows[..|rows| - 1]) + rows[|rows| - 1].totalSalesAmount
  }

  function SumUnitPrices(rows: seq<SaleRow>): real
    requires forall i :: 0 <= i < |rows| ==> Eligible(rows[i])
    decreases |rows|
  {
    if rows == [] then 0.0 else SumUnitPrices(rows[..|rows| - 1]) + UnitPrice(rows[|rows| - 1])
  }

  /** The records the query keeps: `filter(quantity_sold__gt=0)`. */
  function EligibleRows(rows: seq<SaleRow>): (es: seq<SaleRow>)
    ensures forall i :: 0 <= i < |es| ==> Eligible(es[i])
    ensures |es| <= |rows|
    decreases |rows|
  {
    if rows == [] then []
    else
      var es := EligibleRows(rows[..|rows| - 1]);
      if Eligible(rows[|rows| - 1]) then es + [rows[|rows| - 1]] else es
  }

  // ---------------------------------------------------------------------------
  // The fold

  /** A group being accumulated: its key, `Sum` of amounts, sum of unit prices, member count. */
  datatype Group = Group(key: GroupKey, total: int, unitSum: real, count: nat)

  /** The group a member list determines, when it has members. */
  function GroupOf(ms: seq<SaleRow>, k: GroupKey): Option<Group>
    requires forall i :: 0 <= i < |ms| ==> Eligible(ms[i])
  {
    if ms == [] then None else Some(Group(k, SumAmounts(ms), SumUnitPrices(ms), |ms|))
  }

  /** What a group of the given members accumulates to; None when it has none. */
  function Reference(choice: AggregateBy, rows: seq<SaleRow>, offset: int, k: GroupKey): Option<Group>
    requires KeysDefined(choice, rows, offset)
  {
    GroupOf(Members(choice, rows, offset, k), k)
  }

  predicate StrictlySorted(gs: seq<Group>)
  {
    forall i, j :: 0 <= i < j < |gs| ==> KeyLess(gs[i].key, gs[j].key)
  }

  /** Every key of `gs` lies above `x`. */
  predicate Above(x: GroupKey, gs: seq<Group>)
  {
    forall i :: 0 <= i < |gs| ==> KeyLess(x, gs[i].key)
  }

  /** The group with key `k`, if there is one. */
  function Lookup(gs: seq<Group>, k: GroupKey): (r: Option<Group>)
    ensures r.Some? ==> r.value.key == k
    ensures r.None? <==> forall i :: 0 <= i < |gs| ==> gs[i].key != k
  {
    if gs == [] then None
    else if gs[0].key == k then Some(gs[0])
    else Lookup(gs[1..], k)
  }

  function Bump(g: Group, amount: int, unit: real): Group
  {
    Group(g.key, g.total + amount, g.unitSum + unit, g.count + 1)
  }

  /** The group of key `k` once a record joins it: new with one member, or bumped. */
  function Join(g: Option<Group>, k: GroupKey, amount: int, unit: real): Group
  {
    match g
    case None => Group(k, amount, unit, 1)
    case Some(g) => Bump(g, amount, unit)
  }

  /** One record joins the group of key `k`, which is created in its sorted place if new. */
  function AddTo(gs: seq<Group>, k: GroupKey, amount: int, unit: real): seq<Group>
    decreases |gs|
  {
    if gs == [] then [Group(k, amount, unit, 1)]
    else if gs[0].key == k then [Bump(gs[0], amount, unit)] + gs[1..]
    else if KeyLess(k, gs[0].key) then [Group(k, amount, unit, 1)] + gs
    else [gs[0]] + AddTo(gs[1..], k, amount, unit)
  }

  /** The groups after folding in every record in turn. */
  function Accumulate(choice: AggregateBy, rows: seq<SaleRow>, offset: int): seq<Group>
    requires KeysDefined(choice, rows, offset)
    decreases |rows|
  {
    if rows == [] then []
    else
      var gs := Accumulate(choice, rows[..|rows| - 1], offset);
      var r := rows[|rows| - 1];
      if Eligible(r) then AddTo(gs, RowKey(choice, r, offset), r.totalSalesAmount, UnitPrice(r)) else gs
  }

  function SumTotals(gs: seq<Group>): int
  {
    if gs == [] then 0 else gs[0].total + SumTotals(gs[1..])
  }

  /** In a sorted list, a key above every key is not there. */
  lemma AboveMissing(x: GroupKey, gs: seq<Group>)
    requires Above(x, gs)
    ensures Lookup(gs, x).None?
  {
    forall i | 0 <= i < |gs|
      ensures gs[i].key != x
    {
      KeyLessIrreflexive(x);
    }
  }

  /** Inserting a key above `x` into a list above `x` keeps it above `x`. */
  lemma {:induction false} AddToAbove(x: GroupKey, gs: seq<Group>, k: GroupKey, amount: int, unit: real)
    requires Above(x, gs) && KeyLess(x, k)
    ensures Above(x, AddTo(gs, k, amount, unit))
    decreases |gs|
  {
    if gs != [] && gs[0].key != k && !KeyLess(k, gs[0].key) {
      AddToAbove(x, gs[1..], k, amount, unit);
    }
  }

  /**
   * Adding a record keeps the groups strictly sorted, changes only the group
   * of its key (created with one member, or bumped by one), and adds its
   * amount to the grand total.
   */
  lemma {:induction false} AddToSpec(gs: seq<Group>, k: GroupKey, amount: int, unit: real)
    requires StrictlySorted(gs)
    ensures StrictlySorted(AddTo(gs, k, amount, unit))
    ensures Lookup(AddTo(gs, k, amount, unit), k) == Some(Join(Lookup(gs, k), k, amount, unit))
    ensures forall k' :: k' != k ==> Lookup(AddTo(gs, k, amount, unit), k') == Lookup(gs, k')
    ensures SumTotals(AddTo(gs, k, amount, unit)) == SumTotals(gs) + amount
    decreases |gs|
  {
    var r := AddTo(gs, k, amount, unit);
    if gs == [] {
    } else if gs[0].key == k {
      assert r[1..] == gs[1..];
      forall i, j | 0 <= i < j < |r|
        ensures KeyLess(r[i].key, r[j].key)
      {
        assert r[i].key == gs[i].key && r[j].key == gs[j].key;
      }
    } else if KeyLess(k, gs[0].key) {
      assert r[1..] == gs;
      forall j | 0 < j < |gs|
        ensures KeyLess(k, gs[j].key)
      {
        KeyLessTransitive(k, gs[0].key, gs[j].key);
      }
      assert Above(k, gs);
      AboveMissing(k, gs);
    } else {
      var tail := gs[1..];
      KeyLessTotal(k, gs[0].key);
      AddToSpec(tail, k, amount, unit);
      var rt := AddTo(tail, k, amount, unit);
      assert r == [gs[0]] + rt;
      assert r[1..] == rt;
      assert Above(gs[0].key, tail);
      AddToAbove(gs[0].key, tail, k, amount, unit);
      forall i, j | 0 <= i < j < |r|
        ensures KeyLess(r[i].key, r[j].key)
      {
        if i > 0 {
          assert r[i] == rt[i - 1] && r[j] == rt[j - 1];
        }
      }
    }
  }

  /** Each group of a sorted list is what a lookup of its key finds. */
  lemma {:induction false} LookupSorted(gs: seq<Group>, i: int)
    requires StrictlySorted(gs) && 0 <= i < |gs|
    ensures Lookup(gs, gs[i].key) == Some(gs[i])
    decreases i
  {
    if i > 0 {
      KeyLessIrreflexive(gs[i].key);
      assert gs[0].key != gs[i].key;
      assert gs[1..][i - 1] == gs[i];
      LookupSorted(gs[1..], i - 1);
    }
  }

  /** In a sorted list, every group is what a lookup of its key finds. */
  lemma LookupEach(gs: seq<Group>)
    requires StrictlySorted(gs)
    ensures forall i :: 0 <= i < |gs| ==> Lookup(gs, gs[i].key) == Some(gs[i])
  {
    forall i | 0 <= i < |gs|
      ensures Lookup(gs, gs[i].key) == Some(gs[i])
    {
      LookupSorted(gs, i);
    }
  }

  /** Members of a group, as the fold sees them: the last record joins it iff it is eligible and has the key. */
  lemma MembersStep(choice: AggregateBy, rows: seq<SaleRow>, offset: int, k: GroupKey)
    requires KeysDefined(choice, rows, offset) && rows != []
    ensures Reference(choice, rows, offset, k)
         == (var r := rows[|rows| - 1];
             if Eligible(r) && RowKey(choice, r, offset) == k
             then Some(Join(Reference(choice, rows[..|rows| - 1], offset, k), k, r.totalSalesAmount, UnitPrice(r)))
             else Reference(choice, rows[..|rows| - 1], offset, k))
  {
    var r := rows[|rows| - 1];
    KeysDefinedPrefix(choice, rows, offset);
    if Eligible(r) && RowKey(choice, r, offset) == k {
      MemberJoins(choice, rows, offset, k);
    } else {
      assert Members(choice, rows, offset, k) == Members(choice, rows[..|rows| - 1], offset, k);
    }
  }

  /** The last record, eligible and of key `k`, joins the group of its predecessors. */
  lemma MemberJoins(choice: AggregateBy, rows: seq<SaleRow>, offset: int, k: GroupKey)
    requires KeysDefined(choice, rows, offset) && rows != []
    requires KeysDefined(choice, rows[..|rows| - 1], offset)
    requires Eligible(rows[|rows| - 1]) && RowKey(choice, rows[|rows| - 1], offset) == k
    ensures Reference(choice, rows, offset, k)
         == Some(Join(Reference(choice, rows[..|rows| - 1], offset, k), k, rows[|rows| - 1].totalSalesAmount,
                      UnitPrice(rows[|rows| - 1])))
  {
    var r := rows[|rows| - 1];
    var ms := Members(choice, rows[..|rows| - 1], offset, k);
    MembersGrow(choice, rows, offset, k);
    GroupGrows(ms, r, k);
  }

  /** One more member joins the group its predecessors determine. */
  lemma GroupGrows(ms: seq<SaleRow>, r: SaleRow, k: GroupKey)
    requires forall i :: 0 <= i < |ms| ==> Eligible(ms[i])
    requires Eligible(r)
    ensures GroupOf(ms + [r], k) == Some(Join(GroupOf(ms, k), k, r.totalSalesAmount, UnitPrice(r)))
  {
    SumsGrow(ms, r);
  }

  /** An eligible last record of key `k` is appended to the members of its predecessors. */
  lemma MembersGrow(choice: AggregateBy, rows: seq<SaleRow>, offset: int, k: GroupKey)
    requires KeysDefined(choice, rows, offset) && rows != []
    requires KeysDefined(choice, rows[..|rows| - 1], offset)
    requires Eligible(rows[|rows| - 1]) && RowKey(choice, rows[|rows| - 1], offset) == k
    ensures Members(choice, rows, offset, k) == Members(choice, rows[..|rows| - 1], offset, k) + [rows[|rows| - 1]]
  {
  }

  /** Dropping the last record keeps every key defined, and the last record's key is defined. */
  lemma KeysDefinedPrefix(choice: AggregateBy, rows: seq<SaleRow>, offset: int)
    requires KeysDefined(choice, rows, offset) && rows != []
    ensures KeysDefined(choice, rows[..|rows| - 1], offset)
    ensures choice == ByMonth ==> WallClockInRange(rows[|rows| - 1].dateOfSale + offset)
  {
  }

  /** Appending a member adds its amount and its unit price to the sums. */
  lemma SumsGrow(ms: seq<SaleRow>, r: SaleRow)
    requires forall i :: 0 <= i < |ms| ==> Eligible(ms[i])
    requires Eligible(r)
    ensures SumAmounts(ms + [r]) == SumAmounts(ms) + r.totalSalesAmount
    ensures SumUnitPrices(ms + [r]) == SumUnitPrices(ms) + UnitPrice(r)
  {
    var grown := ms + [r];
    assert grown[..|grown| - 1] == ms;
  }

  /**
   * The fold is exact: its groups are strictly sorted by key, and the group
   * of every key is the one its members determine (absent when it has none).
   */
  lemma {:induction false} AccumulateSpec(choice: AggregateBy, rows: seq<SaleRow>, offset: int)
    requires KeysDefined(choice, rows, offset)
    ensures StrictlySorted(Accumulate(choice, rows, offset))
    ensures forall k :: Lookup(Accumulate(choice, rows, offset), k) == Reference(choice, rows, offset, k)
    decreases |rows|
  {
    if rows != [] {
      var prefix := rows[..|rows| - 1];
      var r := rows[|rows| - 1];
      AccumulateSpec(choice, prefix, offset);
      var gs := Accumulate(choice, prefix, offset);
      forall k
        ensures Lookup(Accumulate(choice, rows, offset), k) == Reference(choice, rows, offset, k)
      {
        MembersStep(choice, rows, offset, k);
        if Eligible(r) {
          AddToSpec(gs, RowKey(choice, r, offset), r.totalSalesAmount, UnitPrice(r));
        }
      }
      if Eligible(r) {
        AddToSpec(gs, RowKey(choice, r, offset), r.totalSalesAmount, UnitPrice(r));
      }
    }
  }

  /** The fold's grand total is the sum of the amounts of the records it keeps. */
  lemma {:induction false} AccumulateTotal(choice: AggregateBy, rows: seq<SaleRow>, offset: int)
    requires KeysDefined(choice, rows, offset)
    ensures SumTotals(Accumulate(choice, rows, offset)) == SumAmounts(EligibleRows(rows))
    decreases |rows|
  {
    if rows != [] {
      var prefix := rows[..|rows| - 1];
      var r := rows[|rows| - 1];
      AccumulateTotal(choice, prefix, offset);
      AccumulateSpec(choice, prefix, offset);
      var es := EligibleRows(prefix);
      if Eligible(r) {
        AddToSpec(Accumulate(choice, prefix, offset), RowKey(choice, r, offset), r.totalSalesAmount, UnitPrice(r));
        assert (es + [r])[..|es + [r]| - 1] == es;
      }
    }
  }

  // ---------------------------------------------------------------------------
  // The result rows

  /**
   * One row of the queryset: `group`, `total_sales`, and `average_price` kept
   * as the sum of the members' unit prices and their count, whose quotient
   * `AveragePrice` is.
   */
  datatype AggregateRow = AggregateRow(group: GroupKey, totalSales: int, unitSum: real, count: nat)

  /** `Avg('unit price')`: the mean of the members' unit prices. */
  function AveragePrice(row: AggregateRow): real
    requires row.count >= 1
  {
    row.unitSum / row.count as real
  }

  /** The rows of the groups, in order. */
  function Finish(gs: seq<Group>): (out: seq<AggregateRow>)
    ensures |out| == |gs|
    ensures forall i :: 0 <= i < |gs| ==> out[i] == AggregateRow(gs[i].key, gs[i].total, gs[i].unitSum, gs[i].count)
  {
    if gs == [] then []
    else [AggregateRow(gs[0].key, gs[0].total, gs[0].unitSum, gs[0].count)] + Finish(gs[1..])
  }

  /** `_get_data_aggregated_queryset` over the records of `rows`. */
  function Aggregate(choice: AggregateBy, rows: seq<SaleRow>, offset: int): (out: seq<AggregateRow>)
    requires KeysDefined(choice, rows, offset)
    ensures forall i, j :: 0 <= i < j < |out| ==> KeyLess(out[i].group, out[j].group)
    ensures forall k :: (exists i :: 0 <= i < |out| && out[i].group == k) <==> Members(choice, rows, offset, k) != []
    ensures forall i :: 0 <= i < |out| ==>
      var ms := Members(choice, rows, offset, out[i].group);
      ms != [] && out[i].totalSales == SumAmounts(ms) && out[i].unitSum == SumUnitPrices(ms) && out[i].count == |ms|
  {
    var gs := Accumulate(choice, rows, offset);
    AccumulateSpec(choice, rows, offset);
    LookupEach(gs);
    GroupsHaveMembers(choice, rows, offset, gs);
    MembersHaveGroups(choice, rows, offset, gs);
    FinishedKeys(choice, rows, offset, gs);
    FinishedValues(choice, rows, offset, gs);
    Finish(gs)
  }

  /** A row of the finished groups exists for exactly the keys that have members. */
  lemma FinishedKeys(choice: AggregateBy, rows: seq<SaleRow>, offset: int, gs: seq<Group>)
    requires KeysDefined(choice, rows, offset)
    requires forall i :: 0 <= i < |gs| ==> Members(choice, rows, offset, gs[i].key) != []
    requires forall k :: Members(choice, rows, offset, k) != [] ==> exists i :: 0 <= i < |gs| && gs[i].key == k
    ensures forall k :: (exists i :: 0 <= i < |Finish(gs)| && Finish(gs)[i].group == k)
                        <==> Members(choice, rows, offset, k) != []
  {
    forall k
      ensures (exists i :: 0 <= i < |Finish(gs)| && Finish(gs)[i].group == k) <==> Members(choice, rows, offset, k) != []
    {
      FinishedGroups(gs, k);
    }
  }

  /** The finished rows carry the groups' keys, in order. */
  lemma FinishedGroups(gs: seq<Group>, k: GroupKey)
    ensures (exists i :: 0 <= i < |Finish(gs)| && Finish(gs)[i].group == k)
        <==> (exists i :: 0 <= i < |gs| && gs[i].key == k)
  {
    if i :| 0 <= i < |Finish(gs)| && Finish(gs)[i].group == k {
      assert 0 <= i < |gs| && gs[i].key == k;
      assert exists j :: 0 <= j < |gs| && gs[j].key == k;
      assert exists j :: 0 <= j < |Finish(gs)| && Finish(gs)[j].group == k;
    } else {
      forall i | 0 <= i < |gs|
        ensures gs[i].key != k
      {
        assert gs[i].key == Finish(gs)[i].group;
      }
    }
  }

  /** Every group of the fold has members. */
  lemma GroupsHaveMembers(choice: AggregateBy, rows: seq<SaleRow>, offset: int, gs: seq<Group>)
    requires KeysDefined(choice, rows, offset)
    requires forall i :: 0 <= i < |gs| ==> Lookup(gs, gs[i].key) == Some(gs[i])
    requires forall k :: Lookup(gs, k) == Reference(choice, rows, offset, k)
    ensures forall i :: 0 <= i < |gs| ==> Members(choice, rows, offset, gs[i].key) != []
  {
    forall i | 0 <= i < |gs|
      ensures Members(choice, rows, offset, gs[i].key) != []
    {
      assert Reference(choice, rows, offset, gs[i].key).Some?;
    }
  }

  /** Every key with members has a group in the fold. */
  lemma MembersHaveGroups(choice: AggregateBy, rows: seq<SaleRow>, offset: int, gs: seq<Group>)
    requires KeysDefined(choice, rows, offset)
    requires forall k :: Lookup(gs, k) == Reference(choice, rows, offset, k)
    ensures forall k :: Members(choice, rows, offset, k) != [] ==> exists i :: 0 <= i < |gs| && gs[i].key == k
  {
    forall k | Members(choice, rows, offset, k) != []
      ensures exists i :: 0 <= i < |gs| && gs[i].key == k
    {
      KeyHasGroup(choice, rows, offset, gs, k);
    }
  }

  lemma KeyHasGroup(choice: AggregateBy, rows: seq<SaleRow>, offset: int, gs: seq<Group>, k: GroupKey)
    requires KeysDefined(choice, rows, offset)
    requires Lookup(gs, k) == Reference(choice, rows, offset, k)
    requires Members(choice, rows, offset, k) != []
    ensures exists i :: 0 <= i < |gs| && gs[i].key == k
  {
    assert Lookup(gs, k).Some?;
  }

  /** Each finished row carries its members' total and average unit price. */
  lemma FinishedValues(choice: AggregateBy, rows: seq<SaleRow>, offset: int, gs: seq<Group>)
    requires KeysDefined(choice, rows, offset)
    requires forall i :: 0 <= i < |gs| ==> Lookup(gs, gs[i].key) == Some(gs[i])
    requires forall k :: Lookup(gs, k) == Reference(choice, rows, offset, k)
    ensures forall i :: 0 <= i < |Finish(gs)| ==>
      var ms := Members(choice, rows, offset, Finish(gs)[i].group);
      ms != [] && Finish(gs)[i].totalSales == SumAmounts(ms) && Finish(gs)[i].unitSum == SumUnitPrices(ms)
      && Finish(gs)[i].count == |ms|
  {
    var out := Finish(gs);
    forall i | 0 <= i < |out|
      ensures var ms := Members(choice, rows, offset, out[i].group);
              ms != [] && out[i].totalSales == SumAmounts(ms) && out[i].unitSum == SumUnitPrices(ms) && out[i].count == |ms|
    {
      assert Lookup(gs, gs[i].key) == Some(gs[i]);
    }
  }

  function SumSales(out: seq<AggregateRow>): int
  {
    if out == [] then 0 else out[0].totalSales + SumSales(out[1..])
  }

  /** The group totals add up to the amounts of all records with units sold. */
  lemma AggregateTotal(choice: AggregateBy, rows: seq<SaleRow>, offset: int)
    requires KeysDefined(choice, rows, offset)
    ensures SumSales(Aggregate(choice, rows, offset)) == SumAmounts(EligibleRows(rows))
  {
    var gs := Accumulate(choice, rows, offset);
    AccumulateTotal(choice, rows, offset);
    FinishTotal(gs);
  }

  lemma {:induction false} FinishTotal(gs: seq<Group>)
    ensures SumSales(Finish(gs)) == SumTotals(gs)
  {
    if gs != [] {
      assert Finish(gs)[1..] == Finish(gs[1..]);
      FinishTotal(gs[1..]);
    }
  }

  /** Records without units sold change nothing: aggregating only the others gives the same rows. */
  lemma {:induction false} ZeroQuantityIgnored(choice: AggregateBy, rows: seq<SaleRow>, offset: int)
    requires KeysDefined(choice, rows, offset)
    ensures KeysDefined(choice, EligibleRows(rows), offset)
    ensures Accumulate(choice, EligibleRows(rows), offset) == Accumulate(choice, rows, offset)
    decreases |rows|
  {
    EligibleKeysDefined(choice, rows, offset);
    if rows != [] {
      var prefix := rows[..|rows| - 1];
      var r := rows[|rows| - 1];
      ZeroQuantityIgnored(choice, prefix, offset);
      var es := EligibleRows(prefix);
      if Eligible(r) {
        var es' := es + [r];
        assert es'[..|es'| - 1] == es;
      }
    }
  }

  /** The records `EligibleRows` keeps have their keys defined when the input's are. */
  lemma EligibleKeysDefined(choice: AggregateBy, rows: seq<SaleRow>, offset: int)
    requires KeysDefined(choice, rows, offset)
    ensures KeysDefined(choice, EligibleRows(rows), offset)
  {
    var es := EligibleRows(rows);
    EligibleIn(rows);
    forall i | 0 <= i < |es| && choice == ByMonth
      ensures WallClockInRange(es[i].dateOfSale + offset)
    {
      assert es[i] in rows;
      var j :| 0 <= j < |rows| && rows[j] == es[i];
    }
  }

  /** Every record `EligibleRows` keeps comes from its input. */
  lemma {:induction false} EligibleIn(rows: seq<SaleRow>)
    ensures forall i :: 0 <= i < |EligibleRows(rows)| ==> EligibleRows(rows)[i] in rows
    decreases |rows|
  {
    if rows != [] {
      EligibleIn(rows[..|rows| - 1]);
    }
  }

  lemma TwoSalesAccumulate(choice: AggregateBy, a: SaleRow, b: SaleRow, offset: int)
    requires choice == ByMonth ==> WallClockInRange(a.dateOfSale + offset) && WallClockInRange(b.dateOfSale + offset)
    requires RowKey(choice, a, offset) == RowKey(choice, b, offset)
    requires a.quantitySold == 5 && a.totalSalesAmount == 2_500_000
    requires b.quantitySold == 15 && b.totalSalesAmount == 7_500_000
    ensures KeysDefined(choice, [a, b], offset)
    ensures Accumulate(choice, [a, b], offset) == [Group(RowKey(choice, a, offset), 10_000_000, 1_000_000.0, 2)]
  {
    var rows := [a, b];
    assert rows[0] == a && rows[1] == b;
    var k := RowKey(choice, a, offset);
    assert RowKey(choice, rows[1], offset) == k && RowKey(choice, rows[0], offset) == k;
    assert UnitPrice(a) == 500_000.0 && UnitPrice(b) == 500_000.0;
    assert rows[..1] == [a] && [a][..0] == [];
    assert Accumulate(choice, [a], offset) == AddTo([], k, 2_500_000, 500_000.0);
    var g1 := [Group(k, 2_500_000, 500_000.0, 1)];
    assert AddTo([], k, 2_500_000, 500_000.0) == g1;
    assert g1[1..] == [];
    assert AddTo(g1, k, 7_500_000, 500_000.0) == [Bump(g1[0], 7_500_000, 500_000.0)];
  }

  /**
   * Two sales in the same group, 250.00 for 5 units and 750.00 for 15, give
   * one row with total 1000.00 and average unit price 50.00 (in units of
   * 0.0001: 10 000 000 and 500 000).
   */
  lemma TwoSalesOneGroup(choice: AggregateBy, a: SaleRow, b: SaleRow, offset: int)
    requires choice == ByMonth ==> WallClockInRange(a.dateOfSale + offset) && WallClockInRange(b.dateOfSale + offset)
    requires RowKey(choice, a, offset) == RowKey(choice, b, offset)
    requires a.quantitySold == 5 && a.totalSalesAmount == 2_500_000
    requires b.quantitySold == 15 && b.totalSalesAmount == 7_500_000
    ensures KeysDefined(choice, [a, b], offset)
    ensures Aggregate(choice, [a, b], offset) == [AggregateRow(RowKey(choice, a, offset), 10_000_000, 1_000_000.0, 2)]
    ensures AveragePrice(Aggregate(choice, [a, b], offset)[0]) == 500_000.0
  {
    TwoSalesAccumulate(choice, a, b, offset);
    var g := Group(RowKey(choice, a, offset), 10_000_000, 1_000_000.0, 2);
    assert [g][1..] == [];
    assert Aggregate(choice, [a, b], offset) == Finish([g]);
  }

  /** A sale of a product whose category is 'Electronics' is grouped under that label. */
  lemma CategoryKeyOfProduct(r: SaleRow, offset: int)
    requires r.product.Some? && r.product.value.category == "Electronics"
    ensures RowKey(ByCategory, r, offset) == CategoryGroup("Electronics")
  {
  }

  /** `AssertionError('Invalid SaleRecord aggregation attempt')`. */
  datatype AggregationError = InvalidAggregation

  /** The records aggregated: the given queryset, or all records when none is given. */
  function Source(queryset: Option<seq<SaleRow>>, allRecords: seq<SaleRow>): seq<SaleRow>
  {
    match queryset
    case Some(rows) => rows
    case None => allRecords
  }

  /**
   * `get_data_aggregated_queryset(aggregate_by, queryset)`: a selector other
   * than 'month' or 'category' fails the assertion; otherwise the rows of the
   * chosen grouping over the given records.
   */
  function GetDataAggregated(aggregateBy: string, queryset: Option<seq<SaleRow>>, allRecords: seq<SaleRow>,
                             offset: int): (r: Result<seq<AggregateRow>, AggregationError>)
    requires aggregateBy == "month" ==> KeysDefined(ByMonth, Source(queryset, allRecords), offset)
    ensures r.Err? <==> aggregateBy != "month" && aggregateBy != "category"
    ensures r.Ok? ==> r.value == Aggregate(ParseAggregateBy(aggregateBy).value, Source(queryset, allRecords), offset)
  {
    match ParseAggregateBy(aggregateBy)
    case None => Err(InvalidAggregation)
    case Some(choice) => Ok(Aggregate(choice, Source(queryset, allRecords), offset))
  }
}
