/**
 * The query filters of the two list endpoints (sales/apps/sales/api/filters.py):
 * the form that cleans `start_date`, `end_date`, `category` and
 * `aggregate_by`, the range check of `filter_queryset`, the three record
 * filters applied in declaration order, and the aggregation filter of
 * `SalesRecordAggregateFilter`.
 */
module SalesFilters {
  import opened Wrappers
  import opened Text
  import opened Calendar
  import opened Helpers
  import opened SalesRecords
  import opened SalesAggregation

  /** A date query parameter after the form has read it: absent or empty, not a date, or a date. */
  datatype DateParam = DateAbsent | DateMalformed | DateGiven(date: Date)

  /** The record filter's parameters; any other query parameter is ignored. */
  datatype FilterParams = FilterParams(startDate: DateParam, endDate: DateParam, category: Option<string>)

  /**
   * Why a filtered listing fails: the form or the range check rejected fields
   * (HTTP 400, keyed by field name), or a date could not be expressed in UTC
   * (the `OverflowError` of `convert_date_to_utc`).
   */
  datatype FilterError = ValidationError(fields: seq<string>) | ConversionFailed

  /** A parsed date is a real calendar date of years 1 to 9999. */
  predicate ValidParams(p: FilterParams)
  {
    (p.startDate.DateGiven? ==> ValidDate(p.startDate.date))
    && (p.endDate.DateGiven? ==> ValidDate(p.endDate.date))
  }

  /** `form.cleaned_data.get(name)`: the date, or None when the parameter was not given. */
  function Cleaned(p: DateParam): (d: Option<Date>)
    ensures d.Some? <==> p.DateGiven?
    ensures d.Some? ==> d.value == p.date
  {
    match p
    case DateGiven(d) => Some(d)
    case _ => None
  }

  /**
   * The text the `category` field cleans to: `CharField` strips surrounding
   * whitespace (`strip=True`), and an absent value becomes ''.
   */
  function CleanedCategory(category: Option<string>): (c: string)
    ensures c == [] <==> category.None? || AllSpace(category.value)
    ensures category.Some? ==> Contains(category.value, c)
  {
    match category
    case None => ""
    case Some(s) => Strip(s)
  }

  /**
   * `ProhibitNullCharactersValidator` of `CharField`, run on a cleaned value
   * that is not empty.
   */
  predicate HasNullCharacter(category: Option<string>)
  {
    var c := CleanedCategory(category);
    c != "" && '\0' in c
  }

  /**
   * The record filter's form errors, in field order: every date parameter
   * that is not a date, and a category holding a null character.
   */
  function FormErrors(p: FilterParams): (fields: seq<string>)
    ensures "start_date" in fields <==> p.startDate.DateMalformed?
    ensures "end_date" in fields <==> p.endDate.DateMalformed?
    ensures "category" in fields <==> p.category.Some? && '\0' in p.category.value
    ensures forall f :: f in fields ==> f in ["start_date", "end_date", "category"]
  {
    (if p.startDate.DateMalformed? then ["start_date"] else [])
    + (if p.endDate.DateMalformed? then ["end_date"] else [])
    + (if HasNullCharacter(p.category) then ["category"] else [])
  }

  /** `start_date and end_date and start_date > end_date`. */
  predicate RangeInverted(p: FilterParams)
  {
    p.startDate.DateGiven? && p.endDate.DateGiven? && DateLess(p.endDate.date, p.startDate.date)
  }

  /** A `CharFilter` skips a value that cleans to ''. */
  predicate CategoryActive(category: Option<string>)
  {
    CleanedCategory(category) != ""
  }

  /** `queryset.filter(…)` with a row predicate: the rows that pass, in their order. */
  function Where(rows: seq<SaleRow>, keep: SaleRow -> bool): (out: seq<SaleRow>)
    ensures forall x :: multiset(out)[x] == if keep(x) then multiset(rows)[x] else 0
    ensures forall x :: x in out <==> x in rows && keep(x)
  {
    if rows == [] then []
    else
      var rest := Where(rows[1..], keep);
      assert rows == [rows[0]] + rows[1..];
      if keep(rows[0]) then [rows[0]] + rest else rest
  }

  /**
   * `filter_start_date`: without a date the queryset is unchanged; with one,
   * the records sold on that date or later on the zone's calendar, or the
   * conversion's failure.
   */
  function FilterStartDate(rows: seq<SaleRow>, value: Option<Date>, offset: int)
    : (r: Result<seq<SaleRow>, ConversionError>)
    requires value.Some? ==> ValidDate(value.value)
    ensures value.None? ==> r == Ok(rows)
    ensures value.Some? ==> (r.Err? <==> ConvertDateToUtc(value.value, false, offset).Err?)
    ensures r.Ok? && value.Some? ==>
      forall x :: multiset(r.value)[x]
        == if LocalDay(x.dateOfSale, offset) >= DaysFromCivil(value.value) then multiset(rows)[x] else 0
  {
    match value
    case None => Ok(rows)
    case Some(d) =>
      match ConvertDateToUtc(d, false, offset)
      case Err(e) => Err(e)
      case Ok(start) =>
        var out := Where(rows, (x: SaleRow) => x.dateOfSale >= start);
        assert forall x: SaleRow ::
          multiset(out)[x] == if LocalDay(x.dateOfSale, offset) >= DaysFromCivil(d) then multiset(rows)[x] else 0
        by {
          forall x: SaleRow {
            StartOfDayIff(d, offset, x.dateOfSale);
          }
        }
        Ok(out)
  }

  /**
   * `filter_end_date`: without a date the queryset is unchanged; with one,
   * the records sold on that date or earlier on the zone's calendar, or the
   * conversion's failure.
   */
  function FilterEndDate(rows: seq<SaleRow>, value: Option<Date>, offset: int)
    : (r: Result<seq<SaleRow>, ConversionError>)
    requires value.Some? ==> ValidDate(value.value)
    ensures value.None? ==> r == Ok(rows)
    ensures value.Some? ==> (r.Err? <==> ConvertDateToUtc(value.value, true, offset).Err?)
    ensures r.Ok? && value.Some? ==>
      forall x :: multiset(r.value)[x]
        == if LocalDay(x.dateOfSale, offset) <= DaysFromCivil(value.value) then multiset(rows)[x] else 0
  {
    match value
    case None => Ok(rows)
    case Some(d) =>
      match ConvertDateToUtc(d, true, offset)
      case Err(e) => Err(e)
      case Ok(end) =>
        var out := Where(rows, (x: SaleRow) => x.dateOfSale <= end);
        assert forall x: SaleRow ::
          multiset(out)[x] == if LocalDay(x.dateOfSale, offset) <= DaysFromCivil(d) then multiset(rows)[x] else 0
        by {
          forall x: SaleRow {
            EndOfDayIff(d, offset, x.dateOfSale);
          }
        }
        Ok(out)
  }

  /** Whether a record passes `product__category__icontains=needle`; a record without a product never does. */
  predicate CategoryMatches(x: SaleRow, needle: string)
  {
    x.product.Some? && IContains(x.product.value.category, needle)
  }

  /**
   * The `category` filter: the records whose product's category contains
   * the cleaned text, ignoring ASCII case.
   */
  function FilterCategory(rows: seq<SaleRow>, category: Option<string>): (out: seq<SaleRow>)
    ensures !CategoryActive(category) ==> out == rows
    ensures CategoryActive(category) ==>
      forall x :: multiset(out)[x] == if CategoryMatches(x, CleanedCategory(category)) then multiset(rows)[x] else 0
  {
    if CategoryActive(category) then
      var needle := CleanedCategory(category);
      Where(rows, (x: SaleRow) => CategoryMatches(x, needle))
    else
      rows
  }

  /** The conversion of a given date fails. */
  predicate Unconvertible(value: Option<Date>, isEndOfDay: bool, offset: int)
    requires value.Some? ==> ValidDate(value.value)
  {
    value.Some? && ConvertDateToUtc(value.value, isEndOfDay, offset).Err?
  }

  /**
   * The conditions the filtered listing keeps a record by, stated on the
   * zone's calendar: sold no earlier than the start date, no later than the
   * end date, and with a product whose category contains the text.
   */
  predicate Matches(p: FilterParams, offset: int, x: SaleRow)
  {
    (p.startDate.DateGiven? ==> LocalDay(x.dateOfSale, offset) >= DaysFromCivil(p.startDate.date))
    && (p.endDate.DateGiven? ==> LocalDay(x.dateOfSale, offset) <= DaysFromCivil(p.endDate.date))
    && (CategoryActive(p.category) ==> CategoryMatches(x, CleanedCategory(p.category)))
  }

  /**
   * The records a filtered listing starts from: the form's errors first, then
   * `filter_queryset`'s range check, then the start, end and category filters
   * in declaration order.
   */
  function FilterQueryset(p: FilterParams, rows: seq<SaleRow>, offset: int): (r: Result<seq<SaleRow>, FilterError>)
    requires ValidParams(p)
  {
    var errors := FormErrors(p);
    if errors != [] then Err(ValidationError(errors))
    else if RangeInverted(p) then Err(ValidationError(["start_date"]))
    else
      match FilterStartDate(rows, Cleaned(p.startDate), offset)
      case Err(_) => Err(ConversionFailed)
      case Ok(afterStart) =>
        match FilterEndDate(afterStart, Cleaned(p.endDate), offset)
        case Err(_) => Err(ConversionFailed)
        case Ok(afterEnd) => Ok(FilterCategory(afterEnd, p.category))
  }

  /**
   * How the filtered listing ends: malformed dates are reported together; a
   * start after the end is reported on `start_date`; a date that cannot be
   * converted fails; otherwise exactly the matching records are kept, each
   * as often as it occurs.
   */
  lemma FilterQuerysetSpec(p: FilterParams, rows: seq<SaleRow>, offset: int)
    requires ValidParams(p)
    ensures var r := FilterQueryset(p, rows, offset);
      && (FormErrors(p) != [] ==> r == Err(ValidationError(FormErrors(p))))
      && (FormErrors(p) == [] && RangeInverted(p) ==> r == Err(ValidationError(["start_date"])))
      && (r == Err(ConversionFailed) <==>
            FormErrors(p) == [] && !RangeInverted(p)
            && (Unconvertible(Cleaned(p.startDate), false, offset) || Unconvertible(Cleaned(p.endDate), true, offset)))
      && (r.Ok? ==> forall x :: multiset(r.value)[x] == if Matches(p, offset, x) then multiset(rows)[x] else 0)
  {
    var r := FilterQueryset(p, rows, offset);
    if FormErrors(p) == [] && !RangeInverted(p) {
      var s := FilterStartDate(rows, Cleaned(p.startDate), offset);
      if s.Ok? {
        var e := FilterEndDate(s.value, Cleaned(p.endDate), offset);
        if e.Ok? {
          var out := FilterCategory(e.value, p.category);
          assert r == Ok(out);
          forall x
            ensures multiset(out)[x] == if Matches(p, offset, x) then multiset(rows)[x] else 0
          {
            assert p.startDate.DateMalformed? == false && p.endDate.DateMalformed? == false;
          }
        }
      }
    }
  }

  /** The filtered records form a sub-multiset of the records: filtering never adds or duplicates a record. */
  lemma FilterQuerysetShrinks(p: FilterParams, rows: seq<SaleRow>, offset: int)
    requires ValidParams(p)
    requires FilterQueryset(p, rows, offset).Ok?
    ensures multiset(FilterQueryset(p, rows, offset).value) <= multiset(rows)
    ensures |FilterQueryset(p, rows, offset).value| <= |rows|
  {
    FilterQuerysetSpec(p, rows, offset);
    var out := FilterQueryset(p, rows, offset).value;
    assert multiset(out) <= multiset(rows);
    MultisetSize(out, rows);
  }

  lemma MultisetSize(a: seq<SaleRow>, b: seq<SaleRow>)
    requires multiset(a) <= multiset(b)
    ensures |a| <= |b|
  {
    assert |multiset(b)| == |multiset(a)| + |multiset(b) - multiset(a)|;
  }

  /** Without date or category parameters every record is listed, in its order. */
  lemma NoFiltersKeepAll(rows: seq<SaleRow>, offset: int, category: Option<string>)
    requires !CategoryActive(category)
    ensures FilterQueryset(FilterParams(DateAbsent, DateAbsent, category), rows, offset) == Ok(rows)
  {
  }

  /**
   * Equal start and end dates are accepted; a start date after the end date
   * is reported on `start_date`, whatever the records, unless the form
   * already rejected the category.
   */
  lemma RangeCheck(start: Date, end: Date, rows: seq<SaleRow>, offset: int, category: Option<string>)
    requires ValidDate(start) && ValidDate(end)
    ensures var r := FilterQueryset(FilterParams(DateGiven(start), DateGiven(end), category), rows, offset);
      r == Err(ValidationError(["start_date"])) <==> DateLess(end, start) && !HasNullCharacter(category)
  {
    var p := FilterParams(DateGiven(start), DateGiven(end), category);
    assert FormErrors(p) == if HasNullCharacter(category) then ["category"] else [];
  }

  /** A category text no product's category contains leaves nothing to list. */
  lemma UnknownCategoryEmpty(p: FilterParams, rows: seq<SaleRow>, offset: int)
    requires ValidParams(p) && CategoryActive(p.category)
    requires forall i :: 0 <= i < |rows| ==> !CategoryMatches(rows[i], CleanedCategory(p.category))
    requires FilterQueryset(p, rows, offset).Ok?
    ensures FilterQueryset(p, rows, offset).value == []
  {
    FilterQuerysetSpec(p, rows, offset);
  }

  /** A category of nothing but whitespace cleans to '' and lists the same records as no category at all. */
  lemma BlankCategoryIgnored(p: FilterParams, rows: seq<SaleRow>, offset: int, blank: string)
    requires ValidParams(p) && AllSpace(blank)
    ensures FilterQueryset(p.(category := Some(blank)), rows, offset) == FilterQueryset(p.(category := None), rows, offset)
  {
    assert FormErrors(p.(category := Some(blank))) == FormErrors(p.(category := None));
  }

  /**
   * Whitespace around a category is stripped before matching: the padded
   * text lists the same records as the text itself.
   */
  lemma PaddedCategoryMatches(p: FilterParams, rows: seq<SaleRow>, offset: int, before: string, text: string, after: string)
    requires ValidParams(p) && AllSpace(before) && AllSpace(after)
    requires text == [] || (!IsSpace(text[0]) && !IsSpace(text[|text| - 1]))
    ensures FilterQueryset(p.(category := Some(before + text + after)), rows, offset)
         == FilterQueryset(p.(category := Some(text)), rows, offset)
  {
    StripSurrounded(before, text, after);
    if text != [] {
      StripSurrounded([], text, []);
      assert [] + text + [] == text;
    } else {
      assert AllSpace(text);
    }
    assert CleanedCategory(Some(before + text + after)) == CleanedCategory(Some(text));
    assert FormErrors(p.(category := Some(before + text + after))) == FormErrors(p.(category := Some(text)));
  }

  /** What a filter leaves of a single record: the record itself when kept, nothing otherwise. */
  lemma SingletonFiltered(out: seq<SaleRow>, r: SaleRow, kept: bool)
    requires forall x :: multiset(out)[x] == if kept && x == r then 1 else 0
    ensures out == if kept then [r] else []
  {
    assert multiset(out) == if kept then multiset([r]) else multiset{};
    if kept {
      assert |out| == 1;
      assert out[0] in multiset(out);
    }
  }

  /** Europe/Sofia in September (UTC+3) and America/Los_Angeles in September (UTC-7). */
  const SofiaSummerOffset: int := 3 * 3600 * 1_000_000
  const LosAngelesSummerOffset: int := -7 * 3600 * 1_000_000

  /**
   * A sale at 2024-09-01 00:00 UTC falls on 1 September in Sofia (03:00) and
   * on 31 August in Los Angeles (17:00): filtering on 2024-09-01 to 2024-09-01
   * lists it in the first zone and not in the second.
   */
  lemma ExactDateDependsOnZone(r: SaleRow)
    requires r.dateOfSale == DayStart(Date(2024, 9, 1))
    ensures FilterQueryset(FilterParams(DateGiven(Date(2024, 9, 1)), DateGiven(Date(2024, 9, 1)), None),
                           [r], SofiaSummerOffset) == Ok([r])
    ensures FilterQueryset(FilterParams(DateGiven(Date(2024, 9, 1)), DateGiven(Date(2024, 9, 1)), None),
                           [r], LosAngelesSummerOffset) == Ok([])
  {
    var d := Date(2024, 9, 1);
    assert ValidDate(d);
    var p := FilterParams(DateGiven(d), DateGiven(d), None);
    var n := DaysFromCivil(d);
    DateLessIffDays(Date(MinYear, 1, 1), d);
    DateLessIffDays(d, Date(MaxYear, 12, 31));
    assert DaysFromCivil(Date(MinYear, 1, 1)) < n < DaysFromCivil(Date(MaxYear, 12, 31));
    forall o | o == SofiaSummerOffset || o == LosAngelesSummerOffset
      ensures ConvertDateToUtc(d, false, o).Ok? && ConvertDateToUtc(d, true, o).Ok?
    {
    }
    DivUnique(r.dateOfSale + SofiaSummerOffset, MicrosPerDay, n, SofiaSummerOffset);
    assert Matches(p, SofiaSummerOffset, r);
    DivUnique(r.dateOfSale + LosAngelesSummerOffset, MicrosPerDay, n - 1, MicrosPerDay + LosAngelesSummerOffset);
    assert !Matches(p, LosAngelesSummerOffset, r);
    FilterQuerysetSpec(p, [r], SofiaSummerOffset);
    FilterQuerysetSpec(p, [r], LosAngelesSummerOffset);
    SingletonFiltered(FilterQueryset(p, [r], SofiaSummerOffset).value, r, true);
    SingletonFiltered(FilterQueryset(p, [r], LosAngelesSummerOffset).value, r, false);
  }

  // ---------------------------------------------------------------------------
  // The aggregation endpoint's filter
  // ---------------------------------------------------------------------------

  /** The `aggregate_by` choice field: required, and one of 'month' and 'category'. */
  function ChoiceOf(aggregateBy: Option<string>): (c: Option<AggregateBy>)
    ensures c.Some? <==> aggregateBy == Some("month") || aggregateBy == Some("category")
    ensures c == Some(ByMonth) <==> aggregateBy == Some("month")
  {
    match aggregateBy
    case None => None
    case Some(s) => ParseAggregateBy(s)
  }

  /** The aggregate filter's form errors: the record filter's, then `aggregate_by` when it is missing or not a choice. */
  function AggregateFormErrors(p: FilterParams, aggregateBy: Option<string>): (fields: seq<string>)
    ensures "aggregate_by" in fields <==> ChoiceOf(aggregateBy).None?
    ensures fields == [] <==> FormErrors(p) == [] && ChoiceOf(aggregateBy).Some?
    ensures FormErrors(p) <= fields
  {
    FormErrors(p) + (if ChoiceOf(aggregateBy).None? then ["aggregate_by"] else [])
  }

  /** A subset of records whose dates read on the zone's calendar still has them readable. */
  lemma KeysDefinedSubset(choice: AggregateBy, sub: seq<SaleRow>, rows: seq<SaleRow>, offset: int)
    requires KeysDefined(choice, rows, offset)
    requires forall x :: x in sub ==> x in rows
    ensures KeysDefined(choice, sub, offset)
  {
    if choice == ByMonth {
      forall i | 0 <= i < |sub|
        ensures WallClockInRange(sub[i].dateOfSale + offset)
      {
        assert sub[i] in rows;
        var j :| 0 <= j < |rows| && rows[j] == sub[i];
      }
    }
  }

  /**
   * `SalesRecordAggregateFilter`: after the record filters, `filter_aggregate_by`
   * groups what is left. Form errors include a missing or unknown
   * `aggregate_by`; otherwise the outcome is the record filter's, with the
   * surviving records aggregated by the chosen key.
   */
  function AggregateFilter(p: FilterParams, aggregateBy: Option<string>, rows: seq<SaleRow>, offset: int)
    : (r: Result<seq<AggregateRow>, FilterError>)
    requires ValidParams(p)
    requires aggregateBy == Some("month") ==> KeysDefined(ByMonth, rows, offset)
    ensures AggregateFormErrors(p, aggregateBy) != [] ==> r == Err(ValidationError(AggregateFormErrors(p, aggregateBy)))
    ensures AggregateFormErrors(p, aggregateBy) == [] ==>
      match FilterQueryset(p, rows, offset)
      case Err(e) => r == Err(e)
      case Ok(filtered) =>
        KeysDefined(ChoiceOf(aggregateBy).value, filtered, offset)
        && r == Ok(Aggregate(ChoiceOf(aggregateBy).value, filtered, offset))
  {
    var errors := AggregateFormErrors(p, aggregateBy);
    if errors != [] then Err(ValidationError(errors))
    else
      match FilterQueryset(p, rows, offset)
      case Err(e) => Err(e)
      case Ok(filtered) =>
        FilterQuerysetSpec(p, rows, offset);
        assert forall x :: x in filtered ==> x in rows by {
          forall x | x in filtered ensures x in rows {
            assert multiset(filtered)[x] > 0;
          }
        }
        KeysDefinedSubset(ChoiceOf(aggregateBy).value, filtered, rows, offset);
        Ok(GetDataAggregated(aggregateBy.value, Some(filtered), [], offset).value)
  }

  /** Sales outside the date window never reach the aggregation: each group's total counts only matching records. */
  lemma AggregateTotalOfFiltered(p: FilterParams, choice: string, rows: seq<SaleRow>, offset: int)
    requires ValidParams(p) && FormErrors(p) == []
    requires choice == "month" || choice == "category"
    requires choice == "month" ==> KeysDefined(ByMonth, rows, offset)
    requires FilterQueryset(p, rows, offset).Ok?
    ensures var r := AggregateFilter(p, Some(choice), rows, offset);
      r.Ok? && SumSales(r.value) == SumAmounts(EligibleRows(FilterQueryset(p, rows, offset).value))
  {
    var filtered := FilterQueryset(p, rows, offset).value;
    var c := ChoiceOf(Some(choice)).value;
    assert AggregateFormErrors(p, Some(choice)) == [];
    var r := AggregateFilter(p, Some(choice), rows, offset);
    assert KeysDefined(c, filtered, offset) && r == Ok(Aggregate(c, filtered, offset));
    AggregateTotal(c, filtered, offset);
  }
}
