/** The filtered listing of `Resources::get_filtered_resources`: a sparse
    filter map is completed with defaults, every non-empty filter adds
    AND-ed predicates to the provider/resource join, and the result carries
    the unfiltered count, the filtered count and one page of sorted rows.

    The SQL text is modelled as a list of predicates, and the database as
    evaluation of those predicates over the rows of the join. */
module Query {
  import opened Wrappers
  import opened Strings

  // ---------------------------------------------------------------------
  // Rows, columns and predicates

  /** The columns filtered by substring (`LIKE '%v%'`). */
  datatype TextField =
    | Email | Currency | PaymentMethod | Promotions | Notes
    | OtherInfo | SocialMedia | MainCategory | OtherCategories

  /** The columns filtered by numeric range. */
  datatype NumField =
    | Price | CasinoPrice | AdultPrice | UsdPrice
    | Da | Dr | Rd | Tr | Pa | Tf | Cf | OrganicKeywords

  /** One row of the join of providers with resources on `resource_id`,
      with the selected columns. Numeric columns are integers and the date
      column is a day number. */
  datatype Row = Row(
    id: int, email: string, currency: string,
    price: int, casinoPrice: int, cbdPrice: int, adultPrice: int,
    paymentMethod: string, promotions: string, usdPrice: int, notes: string,
    resourceId: int, resource: string,
    da: int, dr: int, rd: int, tr: int, pa: int, tf: int, cf: int, organicKeywords: int,
    metricsUpdateDate: int, socialMedia: string, otherInfo: string,
    mainCategory: string, otherCategories: string)

  function Text(row: Row, f: TextField): string {
    match f
    case Email => row.email
    case Currency => row.currency
    case PaymentMethod => row.paymentMethod
    case Promotions => row.promotions
    case Notes => row.notes
    case OtherInfo => row.otherInfo
    case SocialMedia => row.socialMedia
    case MainCategory => row.mainCategory
    case OtherCategories => row.otherCategories
  }

  function Num(row: Row, f: NumField): int {
    match f
    case Price => row.price
    case CasinoPrice => row.casinoPrice
    case AdultPrice => row.adultPrice
    case UsdPrice => row.usdPrice
    case Da => row.da
    case Dr => row.dr
    case Rd => row.rd
    case Tr => row.tr
    case Pa => row.pa
    case Tf => row.tf
    case Cf => row.cf
    case OrganicKeywords => row.organicKeywords
  }

  /** One `AND`-ed condition of the WHERE clause. Numeric bounds and dates
      are kept as the raw text the filter supplied. */
  datatype Pred =
    | Like(text: TextField, needle: string)       // field LIKE '%needle%'
    | Ge(num: NumField, bound: string)            // field >= bound
    | Le(num: NumField, bound: string)            // field <= bound
    | Eq(num: NumField, bound: string)            // field = bound
    | Between(low: string, high: string)          // metrics_update_date between 'low' and 'high'
    | DateEq(day: string)                         // metrics_update_date = 'day'

  /** What the database does with the parts this model does not open up:
      how an unquoted bound reads as a number (`None` when it is not a
      numeric literal, so the statement fails), how a quoted date reads as
      a day number, and how `ORDER BY column direction` orders rows (`None`
      when the statement fails). */
  datatype Sql = Sql(
    numeral: string -> Option<int>,
    day: string -> int,
    orderBy: (seq<Row>, string, string) -> Option<seq<Row>>)

  /** Sorting only reorders rows. */
  ghost predicate SoundOrdering(sql: Sql) {
    forall rows, column, direction ::
      sql.orderBy(rows, column, direction).Some? ==>
        multiset(sql.orderBy(rows, column, direction).value) == multiset(rows)
  }

  /** The statement is well formed: every unquoted bound is a number. */
  predicate WellFormed(preds: seq<Pred>, sql: Sql) {
    forall i :: 0 <= i < |preds| ==>
      (preds[i].Ge? || preds[i].Le? || preds[i].Eq?) ==> sql.numeral(preds[i].bound).Some?
  }

  predicate Holds(p: Pred, row: Row, sql: Sql) {
    match p
    case Like(f, needle) => Occurs(needle, Text(row, f))
    case Ge(f, b) => sql.numeral(b).Some? && Num(row, f) >= sql.numeral(b).value
    case Le(f, b) => sql.numeral(b).Some? && Num(row, f) <= sql.numeral(b).value
    case Eq(f, b) => sql.numeral(b).Some? && Num(row, f) == sql.numeral(b).value
    case Between(low, high) => sql.day(low) <= row.metricsUpdateDate <= sql.day(high)
    case DateEq(d) => row.metricsUpdateDate == sql.day(d)
  }

  /** A row satisfies every predicate of the conjunction. */
  predicate Matches(row: Row, preds: seq<Pred>, sql: Sql) {
    forall i :: 0 <= i < |preds| ==> Holds(preds[i], row, sql)
  }

  /** The rows of the join that satisfy the conjunction, in join order. */
  function Select(rows: seq<Row>, preds: seq<Pred>, sql: Sql): (selected: seq<Row>)
    ensures |selected| <= |rows|
  {
    if rows == [] then []
    else (if Matches(rows[0], preds, sql) then [rows[0]] else []) + Select(rows[1..], preds, sql)
  }

  /** Selection keeps exactly the rows of the join that match. */
  lemma {:induction false} SelectKeepsMatching(rows: seq<Row>, preds: seq<Pred>, sql: Sql)
    ensures forall r :: r in Select(rows, preds, sql) <==> r in rows && Matches(r, preds, sql)
  {
    if rows != [] {
      SelectKeepsMatching(rows[1..], preds, sql);
      assert rows == [rows[0]] + rows[1..];
    }
  }

  /** The rows `$wpdb->get_results` reports for the statement: none when
      the statement fails, since `$wpdb` then reports zero rows. */
  function Run(rows: seq<Row>, preds: seq<Pred>, sql: Sql): (result: seq<Row>)
    ensures |result| <= |rows|
    ensures forall r :: r in result ==> r in rows && Matches(r, preds, sql)
    ensures !WellFormed(preds, sql) ==> result == []
  {
    SelectKeepsMatching(rows, preds, sql);
    if WellFormed(preds, sql) then Select(rows, preds, sql) else []
  }

  // ---------------------------------------------------------------------
  // Default filling

  /** The request's `filters` parameter: `limit` and `page` as numbers,
      everything else as text keyed by the parameter name. */
  datatype Params = Params(limit: Option<int>, page: Option<int>, values: map<string, string>)

  /** `$params[key] ?? default`. */
  function Param(params: Params, key: string, default: string): string {
    if key in params.values then params.values[key] else default
  }

  /** The completed filter map. */
  datatype Filters = Filters(
    limit: int, page: int, sortby: string, order: string,
    email: string, currency: string, price: string, casinoPrice: string,
    adultPrice: string, paymentMethod: string, promotions: string,
    usdPrice: string, notes: string,
    da: string, dr: string, rd: string, tr: string, pa: string, tf: string,
    cf: string, organicKeywords: string, metricsUpdateDate: string,
    otherInfo: string, socialMedia: string, mainCategory: string,
    otherCategories: string)

  const DefaultLimit := 50
  const DefaultPage := 1
  const DefaultSortBy := "resource"
  const DefaultOrder := "ASC"

  /** The default filling: every absent parameter takes its default, `""`
      for all filters. */
  function FillFilters(params: Params): (f: Filters)
    ensures params.limit.None? ==> f.limit == DefaultLimit
    ensures params.page.None? ==> f.page == DefaultPage
    ensures "sortby" !in params.values ==> f.sortby == DefaultSortBy
    ensures "order" !in params.values ==> f.order == DefaultOrder
    ensures "email" in params.values ==> f.email == params.values["email"]
    ensures "price" !in params.values ==> f.price == ""
  {
    Filters(
      params.limit.GetOr(DefaultLimit),
      params.page.GetOr(DefaultPage),
      Param(params, "sortby", DefaultSortBy),
      Param(params, "order", DefaultOrder),
      Param(params, "email", ""),
      Param(params, "currency", ""),
      Param(params, "price", ""),
      Param(params, "casino_price", ""),
      Param(params, "adult_price", ""),
      Param(params, "payment_method", ""),
      Param(params, "promotions", ""),
      Param(params, "usd_price", ""),
      Param(params, "notes", ""),
      Param(params, "da", ""),
      Param(params, "dr", ""),
      Param(params, "rd", ""),
      Param(params, "tr", ""),
      Param(params, "pa", ""),
      Param(params, "tf", ""),
      Param(params, "cf", ""),
      Param(params, "organic_keywords", ""),
      Param(params, "metrics_update_date", ""),
      Param(params, "other_info", ""),
      Param(params, "social_media", ""),
      Param(params, "main_category", ""),
      Param(params, "other_categories", ""))
  }

  /** `v` is what `$params[key] ?? default` gives: the given value when the
      key is present, the default otherwise. */
  predicate KeptOrDefault(v: string, params: Params, key: string, default: string) {
    && (key in params.values ==> v == params.values[key])
    && (key !in params.values ==> v == default)
  }

  /** Every parameter is kept when given and takes its default otherwise:
      `limit` 50, `page` 1, `sortby` `resource`, `order` `ASC`, and `""`
      for each of the 22 filters. */
  lemma FillFiltersCoalesces(params: Params)
    ensures var f := FillFilters(params);
      && (params.limit.Some? ==> f.limit == params.limit.value)
      && (params.limit.None? ==> f.limit == DefaultLimit)
      && (params.page.Some? ==> f.page == params.page.value)
      && (params.page.None? ==> f.page == DefaultPage)
      && KeptOrDefault(f.sortby, params, "sortby", DefaultSortBy)
      && KeptOrDefault(f.order, params, "order", DefaultOrder)
      && KeptOrDefault(f.email, params, "email", "")
      && KeptOrDefault(f.currency, params, "currency", "")
      && KeptOrDefault(f.price, params, "price", "")
      && KeptOrDefault(f.casinoPrice, params, "casino_price", "")
      && KeptOrDefault(f.adultPrice, params, "adult_price", "")
      && KeptOrDefault(f.paymentMethod, params, "payment_method", "")
      && KeptOrDefault(f.promotions, params, "promotions", "")
      && KeptOrDefault(f.usdPrice, params, "usd_price", "")
      && KeptOrDefault(f.notes, params, "notes", "")
      && KeptOrDefault(f.da, params, "da", "")
      && KeptOrDefault(f.dr, params, "dr", "")
      && KeptOrDefault(f.rd, params, "rd", "")
      && KeptOrDefault(f.tr, params, "tr", "")
      && KeptOrDefault(f.pa, params, "pa", "")
      && KeptOrDefault(f.tf, params, "tf", "")
      && KeptOrDefault(f.cf, params, "cf", "")
      && KeptOrDefault(f.organicKeywords, params, "organic_keywords", "")
      && KeptOrDefault(f.metricsUpdateDate, params, "metrics_update_date", "")
      && KeptOrDefault(f.otherInfo, params, "other_info", "")
      && KeptOrDefault(f.socialMedia, params, "social_media", "")
      && KeptOrDefault(f.mainCategory, params, "main_category", "")
      && KeptOrDefault(f.otherCategories, params, "other_categories", "")
  {
  }

  // ---------------------------------------------------------------------
  // Predicate composition

  /** A substring filter: one `LIKE` when the value is truthy. */
  function LikeClause(f: TextField, v: string): seq<Pred> {
    if Truthy(v) then [Like(f, v)] else []
  }

  /** A numeric range filter: `explode('-', v)` into two parts gives a
      closed range, one part an equality, and any other count nothing. */
  function RangeClause(f: NumField, v: string): seq<Pred> {
    if !Truthy(v) then []
    else
      var parts := Explode("-", v);
      if |parts| == 2 then [Ge(f, parts[0]), Le(f, parts[1])]
      else if |parts| == 1 then [Eq(f, parts[0])]
      else []
  }

  /** The date filter: as a range filter, but split on `' - '` and with an
      inclusive `between` for two parts. */
  function DateClause(v: string): seq<Pred> {
    if !Truthy(v) then []
    else
      var parts := Explode(" - ", v);
      if |parts| == 2 then [Between(parts[0], parts[1])]
      else if |parts| == 1 then [DateEq(parts[0])]
      else []
  }

  /** The WHERE conditions added after the join condition, in the order
      `get_filtered_resources` appends them. */
  function Predicates(f: Filters): seq<Pred> {
    LikeClause(Email, f.email)
    + LikeClause(Currency, f.currency)
    + LikeClause(PaymentMethod, f.paymentMethod)
    + LikeClause(Promotions, f.promotions)
    + LikeClause(Notes, f.notes)
    + LikeClause(OtherInfo, f.otherInfo)
    + LikeClause(SocialMedia, f.socialMedia)
    + LikeClause(MainCategory, f.mainCategory)
    + LikeClause(OtherCategories, f.otherCategories)
    + RangeClause(Price, f.price)
    + RangeClause(CasinoPrice, f.casinoPrice)
    + RangeClause(AdultPrice, f.adultPrice)
    + RangeClause(UsdPrice, f.usdPrice)
    + RangeClause(Da, f.da)
    + RangeClause(Dr, f.dr)
    + RangeClause(Rd, f.rd)
    + RangeClause(Tr, f.tr)
    + RangeClause(Pa, f.pa)
    + RangeClause(Tf, f.tf)
    + RangeClause(Cf, f.cf)
    + RangeClause(OrganicKeywords, f.organicKeywords)
    + DateClause(f.metricsUpdateDate)
  }

  // ---------------------------------------------------------------------
  // Pagination

  function Min(a: int, b: int): int {
    if a <= b then a else b
  }

  /** `LIMIT start, count` over an ordered result: at most `count` rows
      starting at position `start`. */
  function Window(s: seq<Row>, start: nat, count: nat): (w: seq<Row>)
    ensures |w| <= count && |w| <= |s|
    ensures start + count <= |s| ==> |w| == count
    ensures start <= |s| ==> |w| == Min(count, |s| - start)
    ensures forall j :: 0 <= j < |w| ==> start + j < |s| && w[j] == s[start + j]
  {
    if start >= |s| then [] else s[start..Min(start + count, |s|)]
  }

  /** The last statement: the filtered rows, ordered, then cut with
      `LIMIT start, count`. No rows when the statement fails: a bound that is
      not a number, an ordering the database rejects, or a negative `LIMIT`
      argument. */
  function FetchPage(rows: seq<Row>, preds: seq<Pred>, sql: Sql,
                     sortby: string, order: string, start: int, count: int): (page: seq<Row>)
    ensures !WellFormed(preds, sql) || start < 0 || count < 0 ==> page == []
    ensures count >= 0 ==> |page| <= count
  {
    if !WellFormed(preds, sql) || start < 0 || count < 0 then []
    else match sql.orderBy(Select(rows, preds, sql), sortby, order)
      case None => []
      case Some(sorted) => Window(sorted, start, count)
  }

  /** The result record of the listing. */
  datatype FilteredResult = FilteredResult(
    total: int, totalFiltered: int, limit: int, page: int,
    sortby: string, order: string, dataCount: int, data: seq<Row>)

  /** The WHERE clause grows one filter block at a time, in the order of
      the `if` statements of `get_filtered_resources`. */
  method ComposePredicates(filters: Filters) returns (preds: seq<Pred>)
    ensures preds == Predicates(filters)
  {
    preds := [];

    preds := preds + LikeClause(Email, filters.email);
    assert preds == LikeClause(Email, filters.email);
    preds := preds + LikeClause(Currency, filters.currency);
    preds := preds + LikeClause(PaymentMethod, filters.paymentMethod);
    preds := preds + LikeClause(Promotions, filters.promotions);
    preds := preds + LikeClause(Notes, filters.notes);
    preds := preds + LikeClause(OtherInfo, filters.otherInfo);
    preds := preds + LikeClause(SocialMedia, filters.socialMedia);
    preds := preds + LikeClause(MainCategory, filters.mainCategory);
    preds := preds + LikeClause(OtherCategories, filters.otherCategories);

    preds := preds + RangeClause(Price, filters.price);
    preds := preds + RangeClause(CasinoPrice, filters.casinoPrice);
    preds := preds + RangeClause(AdultPrice, filters.adultPrice);
    preds := preds + RangeClause(UsdPrice, filters.usdPrice);
    preds := preds + RangeClause(Da, filters.da);
    preds := preds + RangeClause(Dr, filters.dr);
    preds := preds + RangeClause(Rd, filters.rd);
    preds := preds + RangeClause(Tr, filters.tr);
    preds := preds + RangeClause(Pa, filters.pa);
    preds := preds + RangeClause(Tf, filters.tf);
    preds := preds + RangeClause(Cf, filters.cf);
    preds := preds + RangeClause(OrganicKeywords, filters.organicKeywords);

    preds := preds + DateClause(filters.metricsUpdateDate);
  }

  /** The final `foreach`: each fetched row is appended to the result's
      `data`, in order; nothing else changes. */
  method AppendRows(res0: FilteredResult, resources: seq<Row>) returns (res: FilteredResult)
    ensures res == res0.(data := res0.data + resources)
  {
    res := res0;
    var i := 0;
    while i < |resources|
      invariant 0 <= i <= |resources|
      invariant res == res0.(data := res0.data + resources[..i])
    {
      assert resources[..i + 1] == resources[..i] + [resources[i]];
      res := res.(data := res.data + [resources[i]]);
      i := i + 1;
    }
    assert resources[..|resources|] == resources;
  }

  /** `get_filtered_resources($params)` over the rows of the join. The SQL
      string grows one predicate block at a time, the result record is
      filled in stages, and the page rows are appended one by one. */
  method GetFilteredResources(params: Params, rows: seq<Row>, sql: Sql) returns (res: FilteredResult)
    requires SoundOrdering(sql)
    ensures var f := FillFilters(params);
      && res.total == |rows|
      && res.totalFiltered == |Run(rows, Predicates(f), sql)|
      && res.totalFiltered <= res.total
      && res.limit == f.limit && res.page == f.page
      && res.sortby == f.sortby && res.order == f.order
      && res.data == FetchPage(rows, Predicates(f), sql, f.sortby, f.order,
                               (f.page - 1) * f.limit, f.page * f.limit)
      && res.dataCount == |res.data| <= res.totalFiltered
      && (f.page * f.limit >= 0 ==> res.dataCount <= f.page * f.limit)
      && forall r :: r in res.data ==> r in rows && Matches(r, Predicates(f), sql)
  {
    res := FilteredResult(0, 0, 0, 0, "", "", 0, []);
    var filters := FillFilters(params);

    SelectNoPredicates(rows, sql);
    res := res.(total := |Run(rows, [], sql)|);
    var preds := ComposePredicates(filters);

    var limitStart := (filters.page - 1) * filters.limit;
    var limitEnd := filters.page * filters.limit;
    var filtered := Run(rows, preds, sql);
    res := res.(totalFiltered := |filtered|);
    res := res.(limit := filters.limit, page := filters.page);
    res := res.(sortby := filters.sortby, order := filters.order);

    var resources := FetchPage(rows, preds, sql, filters.sortby, filters.order, limitStart, limitEnd);
    FetchPageWithinFiltered(rows, preds, sql, filters.sortby, filters.order, limitStart, limitEnd);
    res := res.(dataCount := |resources|);

    res := AppendRows(res, resources);
    assert res.data == resources && res.dataCount == |resources|;
  }

  // ---------------------------------------------------------------------
  // Properties of the composition

  /** With no predicate every row of the join is selected. */
  lemma {:induction false} SelectNoPredicates(rows: seq<Row>, sql: Sql)
    ensures Select(rows, [], sql) == rows
    ensures Run(rows, [], sql) == rows
  {
    if rows != [] {
      SelectNoPredicates(rows[1..], sql);
      assert [rows[0]] + rows[1..] == rows;
    }
  }

  /** A row matches a concatenation of predicates exactly when it matches
      both parts. */
  lemma MatchesAppend(row: Row, ps: seq<Pred>, qs: seq<Pred>, sql: Sql)
    ensures Matches(row, ps + qs, sql) <==> Matches(row, ps, sql) && Matches(row, qs, sql)
  {
    if Matches(row, ps, sql) && Matches(row, qs, sql) {
      forall i | 0 <= i < |ps + qs| ensures Holds((ps + qs)[i], row, sql) {
        if i >= |ps| {
          assert (ps + qs)[i] == qs[i - |ps|];
        }
      }
    }
    if Matches(row, ps + qs, sql) {
      forall i | 0 <= i < |ps| ensures Holds(ps[i], row, sql) {
        assert (ps + qs)[i] == ps[i];
      }
      forall i | 0 <= i < |qs| ensures Holds(qs[i], row, sql) {
        assert (ps + qs)[|ps| + i] == qs[i];
      }
    }
  }

  /** Predicates are AND-ed: adding predicates selects the rows the earlier
      ones selected and that also satisfy the new ones, in the same order.
      So no filter ever widens the result. */
  lemma {:induction false} SelectConjunction(rows: seq<Row>, ps: seq<Pred>, qs: seq<Pred>, sql: Sql)
    ensures Select(rows, ps + qs, sql) == Select(Select(rows, ps, sql), qs, sql)
    ensures |Select(rows, ps + qs, sql)| <= |Select(rows, ps, sql)|
  {
    if rows != [] {
      var r, tail := rows[0], rows[1..];
      SelectConjunction(tail, ps, qs, sql);
      MatchesAppend(r, ps, qs, sql);
      var inner := Select(rows, ps, sql);
      if Matches(r, ps, sql) {
        assert inner == [r] + Select(tail, ps, sql);
        assert inner != [] && inner[0] == r && inner[1..] == Select(tail, ps, sql);
      } else {
        assert inner == Select(tail, ps, sql);
      }
    }
  }

  /** Every filter value is falsy, so no filter is active. */
  predicate NoActiveFilter(f: Filters) {
    && !Truthy(f.email) && !Truthy(f.currency) && !Truthy(f.paymentMethod)
    && !Truthy(f.promotions) && !Truthy(f.notes) && !Truthy(f.otherInfo)
    && !Truthy(f.socialMedia) && !Truthy(f.mainCategory) && !Truthy(f.otherCategories)
    && !Truthy(f.price) && !Truthy(f.casinoPrice) && !Truthy(f.adultPrice)
    && !Truthy(f.usdPrice) && !Truthy(f.da) && !Truthy(f.dr) && !Truthy(f.rd)
    && !Truthy(f.tr) && !Truthy(f.pa) && !Truthy(f.tf) && !Truthy(f.cf)
    && !Truthy(f.organicKeywords) && !Truthy(f.metricsUpdateDate)
  }

  /** With every filter empty (absent, `""` or `"0"`) no predicate is added,
      and the filtered count equals the total. */
  lemma NoFilterKeepsAllRows(f: Filters, rows: seq<Row>, sql: Sql)
    requires NoActiveFilter(f)
    ensures Predicates(f) == []
    ensures |Run(rows, Predicates(f), sql)| == |rows|
  {
    SelectNoPredicates(rows, sql);
  }

  /** Absent parameters take their defaults: limit 50, page 1, sort by
      `resource`, ascending, and no active filter. */
  lemma Defaults(rows: seq<Row>, sql: Sql)
    ensures var f := FillFilters(Params(None, None, map[]));
      && f.limit == 50 && f.page == 1 && f.sortby == "resource" && f.order == "ASC"
      && NoActiveFilter(f)
      && |Run(rows, Predicates(f), sql)| == |rows|
  {
    NoFilterKeepsAllRows(FillFilters(Params(None, None, map[])), rows, sql);
  }

  /** Every page row comes from the join and matches every predicate, and
      the page is no longer than the filtered result nor than `count`. */
  lemma FetchPageWithinFiltered(rows: seq<Row>, preds: seq<Pred>, sql: Sql,
                                sortby: string, order: string, start: int, count: int)
    requires SoundOrdering(sql)
    ensures var page := FetchPage(rows, preds, sql, sortby, order, start, count);
      && |page| <= |Run(rows, preds, sql)|
      && (count >= 0 ==> |page| <= count)
      && forall r :: r in page ==> r in rows && Matches(r, preds, sql)
  {
    var page := FetchPage(rows, preds, sql, sortby, order, start, count);
    if WellFormed(preds, sql) && start >= 0 && count >= 0 {
      var selected := Select(rows, preds, sql);
      SelectKeepsMatching(rows, preds, sql);
      match sql.orderBy(selected, sortby, order)
      case None =>
      case Some(sorted) =>
        assert multiset(sorted) == multiset(selected);
        assert |sorted| == |multiset(sorted)| == |multiset(selected)| == |selected|;
        forall r | r in page ensures r in rows && Matches(r, preds, sql) {
          var j :| 0 <= j < |page| && page[j] == r;
          assert r in sorted;
          assert r in multiset(sorted);
          assert r in multiset(selected);
        }
    }
  }

  /** A well-formed statement reports every matching row of the join. */
  lemma RunComplete(rows: seq<Row>, preds: seq<Pred>, sql: Sql)
    requires WellFormed(preds, sql)
    ensures forall r :: r in rows && Matches(r, preds, sql) ==> r in Run(rows, preds, sql)
  {
    SelectKeepsMatching(rows, preds, sql);
  }

  /** A page that starts within the filtered result holds `count` rows, or
      all the rows after `start` when fewer remain: `data_count` is
      `min(count, total_filtered - start)`. */
  lemma FetchPageCount(rows: seq<Row>, preds: seq<Pred>, sql: Sql,
                       sortby: string, order: string, start: int, count: int)
    requires SoundOrdering(sql) && WellFormed(preds, sql)
    requires 0 <= start <= |Run(rows, preds, sql)| && 0 <= count
    requires sql.orderBy(Select(rows, preds, sql), sortby, order).Some?
    ensures |FetchPage(rows, preds, sql, sortby, order, start, count)|
            == Min(count, |Run(rows, preds, sql)| - start)
  {
    var selected := Select(rows, preds, sql);
    var sorted := sql.orderBy(selected, sortby, order).value;
    assert multiset(sorted) == multiset(selected);
    assert |sorted| == |multiset(sorted)| == |multiset(selected)| == |selected|;
  }

  /** The listing's statement cuts the ordered result with the window as
      written, `LIMIT (page-1)*limit, page*limit`. */
  lemma ListingIsAsWritten(rows: seq<Row>, preds: seq<Pred>, sql: Sql,
                           sortby: string, order: string, page: nat, limit: nat, sorted: seq<Row>)
    requires page >= 1 && WellFormed(preds, sql)
    requires sql.orderBy(Select(rows, preds, sql), sortby, order) == Some(sorted)
    ensures FetchPage(rows, preds, sql, sortby, order, (page - 1) * limit, page * limit)
            == AsWrittenWindow(sorted, page, limit)
  {
  }

  // ---------------------------------------------------------------------
  // Range and date filters

  /** Each filter adds nothing when its value is falsy, a substring filter
      at most one condition, a range filter at most two, each on its own
      column, and the date filter at most one. */
  lemma ClauseShapes(tf: TextField, nf: NumField, v: string)
    ensures |LikeClause(tf, v)| <= 1 && (LikeClause(tf, v) == [] <==> !Truthy(v))
    ensures |RangeClause(nf, v)| <= 2 && (!Truthy(v) ==> RangeClause(nf, v) == [])
    ensures forall i :: 0 <= i < |RangeClause(nf, v)| ==>
      (RangeClause(nf, v)[i].Ge? || RangeClause(nf, v)[i].Le? || RangeClause(nf, v)[i].Eq?)
      && RangeClause(nf, v)[i].num == nf
    ensures |DateClause(v)| <= 1 && (!Truthy(v) ==> DateClause(v) == [])
    ensures forall i :: 0 <= i < |DateClause(v)| ==> DateClause(v)[i].Between? || DateClause(v)[i].DateEq?
  {
  }

  /** The WHERE clause gets at most 9 + 2 * 12 + 1 conditions besides the
      join condition. */
  lemma PredicatesBound(f: Filters)
    ensures |Predicates(f)| <= 9 + 2 * 12 + 1
  {
    ClauseShapes(Email, Price, f.price);
    ClauseShapes(Email, CasinoPrice, f.casinoPrice);
    ClauseShapes(Email, AdultPrice, f.adultPrice);
    ClauseShapes(Email, UsdPrice, f.usdPrice);
    ClauseShapes(Email, Da, f.da);
    ClauseShapes(Email, Dr, f.dr);
    ClauseShapes(Email, Rd, f.rd);
    ClauseShapes(Email, Tr, f.tr);
    ClauseShapes(Email, Pa, f.pa);
    ClauseShapes(Email, Tf, f.tf);
    ClauseShapes(Email, Cf, f.cf);
    ClauseShapes(Email, OrganicKeywords, f.organicKeywords);
    ClauseShapes(Email, Price, f.metricsUpdateDate);
    ClauseShapes(Email, Price, f.email);
    ClauseShapes(Currency, Price, f.currency);
    ClauseShapes(PaymentMethod, Price, f.paymentMethod);
    ClauseShapes(Promotions, Price, f.promotions);
    ClauseShapes(Notes, Price, f.notes);
    ClauseShapes(OtherInfo, Price, f.otherInfo);
    ClauseShapes(SocialMedia, Price, f.socialMedia);
    ClauseShapes(MainCategory, Price, f.mainCategory);
    ClauseShapes(OtherCategories, Price, f.otherCategories);
  }

  /** A truthy value without `-` is an equality on the whole value. */
  lemma RangeSingle(f: NumField, v: string)
    requires Truthy(v) && '-' !in v
    ensures RangeClause(f, v) == [Eq(f, v)]
  {
    CharOccurs('-', v);
    ExplodeOnePieceIff("-", v);
  }

  /** `lo-hi` with no other `-` is the closed range `lo <= field <= hi`. */
  lemma RangeInterval(f: NumField, lo: string, hi: string)
    requires '-' !in lo && '-' !in hi
    ensures RangeClause(f, lo + "-" + hi) == [Ge(f, lo), Le(f, hi)]
  {
    assert (lo + "-" + hi)[|lo|] == '-';
    ExplodeCharPair('-', lo, hi);
  }

  /** Two or more `-` give nothing: the filter is silently dropped. */
  lemma RangeDropped(f: NumField, v: string)
    requires multiset(v)['-'] >= 2
    ensures RangeClause(f, v) == []
  {
    ExplodeCharCount('-', v);
  }

  /** A closed range keeps exactly the rows whose column lies between the
      two bounds, when both read as numbers. */
  lemma RangeIntervalMeaning(row: Row, f: NumField, lo: string, hi: string, sql: Sql)
    requires '-' !in lo && '-' !in hi
    ensures Matches(row, RangeClause(f, lo + "-" + hi), sql)
        <==> sql.numeral(lo).Some? && sql.numeral(hi).Some?
             && sql.numeral(lo).value <= Num(row, f) <= sql.numeral(hi).value
  {
    RangeInterval(f, lo, hi);
    var ps := [Ge(f, lo), Le(f, hi)];
    if Matches(row, ps, sql) {
      assert Holds(ps[0], row, sql) && Holds(ps[1], row, sql);
    }
  }

  /** A leading `-` leaves an empty lower bound: the clause still holds
      both comparisons. */
  lemma OpenRangeClause(f: NumField, hi: string)
    requires '-' !in hi
    ensures RangeClause(f, "-" + hi) == [Ge(f, ""), Le(f, hi)]
  {
    assert "-" + hi == "" + "-" + hi;
    RangeInterval(f, "", hi);
  }

  /** A price filter `-hi` puts the empty bound into the statement. The
      empty bound is not a numeric literal, so the statement fails and the
      whole listing is empty, whatever the other filters say. */
  lemma OpenRangeEmptiesListing(f: Filters, hi: string, rows: seq<Row>, sql: Sql)
    requires f.price == "-" + hi && '-' !in hi
    requires sql.numeral("").None?
    ensures Run(rows, Predicates(f), sql) == []
  {
    OpenRangeClause(Price, hi);
    var pre := LikeClause(Email, f.email)
      + LikeClause(Currency, f.currency)
      + LikeClause(PaymentMethod, f.paymentMethod)
      + LikeClause(Promotions, f.promotions)
      + LikeClause(Notes, f.notes)
      + LikeClause(OtherInfo, f.otherInfo)
      + LikeClause(SocialMedia, f.socialMedia)
      + LikeClause(MainCategory, f.mainCategory)
      + LikeClause(OtherCategories, f.otherCategories);
    var preds := Predicates(f);
    assert preds[|pre|] == Ge(Price, "");
    assert !WellFormed(preds, sql);
  }

  /** Worked example: `10-50` is the closed range from 10 to 50. */
  lemma RangeExampleInterval(f: NumField)
    ensures RangeClause(f, "10-50") == [Ge(f, "10"), Le(f, "50")]
  {
    assert "10-50" == "10" + "-" + "50";
    RangeInterval(f, "10", "50");
  }

  /** Worked example: `10` is an equality. */
  lemma RangeExampleSingle(f: NumField)
    ensures RangeClause(f, "10") == [Eq(f, "10")]
  {
    RangeSingle(f, "10");
  }

  /** Worked example: `10-20-30` is dropped. */
  lemma RangeExampleDropped(f: NumField)
    ensures RangeClause(f, "10-20-30") == []
  {
    var v := "10" + "-" + "20" + "-" + "30";
    assert multiset(v) == multiset("10") + multiset("-") + multiset("20") + multiset("-") + multiset("30");
    assert multiset(v)['-'] == 2;
    RangeDropped(f, v);
    assert v == "10-20-30";
  }

  /** A truthy date value without `' - '` is an equality on the whole value. */
  lemma DateSingle(v: string)
    requires Truthy(v) && !Occurs(" - ", v)
    ensures DateClause(v) == [DateEq(v)]
  {
    ExplodeOnePieceIff(" - ", v);
  }

  /** `lo - hi`, with `lo` free of spaces and `hi` free of `' - '`, is the
      inclusive range between `lo` and `hi`. */
  lemma DateInterval(lo: string, hi: string)
    requires forall i :: 0 <= i < |lo| ==> !OccursAt(" - ", lo + " - " + hi, i)
    requires !Occurs(" - ", hi)
    ensures DateClause(lo + " - " + hi) == [Between(lo, hi)]
  {
    ExplodeAtFirst(" - ", lo, hi);
    ExplodeWithoutSeparator(" - ", hi);
  }

  /** A space-free first piece cannot hold a `' - '` that starts inside it. */
  lemma SpaceFreePiece(a: string, rest: string)
    requires ' ' !in a
    ensures forall i :: 0 <= i < |a| ==> !OccursAt(" - ", a + " - " + rest, i)
  {
    var s := a + " - " + rest;
    forall i | 0 <= i < |a| ensures !OccursAt(" - ", s, i) {
      assert s[i..i + 3][0] == s[i] == a[i] != ' ';
    }
  }

  /** A value with two or more `' - '`, whose first two pieces `a` and `b`
      are the text before the first and before the second `' - '`, adds no
      date condition. */
  lemma DateDropped(a: string, b: string, c: string)
    requires forall i :: 0 <= i < |a| ==> !OccursAt(" - ", a + " - " + (b + " - " + c), i)
    requires forall i :: 0 <= i < |b| ==> !OccursAt(" - ", b + " - " + c, i)
    ensures DateClause(a + " - " + b + " - " + c) == []
  {
    var rest := b + " - " + c;
    var s := a + " - " + rest;
    assert s == a + " - " + b + " - " + c;
    ExplodeAtFirst(" - ", a, rest);
    ExplodeAtFirst(" - ", b, c);
  }

  /** The date examples: a range and a single day. */
  lemma DateExamples()
    ensures DateClause("2023-01-01 - 2023-01-31") == [Between("2023-01-01", "2023-01-31")]
    ensures DateClause("2023-01-01") == [DateEq("2023-01-01")]
  {
    assert "2023-01-01 - 2023-01-31" == "2023-01-01" + " - " + "2023-01-31";
    forall s | s == "2023-01-31" || s == "2023-01-01" ensures !Occurs(" - ", s) {
      forall i | 0 <= i <= |s| - 3 ensures !OccursAt(" - ", s, i) {
        assert s[i..i + 3][0] == s[i] != ' ';
      }
    }
    SpaceFreePiece("2023-01-01", "2023-01-31");
    DateInterval("2023-01-01", "2023-01-31");
    DateSingle("2023-01-01");
  }

  // ---------------------------------------------------------------------
  // The page window as written, and as intended

  /** The window the listing uses: `LIMIT (page-1)*limit, page*limit`. */
  function AsWrittenWindow(s: seq<Row>, page: nat, limit: nat): seq<Row>
    requires page >= 1
  {
    Window(s, (page - 1) * limit, page * limit)
  }

  /** For `page > 1` the window holds `page*limit` rows, more than `limit`,
      whenever enough rows follow its start. */
  lemma AsWrittenWindowExceedsLimit(s: seq<Row>, page: nat, limit: nat)
    requires page > 1 && limit > 0
    requires |s| >= (page - 1) * limit + page * limit
    ensures |AsWrittenWindow(s, page, limit)| == page * limit > limit
  {
    assert page * limit == limit + (page - 1) * limit;
    assert (page - 1) * limit >= limit;
  }

  /** Consecutive pages overlap for `page > 1`: the row at position
      `page*limit` is the first row of page `page+1` and also row `limit`
      of page `page`. */
  lemma AsWrittenPagesOverlap(s: seq<Row>, page: nat, limit: nat)
    requires page > 1 && limit > 0
    requires |s| > page * limit
    ensures |AsWrittenWindow(s, page, limit)| > limit
    ensures |AsWrittenWindow(s, page + 1, limit)| > 0
    ensures AsWrittenWindow(s, page, limit)[limit] == AsWrittenWindow(s, page + 1, limit)[0] == s[page * limit]
  {
    var start := (page - 1) * limit;
    assert start + limit == page * limit;
    assert start >= limit by {
      assert start == (page - 2) * limit + limit;
    }
    assert (page + 1 - 1) * limit == page * limit;
  }

  /** The intended window: `limit` rows from `(page-1)*limit`. */
  function PageWindow(s: seq<Row>, page: nat, limit: nat): (w: seq<Row>)
    requires page >= 1
    ensures |w| <= limit
  {
    Window(s, (page - 1) * limit, limit)
  }

  /** Page n + 1 starts `limit` rows after page n. */
  lemma NextPageStart(n: nat, limit: nat)
    requires n > 0
    ensures n * limit == (n - 1) * limit + limit
  {
  }

  /** A window continues the prefix that ends where it starts. */
  lemma WindowExtends(s: seq<Row>, start: nat, count: nat)
    ensures s[..Min(start, |s|)] + Window(s, start, count) == s[..Min(start + count, |s|)]
  {
    if start < |s| {
      var next := Min(start + count, |s|);
      assert s[..start] + s[start..next] == s[..next];
    }
  }

  /** Pages 1 to n, one after the other. */
  function Pages(s: seq<Row>, limit: nat, n: nat): seq<Row> {
    if n == 0 then [] else Pages(s, limit, n - 1) + PageWindow(s, n, limit)
  }

  /** The intended pages partition the result: pages 1 to n together are
      exactly its first n*limit rows, each row once and in order. */
  lemma {:induction false} PagesPartition(s: seq<Row>, limit: nat, n: nat)
    ensures Pages(s, limit, n) == s[..Min(n * limit, |s|)]
  {
    if n > 0 {
      PagesPartition(s, limit, n - 1);
      var start := (n - 1) * limit;
      NextPageStart(n, limit);
      WindowExtends(s, start, limit);
      assert Pages(s, limit, n) == s[..Min(start, |s|)] + Window(s, start, limit);
    }
  }
}
