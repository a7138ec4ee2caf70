# Link-building resources API: validation, URL formatting and the filtered listing

This project is a Dafny model of the resource service of a WordPress link-building plugin
(`inc/Services/API/Resources.php`), together with proofs about the model. It covers five
operations of that class:

- **`validate_category`** (module `Categories`): an exact-string lookup of a label in a
  hard-coded list of 42 entries. Two of the entries are repeats, so there are 40 distinct labels.
- **`return_error_code`** (module `Validation`): builds the `{status: 'error', code, message}`
  record. The code defaults to 500.
- **`create_resources_data_from_request`** (module `Validation`): walks the submitted records in
  order and applies nine rules in a fixed order. It returns the error for the first rule broken by
  the first failing record, or the success record. The rules are:
  - `resource` required;
  - `main_category` required;
  - `main_category` is a valid category;
  - each comma-separated piece of `other_categories` is valid;
  - `email` valid;
  - `price` required and numeric;
  - `casino_price` numeric when present;
  - `cbd_price` numeric when present;
  - `adult_price` numeric when present.
- **`format_resource_url`** (module `Urls`): trims the URL, then deletes every `https://`, then
  every `http://`, then every `www.`.
- **`get_filtered_resources`** (module `Query`), in four steps:
  - completes the sparse filter map with its defaults;
  - appends one AND-ed predicate block per truthy filter: substring for nine text columns, a range
    split on `-` for twelve numeric columns, and a range split on `' - '` for the metrics date;
  - counts the whole join and the filtered rows;
  - fetches one sorted page and appends its rows to the result one by one.

  The SQL text is modelled as a list of `Pred` values. The database is modelled as evaluation of
  those predicates over a `seq<Row>` of already-joined provider/resource rows.

Module `Strings` holds the PHP string built-ins these operations rely on, written out exactly:
- truthiness (`""` and `"0"` are false);
- `explode`: leftmost, non-overlapping, and always at least one piece;
- `implode`;
- `str_replace` with one search string;
- `trim` with PHP's default character set ` \t\n\r\0\x0B`.

Module `Wrappers` holds `Option`, which models PHP's `isset` and `??`.

Parts of the environment are parameters:
- The library checks `filter_var(…, FILTER_VALIDATE_EMAIL)` and `is_numeric` are the
  function-valued fields of `Validation.Checks`.
- The database's reading of unquoted numeric bounds, its reading of quoted dates and its
  `ORDER BY` are the fields of `Query.Sql`.
  - A bound that is not a numeric literal, or an ordering the database rejects, makes the statement
    fail.
  - A failed statement reports zero rows, because `$wpdb` resets `num_rows` on an error.
  - `Query.SoundOrdering` states that sorting only reorders rows.

The listing has nine substring filters and twelve numeric range filters. A range value that
splits into two pieces is applied even when a piece is empty (`-5`, `5-`); the empty bound makes
the statement fail. The success code is the PHP string `'200'`; the model uses the integer 200.

## Model

| member | source | states |
|---|---|---|
| Categories.InArray | inc/Services/API/Resources.php:195 | `in_array` over string labels is true exactly when some position of the list holds that exact string |
| Categories.ValidateCategory | inc/Services/API/Resources.php:149-196 | `validate_category`: `in_array` of the label over the 42-entry list; `Categories.ValidateCategoryIsMembership` pins it to membership in the 40 distinct labels |
| Categories.ValidateCategoryIsMembership | inc/Services/API/Resources.php:149-195 | a label validates if and only if it is one of the 40 distinct listed labels, compared as an exact string |
| Categories.RepeatIsIrrelevant | inc/Services/API/Resources.php:195 | removing an entry that also appears earlier in the list changes no lookup result |
| Categories.ListedRepeats | inc/Services/API/Resources.php:150-193 | 'General' is listed at positions 12 and 40 and 'Real Estate' at 20 and 34; dropping the second 'General' changes no lookup |
| Validation.Present | inc/Services/API/Resources.php:110-131 | `isset($v) && $v`: the field is set and truthy |
| Validation.ReturnErrorCode | inc/Services/API/Resources.php:204-211 | the record has status 'error', the given message and the given code (500 by default), and is never the success record |
| Validation.FirstRejected | inc/Services/API/Resources.php:121-125 | a scan that returns at the first rejected label reports nothing exactly when every label is accepted, and otherwise the first rejected label |
| Validation.FirstInvalidCategory | inc/Services/API/Resources.php:121-125 | the inner loop reports nothing exactly when every piece is a valid category; otherwise it reports the first invalid piece |
| Validation.OtherCategoriesError | inc/Services/API/Resources.php:119-126 | the `other_categories` check: nothing for an unset or `""` field, else the first invalid comma-separated piece; `Validation.OtherCategoriesErrorIsInvalidPiece` and `Validation.OtherCategoriesRuleAgrees` pin it |
| Validation.OtherCategoriesErrorIsInvalidPiece | inc/Services/API/Resources.php:119-126 | a reported `other_categories` label comes from a set, non-empty field, is one of its comma-separated pieces, and is not a valid category |
| Validation.RecordError | inc/Services/API/Resources.php:110-141 | one record's rule chain: the message of the first failing `if`, or none; `Validation.RecordAcceptedIff` and `Validation.RecordErrorAtFirstBroken` pin it against the nine rules |
| Validation.CreateResourcesData | inc/Services/API/Resources.php:105-147 | the validator returns either the success record or an error with status 'error' and code 500 |
| Validation.RecordAcceptedIff | inc/Services/API/Resources.php:110-141 | a record passes the rule chain if and only if it satisfies each of the nine rules |
| Validation.OtherCategoriesRuleAgrees | inc/Services/API/Resources.php:119-126 | the other_categories rule, stated over all pieces, holds exactly when the inner loop finds no invalid piece |
| Validation.AllRulesPassAccepted | inc/Services/API/Resources.php:110-141 | a record satisfying all nine rules falls through every check of the chain |
| Validation.FirstBrokenExists | inc/Services/API/Resources.php:110-141 | a record that breaks any rule has a first broken rule in the validator's order |
| Validation.RecordErrorAtFirstBroken | inc/Services/API/Resources.php:110-141 | when a rule is the first one a record breaks, the chain reports exactly that rule's message, with the offending value |
| Validation.RecordRejectedAtFirstBroken | inc/Services/API/Resources.php:110-141 | a rejected record is reported with the message of a rule it breaks while satisfying every earlier rule |
| Validation.BatchSucceedsIff | inc/Services/API/Resources.php:109-146 | the batch returns the success record if and only if every record passes every rule; the empty batch therefore succeeds |
| Validation.BatchReportsFirstFailure | inc/Services/API/Resources.php:109-141 | when record k is the first failing record, the result is `return_error_code` of record k's message, with code 500 |
| Validation.BatchStopsAtFailure | inc/Services/API/Resources.php:109-146 | the validation of a + b is that of a when a fails, and that of b when a succeeds: records after the first failure are never examined |
| Validation.OtherCategoriesAbsentOrEmpty | inc/Services/API/Resources.php:119-126 | an absent or empty other_categories is never checked against the category list |
| Validation.OtherCategoriesNotTrimmed | inc/Services/API/Resources.php:120-122 | the comma split is not trimmed: "Real Estate, General" yields the pieces "Real Estate" and " General", the second with its leading space |
| Validation.ZeroPriceIsMissing | inc/Services/API/Resources.php:130-131 | a price of "0" is falsy, so a record that passes the earlier rules is rejected with "price " . "0" . " is missing or not valid", whatever `is_numeric` says |
| Strings.Truthy | inc/Services/API/Resources.php:110-131 | PHP truthiness of a string: only `""` and `"0"` are false |
| Strings.Explode | inc/Services/API/Resources.php:330 | `explode` always yields at least one piece |
| Strings.ImplodeExplode | inc/Services/API/Resources.php:330 | joining the pieces of `explode` with the separator gives back the original string |
| Strings.ExplodePiecesAreFree | inc/Services/API/Resources.php:330 | no piece of `explode` contains the separator |
| Strings.ExplodeWithoutSeparator | inc/Services/API/Resources.php:334-335 | a string without the separator explodes into itself alone |
| Strings.ExplodeOnePieceIff | inc/Services/API/Resources.php:334 | `explode` yields exactly one piece if and only if the separator does not occur, and that piece is the whole string |
| Strings.ExplodeAtFirst | inc/Services/API/Resources.php:450-452 | when the first occurrence of the separator follows `a`, `explode(sep, a . sep . b)` is `a` followed by the pieces of `b` |
| Strings.ExplodeCharCount | inc/Services/API/Resources.php:330-336 | splitting on one character yields one more piece than the number of times that character occurs |
| Strings.ExplodeCharPair | inc/Services/API/Resources.php:330-333 | `a . c . b` with `c` in neither part splits into exactly `[a, b]` |
| Strings.StrReplace | inc/Services/API/Resources.php:222 | `str_replace` with one search text; replacing a text by itself changes nothing, and `Strings.StrReplaceIsImplodeExplode` pins it to `implode`/`explode` |
| Strings.StrReplaceIsImplodeExplode | inc/Services/API/Resources.php:222 | `str_replace` is `implode(replace, explode(search, s))` |
| Strings.StrReplaceWithoutOccurrence | inc/Services/API/Resources.php:222 | `str_replace` leaves a string without the search text unchanged |
| Strings.StrReplaceLeading | inc/Services/API/Resources.php:222 | deleting a search text that starts the string removes that prefix and then deletes in the rest |
| Strings.StrReplaceDeleteShrinks | inc/Services/API/Resources.php:222 | deleting a text never makes a string longer |
| Strings.Trim | inc/Services/API/Resources.php:222 | `trim` never lengthens, and its result has no trim character at either end; `Strings.TrimIsStrippedSlice` adds that it is a slice with only trim characters removed |
| Strings.TrimLeftIsLongestSuffix | inc/Services/API/Resources.php:222 | the left trim is a suffix that starts with a non-trim character (or is empty), and everything removed is a trim character |
| Strings.TrimRightIsLongestPrefix | inc/Services/API/Resources.php:222 | the right trim is a prefix that ends with a non-trim character (or is empty), and everything removed is a trim character |
| Strings.TrimIsStrippedSlice | inc/Services/API/Resources.php:222 | `trim` returns a slice of the input, removes only trim characters, and leaves no trim character at either end |
| Strings.TrimUntouched | inc/Services/API/Resources.php:222 | a string with no trim character at either end is returned unchanged |
| Strings.TrimIdempotent | inc/Services/API/Resources.php:222 | trimming twice is trimming once |
| Urls.CleanHostUnchanged | inc/Services/API/Resources.php:220-223 | a bare host name without surrounding whitespace or scheme/`www.` text is returned unchanged |
| Urls.WwwHost | inc/Services/API/Resources.php:220-223 | `www.` + host formats to the host |
| Urls.LeadingHttpsDropped | inc/Services/API/Resources.php:220-223 | a leading `https://` in front of any non-empty, already-trimmed URL is dropped: the result is that of the URL without it, further `https://` included |
| Urls.HttpsWwwHost | inc/Services/API/Resources.php:220-223 | `https://www.` + host formats to the host |
| Urls.HttpWwwHost | inc/Services/API/Resources.php:214-223 | `http://www.` + host formats to the host |
| Urls.HttpHost | inc/Services/API/Resources.php:220-223 | `http://` + host formats to the host |
| Urls.SurroundingWhitespaceIgnored | inc/Services/API/Resources.php:220-223 | for every URL, formatting the trimmed URL gives the same result as formatting the URL: surrounding whitespace never matters |
| Urls.FormatResourceUrl | inc/Services/API/Resources.php:214-223 | `format_resource_url`: trim, then delete `https://`, `http://` and `www.`; the result is never longer than the URL, and the lemmas below give its result on each URL shape |
| Query.Param | inc/Services/API/Resources.php:237-262 | `$params[key] ?? default`: the given value when the key is present, the default otherwise |
| Query.FillFilters | inc/Services/API/Resources.php:237-262 | `$params[key] ?? default` for every key; `Query.FillFiltersCoalesces` states both halves for all 26 keys |
| Query.FillFiltersCoalesces | inc/Services/API/Resources.php:237-262 | every given parameter is kept as given, and every absent one takes its default: limit 50, page 1, sortby `resource`, order `ASC`, and `""` for each of the 22 filters |
| Query.LikeClause | inc/Services/API/Resources.php:301-327 | a substring filter adds `LIKE '%v%'` on its column when the value is truthy; `Query.ClauseShapes` pins its size |
| Query.RangeClause | inc/Services/API/Resources.php:329-447 | a numeric filter splits on `-`: two pieces give `>=` and `<=`, one gives `=`, more give nothing; `Query.RangeSingle`, `Query.RangeInterval` and `Query.RangeDropped` pin each case |
| Query.DateClause | inc/Services/API/Resources.php:449-456 | the date filter splits on `' - '`: two pieces give `between`, one gives `=`, more give nothing; `Query.DateSingle`, `Query.DateInterval` and `Query.DateDropped` pin each case, with the first piece(s) being exactly the text before the first (second) `' - '` |
| Query.Predicates | inc/Services/API/Resources.php:301-456 | the conjunction of all filter clauses in the order of the code; `Query.PredicatesBound`, `Query.NoFilterKeepsAllRows` and `Query.OpenRangeEmptiesListing` state what it adds |
| Query.ClauseShapes | inc/Services/API/Resources.php:301-456 | a falsy value adds nothing; a substring filter adds at most one condition and is empty only for a falsy value; a range filter adds at most two comparisons, all on its own column; the date filter adds at most one date condition |
| Query.PredicatesBound | inc/Services/API/Resources.php:301-456 | the WHERE clause never gets more than 9 + 2 * 12 + 1 filter conditions |
| Query.Run | inc/Services/API/Resources.php:460-461 | the rows `$wpdb` reports: never more than the join, only rows of the join that match every condition, and none when a bound is not a number; `Query.RunComplete` adds that a well-formed statement reports every matching row |
| Query.RunComplete | inc/Services/API/Resources.php:460-461 | a well-formed statement reports every row of the join that matches every condition |
| Query.FetchPage | inc/Services/API/Resources.php:465-469 | the ordered, limited statement: no rows when it fails or a `LIMIT` argument is negative, never more rows than the `LIMIT` count; `Query.FetchPageCount` gives its exact size and `Query.ListingIsAsWritten` its rows |
| Query.FetchPageCount | inc/Services/API/Resources.php:465-469 | a page starting within the filtered result holds `min(count, total_filtered - start)` rows: `data_count` is the `LIMIT` count, or all remaining rows on a last partial page |
| Query.ListingIsAsWritten | inc/Services/API/Resources.php:458-469 | the listing's page is exactly the as-written window `LIMIT (page-1)*limit, page*limit` of the ordered result |
| Query.Select | inc/Services/API/Resources.php:460-461 | the filtered result is never larger than the join it filters |
| Query.SelectKeepsMatching | inc/Services/API/Resources.php:297-327 | a row is in the filtered result if and only if it is in the join and satisfies every predicate |
| Query.Window | inc/Services/API/Resources.php:467 | `LIMIT start, count` yields at most `count` rows, all of them taken in order from position `start`; when `start` is within the result it yields exactly `min(count, rows remaining)` rows, so the last partial page is returned whole |
| Query.ComposePredicates | inc/Services/API/Resources.php:301-456 | appending the filter blocks one at a time, in the order of the code's `if` statements, yields the whole conjunction of the completed filters |
| Query.AppendRows | inc/Services/API/Resources.php:470-472 | the final loop appends every fetched row to `data`, in order, and changes nothing else in the result |
| Query.GetFilteredResources | inc/Services/API/Resources.php:232-474 | the result holds: `total` = rows of the join; `total_filtered` = rows matching the composed predicates, at most `total`; the filled limit, page, sortby and order; `data` = the sorted rows cut at `(page-1)*limit, page*limit`; `data_count` = size of `data`, at most `total_filtered` and at most `page*limit`; and every row in `data` is a matching row of the join |
| Query.SelectNoPredicates | inc/Services/API/Resources.php:297-300 | with no filter predicate the query returns every row of the join |
| Query.MatchesAppend | inc/Services/API/Resources.php:301-456 | a row satisfies appended predicate blocks if and only if it satisfies each block |
| Query.SelectConjunction | inc/Services/API/Resources.php:301-456 | appending predicates filters the earlier result further, in order, so a filter never widens the result |
| Query.NoFilterKeepsAllRows | inc/Services/API/Resources.php:301-461 | when every filter value is falsy (absent, "" or "0") no predicate is added and `total_filtered` equals `total` |
| Query.Defaults | inc/Services/API/Resources.php:237-262 | an empty parameter map gives limit 50, page 1, sortby 'resource', order 'ASC' and no active filter |
| Query.FetchPageWithinFiltered | inc/Services/API/Resources.php:466-469 | the page holds only matching rows of the join, no more rows than the filtered count and no more than the LIMIT count |
| Query.RangeSingle | inc/Services/API/Resources.php:334-335 | a truthy range value without `-` adds exactly `field = value` |
| Query.RangeInterval | inc/Services/API/Resources.php:330-333 | `lo-hi` with no other `-` adds exactly `field >= lo` and `field <= hi` |
| Query.RangeDropped | inc/Services/API/Resources.php:330-336 | a range value with two or more `-` adds nothing |
| Query.RangeIntervalMeaning | inc/Services/API/Resources.php:332-333 | a row passes `lo-hi` if and only if both bounds are numbers and the column lies between them, inclusive |
| Query.OpenRangeClause | inc/Services/API/Resources.php:329-333 | `-hi` splits into an empty lower bound and `hi`, and both comparisons are added |
| Query.OpenRangeEmptiesListing | inc/Services/API/Resources.php:301-333 | a price filter `-hi` puts an empty bound into the statement, which then fails, so the composed filtered listing is empty whatever the other filters are |
| Query.RangeExampleInterval | inc/Services/API/Resources.php:330-333 | `10-50` adds `field >= 10` and `field <= 50` |
| Query.RangeExampleSingle | inc/Services/API/Resources.php:334-335 | `10` adds `field = 10` |
| Query.RangeExampleDropped | inc/Services/API/Resources.php:330-336 | `10-20-30` splits into three pieces and adds nothing |
| Query.DateSingle | inc/Services/API/Resources.php:453-454 | a truthy date value without `' - '` adds exactly `metrics_update_date = value` |
| Query.DateInterval | inc/Services/API/Resources.php:450-452 | `lo - hi`, where no `' - '` starts inside `lo` and none occurs in `hi`, adds exactly `metrics_update_date between lo and hi` |
| Query.DateDropped | inc/Services/API/Resources.php:449-455 | a date value with two or more `' - '`, split at its first two, adds no date condition |
| Query.DateExamples | inc/Services/API/Resources.php:449-456 | `2023-01-01 - 2023-01-31` is a between-range and `2023-01-01` an equality |
| Query.AsWrittenWindowExceedsLimit | inc/Services/API/Resources.php:458-467 | as written, for page > 1 the window holds `page*limit` rows, more than `limit` |
| Query.AsWrittenPagesOverlap | inc/Services/API/Resources.php:458-467 | as written, for page > 1 the row at position `page*limit` is returned both on page `page` and on page `page+1` |
| Query.PageWindow | inc/Services/API/Resources.php:458-467 | the intended window `(page-1)*limit, limit` never holds more than `limit` rows |
| Query.PagesPartition | inc/Services/API/Resources.php:458-467 | intended pages 1 to n, concatenated, are exactly the first `n*limit` rows, each once and in order |

## Left out

- The WordPress plumbing is not modelled: `register`, `register_routes`, the `*_permissions_check`
  wrappers, and the `get_resources` and `create_resource` handlers. `create_resource` passes the
  `data` parameter where the validator expects a request object, so the validator is modelled
  directly over the record sequence.
- The SQL text, the table prefix, the escaping and the injection through unescaped values (including
  the `ORDER BY` column and direction) are not modelled. Predicates are data. The sort column and
  direction reach the `orderBy` parameter as given.
- `LIKE` wildcards (`%` and `_` inside a value), collation and case-insensitivity are not modelled.
  A `LIKE` is a plain substring test.
- Decimal prices are modelled as integers. How the database compares a date column with a quoted
  string is the `day` parameter.
- The internals of `FILTER_VALIDATE_EMAIL` and `is_numeric` are not modelled; they are parameters.
- Validation.Record: every field is absent or a string. Arrays, numbers and PHP's loose comparison
  of numeric strings in `in_array` are not modelled. No listed label is numeric, so the comparison is
  exact.
- Validation.CreateResourcesData: the success code is the PHP string `'200'`. The model uses the
  integer 200.
- Query.Params: `limit` and `page` are integers. Non-numeric values, which make PHP's arithmetic
  throw, are not modelled.
- Query.GetFilteredResources: when the page is empty, PHP never creates the `data` key. The model
  has `data` equal to the empty sequence.
- Query.GetFilteredResources: the three statements are issued one after another against the same
  rows. Concurrent writes between them are not modelled.
- The update, delete and single-lookup handlers are not part of this model.

## Findings

| source | as written | input that shows it | evidently intended | confidence | as-written member | corrected member |
|---|---|---|---|---|---|---|
| inc/Services/API/Resources.php:458-467 | `LIMIT (page-1)*limit, page*limit`: the second LIMIT argument is a row count, but it is computed as an end position | page = 2, limit = 10, 40 matching rows: the page returns rows 10 to 29 (20 rows), and rows 20 to 29 are returned again on page 3 | `LIMIT (page-1)*limit, limit`: each page has at most `limit` rows and consecutive pages partition the result | high (not executed) | Query.AsWrittenPagesOverlap | Query.PagesPartition |

`Query.GetFilteredResources` keeps the code's window, so that its contract describes the listing as
it behaves; `Query.ListingIsAsWritten` ties that window to `Query.AsWrittenWindow`. `Query.PageWindow` and `Query.PagesPartition` give the intended window and its proof.
