/** The batch input validator of the resource API
    (`Resources::create_resources_data_from_request` and
    `Resources::return_error_code`): records are checked in order against a
    fixed chain of rules, and the first failure is reported. */
module Validation {
  import opened Wrappers
  import opened Strings
  import opened Categories

  /** One submitted resource record. Each field is absent (`None`, PHP's
      unset or null) or a string. Fields the validator never reads are not
      modelled. */
  datatype Record = Record(
    resource: Option<string>,
    mainCategory: Option<string>,
    otherCategories: Option<string>,
    email: Option<string>,
    price: Option<string>,
    casinoPrice: Option<string>,
    cbdPrice: Option<string>,
    adultPrice: Option<string>)

  /** The two PHP library checks the validator calls:
      `filter_var($v, FILTER_VALIDATE_EMAIL)` and `is_numeric($v)`.
      Their internals are not modelled; they are given as parameters. */
  datatype Checks = Checks(validEmail: string -> bool, isNumeric: string -> bool)

  /** The `{status, code, message}` record the validator returns. */
  datatype Response = Response(status: string, code: int, message: string)

  /** The record returned when every record passes every rule. */
  const Success := Response("success", 200, "Requested successfully!")

  /** `return_error_code($message, $code = 500)`. */
  function ReturnErrorCode(message: string, code: int := 500): (r: Response)
    ensures r.status == "error" && r.message == message && r.code == code
    ensures r != Success
  {
    Response("error", code, message)
  }

  /** `isset($v) && $v`: present and truthy. */
  predicate Present(v: Option<string>) {
    v.Some? && Truthy(v.value)
  }

  /** `k` is the position of the first label in `parts` that `valid`
      rejects. */
  predicate FirstRejectedAt(parts: seq<string>, k: int, valid: string -> bool) {
    && 0 <= k < |parts|
    && !valid(parts[k])
    && forall j :: 0 <= j < k ==> valid(parts[j])
  }

  /** A `foreach` over `parts` that returns at the first label `valid`
      rejects. */
  function FirstRejected(parts: seq<string>, valid: string -> bool): (bad: Option<string>)
    ensures bad.None? <==> forall i :: 0 <= i < |parts| ==> valid(parts[i])
    ensures bad.Some? ==> exists k :: FirstRejectedAt(parts, k, valid) && parts[k] == bad.value
  {
    if parts == [] then None
    else if !valid(parts[0]) then
      assert FirstRejectedAt(parts, 0, valid);
      Some(parts[0])
    else
      var bad := FirstRejected(parts[1..], valid);
      assert forall i :: 1 <= i < |parts| ==> parts[i] == parts[1..][i - 1];
      assert bad.Some? ==> exists k :: FirstRejectedAt(parts, k, valid) && parts[k] == bad.value by {
        if bad.Some? {
          var k :| FirstRejectedAt(parts[1..], k, valid) && parts[1..][k] == bad.value;
          assert FirstRejectedAt(parts, k + 1, valid);
        }
      }
      bad
  }

  /** `k` is the position of the first label in `parts` that is not a valid
      category. */
  predicate FirstInvalidAt(parts: seq<string>, k: int) {
    && 0 <= k < |parts|
    && !ValidateCategory(parts[k])
    && forall j :: 0 <= j < k ==> ValidateCategory(parts[j])
  }

  /** The inner `foreach` over the comma-split `other_categories`, which
      returns at the first invalid label. */
  function FirstInvalidCategory(parts: seq<string>): (bad: Option<string>)
    ensures bad.None? <==> forall i :: 0 <= i < |parts| ==> ValidateCategory(parts[i])
    ensures bad.Some? ==> exists k :: FirstInvalidAt(parts, k) && parts[k] == bad.value
  {
    var bad := FirstRejected(parts, ValidateCategory);
    assert bad.Some? ==> exists k :: FirstInvalidAt(parts, k) && parts[k] == bad.value by {
      if bad.Some? {
        var k :| FirstRejectedAt(parts, k, ValidateCategory) && parts[k] == bad.value;
        assert FirstInvalidAt(parts, k);
      }
    }
    bad
  }

  /** The `other_categories` check: skipped when the field is absent or
      `""`, otherwise the first invalid comma-separated label, untrimmed. */
  function OtherCategoriesError(otherCategories: Option<string>): Option<string> {
    if otherCategories.Some? && otherCategories.value != "" then
      FirstInvalidCategory(Explode(",", otherCategories.value))
    else None
  }

  /** The rule chain of one loop iteration: the message of the first rule
      the record breaks, or `None`. */
  function RecordError(r: Record, checks: Checks): Option<string> {
    if !Present(r.resource) then
      Some("resource field is required")
    else if !Present(r.mainCategory) then
      Some("main_category field is required")
    else if !ValidateCategory(r.mainCategory.value) then
      Some("main_category " + r.mainCategory.value + " is not valid")
    else if OtherCategoriesError(r.otherCategories).Some? then
      Some("other_categories " + OtherCategoriesError(r.otherCategories).value + " is not valid")
    else if !Present(r.email) || !checks.validEmail(r.email.value) then
      Some("email " + r.email.GetOr("") + " is missing or not valid")
    else if !Present(r.price) || !checks.isNumeric(r.price.value) then
      Some("price " + r.price.GetOr("") + " is missing or not valid")
    else if r.casinoPrice.Some? && !checks.isNumeric(r.casinoPrice.value) then
      Some("casino_price " + r.casinoPrice.value + " is not valid")
    else if r.cbdPrice.Some? && !checks.isNumeric(r.cbdPrice.value) then
      Some("cbd_price " + r.cbdPrice.value + " is not valid")
    else if r.adultPrice.Some? && !checks.isNumeric(r.adultPrice.value) then
      Some("adult_price " + r.adultPrice.value + " is not valid")
    else
      None
  }

  /** `create_resources_data_from_request` over the submitted records: the
      error for the first failing record, or the success record. */
  function CreateResourcesData(records: seq<Record>, checks: Checks): (res: Response)
    ensures res == Success || (res.status == "error" && res.code == 500)
  {
    if records == [] then Success
    else match RecordError(records[0], checks)
      case Some(message) => ReturnErrorCode(message)
      case None => CreateResourcesData(records[1..], checks)
  }

  // ---------------------------------------------------------------------
  // The rules, stated one by one, as an independent reference

  /** The nine rules. `Rank` gives the order the validator applies them in. */
  datatype Rule =
    | ResourceRequired
    | MainCategoryRequired
    | MainCategoryValid
    | OtherCategoriesValid
    | EmailValid
    | PriceValid
    | CasinoPriceValid
    | CbdPriceValid
    | AdultPriceValid

  /** The position of a rule in the validator's order, from 0. */
  function Rank(rule: Rule): nat {
    match rule
    case ResourceRequired => 0
    case MainCategoryRequired => 1
    case MainCategoryValid => 2
    case OtherCategoriesValid => 3
    case EmailValid => 4
    case PriceValid => 5
    case CasinoPriceValid => 6
    case CbdPriceValid => 7
    case AdultPriceValid => 8
  }

  /** What each rule demands of a record, on its own. */
  predicate Passes(rule: Rule, r: Record, checks: Checks) {
    match rule
    case ResourceRequired => Present(r.resource)
    case MainCategoryRequired => Present(r.mainCategory)
    case MainCategoryValid => ValidateCategory(r.mainCategory.GetOr(""))
    case OtherCategoriesValid =>
      r.otherCategories.None? || r.otherCategories.value == "" ||
      var labels := Explode(",", r.otherCategories.value);
      forall i :: 0 <= i < |labels| ==> ValidateCategory(labels[i])
    case EmailValid => Present(r.email) && checks.validEmail(r.email.value)
    case PriceValid => Present(r.price) && checks.isNumeric(r.price.value)
    case CasinoPriceValid => r.casinoPrice.None? || checks.isNumeric(r.casinoPrice.value)
    case CbdPriceValid => r.cbdPrice.None? || checks.isNumeric(r.cbdPrice.value)
    case AdultPriceValid => r.adultPrice.None? || checks.isNumeric(r.adultPrice.value)
  }

  /** The message reported when a rule fails. */
  function Message(rule: Rule, r: Record): string {
    match rule
    case ResourceRequired => "resource field is required"
    case MainCategoryRequired => "main_category field is required"
    case MainCategoryValid => "main_category " + r.mainCategory.GetOr("") + " is not valid"
    case OtherCategoriesValid =>
      "other_categories " + OtherCategoriesError(r.otherCategories).GetOr("") + " is not valid"
    case EmailValid => "email " + r.email.GetOr("") + " is missing or not valid"
    case PriceValid => "price " + r.price.GetOr("") + " is missing or not valid"
    case CasinoPriceValid => "casino_price " + r.casinoPrice.GetOr("") + " is not valid"
    case CbdPriceValid => "cbd_price " + r.cbdPrice.GetOr("") + " is not valid"
    case AdultPriceValid => "adult_price " + r.adultPrice.GetOr("") + " is not valid"
  }

  /** The `other_categories` rule holds exactly when the inner loop finds
      no invalid label. */
  lemma OtherCategoriesRuleAgrees(r: Record, checks: Checks)
    ensures Passes(OtherCategoriesValid, r, checks) <==> OtherCategoriesError(r.otherCategories).None?
  {
  }

  /** The `other_categories` check reports only for a set, non-empty field,
      and what it reports is one of the comma-separated pieces and not a
      valid category. */
  lemma OtherCategoriesErrorIsInvalidPiece(otherCategories: Option<string>)
    ensures var bad := OtherCategoriesError(otherCategories);
      bad.Some? ==>
        && otherCategories.Some? && otherCategories.value != ""
        && bad.value in Explode(",", otherCategories.value)
        && !ValidateCategory(bad.value)
  {
    if otherCategories.Some? && otherCategories.value != "" {
      var parts := Explode(",", otherCategories.value);
      var bad := FirstInvalidCategory(parts);
      if bad.Some? {
        var k :| FirstInvalidAt(parts, k) && parts[k] == bad.value;
      }
    }
  }

  /** `rule` is the first rule, in the validator's order, that `r` breaks. */
  predicate FirstBroken(rule: Rule, r: Record, checks: Checks) {
    && !Passes(rule, r, checks)
    && forall earlier :: Rank(earlier) < Rank(rule) ==> Passes(earlier, r, checks)
  }

  /** A record that satisfies all nine rules passes the rule chain. */
  lemma AllRulesPassAccepted(r: Record, checks: Checks)
    requires forall rule :: Passes(rule, r, checks)
    ensures RecordError(r, checks).None?
  {
    assert Passes(ResourceRequired, r, checks) && Passes(MainCategoryRequired, r, checks);
    assert Passes(MainCategoryValid, r, checks) && Passes(OtherCategoriesValid, r, checks);
    assert Passes(EmailValid, r, checks) && Passes(PriceValid, r, checks);
    assert Passes(CasinoPriceValid, r, checks) && Passes(CbdPriceValid, r, checks);
    assert Passes(AdultPriceValid, r, checks);
    OtherCategoriesRuleAgrees(r, checks);
  }

  /** A record that breaks some rule has a first broken rule. */
  lemma FirstBrokenExists(r: Record, checks: Checks, broken: Rule)
    requires !Passes(broken, r, checks)
    ensures exists rule :: FirstBroken(rule, r, checks)
  {
    if !Passes(ResourceRequired, r, checks) {
      assert FirstBroken(ResourceRequired, r, checks);
    } else if !Passes(MainCategoryRequired, r, checks) {
      forall earlier | Rank(earlier) < 1 ensures Passes(earlier, r, checks) { }
      assert FirstBroken(MainCategoryRequired, r, checks);
    } else if !Passes(MainCategoryValid, r, checks) {
      forall earlier | Rank(earlier) < 2 ensures Passes(earlier, r, checks) { }
      assert FirstBroken(MainCategoryValid, r, checks);
    } else if !Passes(OtherCategoriesValid, r, checks) {
      forall earlier | Rank(earlier) < 3 ensures Passes(earlier, r, checks) { }
      assert FirstBroken(OtherCategoriesValid, r, checks);
    } else if !Passes(EmailValid, r, checks) {
      forall earlier | Rank(earlier) < 4 ensures Passes(earlier, r, checks) { }
      assert FirstBroken(EmailValid, r, checks);
    } else if !Passes(PriceValid, r, checks) {
      forall earlier | Rank(earlier) < 5 ensures Passes(earlier, r, checks) { }
      assert FirstBroken(PriceValid, r, checks);
    } else if !Passes(CasinoPriceValid, r, checks) {
      forall earlier | Rank(earlier) < 6 ensures Passes(earlier, r, checks) { }
      assert FirstBroken(CasinoPriceValid, r, checks);
    } else if !Passes(CbdPriceValid, r, checks) {
      forall earlier | Rank(earlier) < 7 ensures Passes(earlier, r, checks) { }
      assert FirstBroken(CbdPriceValid, r, checks);
    } else {
      forall earlier | Rank(earlier) < 8 ensures Passes(earlier, r, checks) { }
      assert FirstBroken(AdultPriceValid, r, checks);
    }
  }

  /** When `rule` is the first rule the record breaks, the rule chain
      reports exactly that rule's message. */
  lemma RecordErrorAtFirstBroken(r: Record, checks: Checks, rule: Rule)
    requires FirstBroken(rule, r, checks)
    ensures RecordError(r, checks) == Some(Message(rule, r))
  {
    if Rank(rule) < 3 {
      RequiredRulesReported(r, checks, rule);
    } else if Rank(rule) < 6 {
      CategoryAndPriceRulesReported(r, checks, rule);
    } else {
      OptionalPriceRulesReported(r, checks, rule);
    }
  }

  /** `RecordErrorAtFirstBroken` for the three `resource` and `main_category` rules. */
  lemma RequiredRulesReported(r: Record, checks: Checks, rule: Rule)
    requires FirstBroken(rule, r, checks) && Rank(rule) < 3
    ensures RecordError(r, checks) == Some(Message(rule, r))
  {
    match rule
    case ResourceRequired =>
    case MainCategoryRequired =>
      assert Passes(ResourceRequired, r, checks);
    case MainCategoryValid =>
      assert Passes(ResourceRequired, r, checks) && Passes(MainCategoryRequired, r, checks);
    case OtherCategoriesValid | EmailValid | PriceValid | CasinoPriceValid | CbdPriceValid | AdultPriceValid =>
  }

  /** `RecordErrorAtFirstBroken` for the `other_categories`, `email` and `price` rules. */
  lemma CategoryAndPriceRulesReported(r: Record, checks: Checks, rule: Rule)
    requires FirstBroken(rule, r, checks) && 3 <= Rank(rule) < 6
    ensures RecordError(r, checks) == Some(Message(rule, r))
  {
    match rule
    case OtherCategoriesValid =>
      assert Passes(ResourceRequired, r, checks) && Passes(MainCategoryRequired, r, checks) && Passes(MainCategoryValid, r, checks);
      OtherCategoriesRuleAgrees(r, checks);
    case EmailValid =>
      assert Passes(ResourceRequired, r, checks) && Passes(MainCategoryRequired, r, checks) && Passes(MainCategoryValid, r, checks);
      assert Passes(OtherCategoriesValid, r, checks);
      OtherCategoriesRuleAgrees(r, checks);
    case PriceValid =>
      assert Passes(ResourceRequired, r, checks) && Passes(MainCategoryRequired, r, checks) && Passes(MainCategoryValid, r, checks);
      assert Passes(OtherCategoriesValid, r, checks) && Passes(EmailValid, r, checks);
      OtherCategoriesRuleAgrees(r, checks);
    case ResourceRequired | MainCategoryRequired | MainCategoryValid | CasinoPriceValid | CbdPriceValid | AdultPriceValid =>
  }

  /** `RecordErrorAtFirstBroken` for the three optional price rules. */
  lemma OptionalPriceRulesReported(r: Record, checks: Checks, rule: Rule)
    requires FirstBroken(rule, r, checks) && 6 <= Rank(rule)
    ensures RecordError(r, checks) == Some(Message(rule, r))
  {
    match rule
    case CasinoPriceValid => CasinoPriceReported(r, checks);
    case CbdPriceValid => CbdPriceReported(r, checks);
    case AdultPriceValid => AdultPriceReported(r, checks);
    case ResourceRequired | MainCategoryRequired | MainCategoryValid | OtherCategoriesValid | EmailValid | PriceValid =>
  }

  /** The six mandatory rules pass, so only the optional prices can be
      reported, in their order. */
  lemma MandatoryRulesPassed(r: Record, checks: Checks)
    requires forall earlier :: Rank(earlier) < 6 ==> Passes(earlier, r, checks)
    ensures RecordError(r, checks) ==
      if !Passes(CasinoPriceValid, r, checks) then Some(Message(CasinoPriceValid, r))
      else if !Passes(CbdPriceValid, r, checks) then Some(Message(CbdPriceValid, r))
      else if !Passes(AdultPriceValid, r, checks) then Some(Message(AdultPriceValid, r))
      else None
  {
    assert Passes(ResourceRequired, r, checks) && Passes(MainCategoryRequired, r, checks) && Passes(MainCategoryValid, r, checks);
    assert Passes(OtherCategoriesValid, r, checks) && Passes(EmailValid, r, checks) && Passes(PriceValid, r, checks);
    OtherCategoriesRuleAgrees(r, checks);
  }

  lemma CasinoPriceReported(r: Record, checks: Checks)
    requires FirstBroken(CasinoPriceValid, r, checks)
    ensures RecordError(r, checks) == Some(Message(CasinoPriceValid, r))
  {
    MandatoryRulesPassed(r, checks);
  }

  lemma CbdPriceReported(r: Record, checks: Checks)
    requires FirstBroken(CbdPriceValid, r, checks)
    ensures RecordError(r, checks) == Some(Message(CbdPriceValid, r))
  {
    MandatoryRulesPassed(r, checks);
    assert Passes(CasinoPriceValid, r, checks);
  }

  lemma AdultPriceReported(r: Record, checks: Checks)
    requires FirstBroken(AdultPriceValid, r, checks)
    ensures RecordError(r, checks) == Some(Message(AdultPriceValid, r))
  {
    MandatoryRulesPassed(r, checks);
    assert Passes(CasinoPriceValid, r, checks) && Passes(CbdPriceValid, r, checks);
  }

  /** A record is accepted exactly when it passes all nine rules. */
  lemma RecordAcceptedIff(r: Record, checks: Checks)
    ensures RecordError(r, checks).None? <==> forall rule :: Passes(rule, r, checks)
  {
    if forall rule :: Passes(rule, r, checks) {
      AllRulesPassAccepted(r, checks);
    } else {
      var broken :| !Passes(broken, r, checks);
      FirstBrokenExists(r, checks, broken);
      var rule :| FirstBroken(rule, r, checks);
      RecordErrorAtFirstBroken(r, checks, rule);
    }
  }

  /** A rejected record is reported with the message of the first rule, in
      the validator's order, that it breaks. */
  lemma RecordRejectedAtFirstBroken(r: Record, checks: Checks)
    requires RecordError(r, checks).Some?
    ensures exists rule :: FirstBroken(rule, r, checks) && RecordError(r, checks).value == Message(rule, r)
  {
    RecordAcceptedIff(r, checks);
    var broken :| !Passes(broken, r, checks);
    FirstBrokenExists(r, checks, broken);
    var rule :| FirstBroken(rule, r, checks);
    RecordErrorAtFirstBroken(r, checks, rule);
  }

  // ---------------------------------------------------------------------
  // The batch

  /** The batch succeeds if and only if every record passes every rule; in
      particular the empty batch succeeds. */
  lemma {:induction false} BatchSucceedsIff(records: seq<Record>, checks: Checks)
    ensures CreateResourcesData(records, checks) == Success
        <==> forall i :: 0 <= i < |records| ==> RecordError(records[i], checks).None?
  {
    if records != [] {
      BatchSucceedsIff(records[1..], checks);
      assert forall i :: 1 <= i < |records| ==> records[i] == records[1..][i - 1];
    }
  }

  /** When record `k` is the first that fails, the batch reports record
      `k`'s error with code 500. */
  lemma {:induction false} BatchReportsFirstFailure(records: seq<Record>, checks: Checks, k: nat)
    requires k < |records|
    requires forall j :: 0 <= j < k ==> RecordError(records[j], checks).None?
    requires RecordError(records[k], checks).Some?
    ensures CreateResourcesData(records, checks) == ReturnErrorCode(RecordError(records[k], checks).value)
    ensures CreateResourcesData(records, checks).code == 500
  {
    if k > 0 {
      assert forall j :: 0 <= j < k - 1 ==> records[1..][j] == records[j + 1];
      BatchReportsFirstFailure(records[1..], checks, k - 1);
    }
  }

  /** Records after a failing prefix are never examined: the result for
      `a + b` is that for `a` unless `a` succeeds, in which case it is that
      for `b`. */
  lemma {:induction false} BatchStopsAtFailure(a: seq<Record>, b: seq<Record>, checks: Checks)
    ensures CreateResourcesData(a + b, checks)
         == if CreateResourcesData(a, checks) == Success then CreateResourcesData(b, checks)
            else CreateResourcesData(a, checks)
  {
    if a == [] {
      assert a + b == b;
    } else {
      assert (a + b)[0] == a[0];
      assert (a + b)[1..] == a[1..] + b;
      BatchStopsAtFailure(a[1..], b, checks);
    }
  }

  /** An absent `other_categories` and an empty one are treated alike: no
      label check is made. */
  lemma OtherCategoriesAbsentOrEmpty(r: Record, checks: Checks)
    ensures RecordError(r.(otherCategories := None), checks)
         == RecordError(r.(otherCategories := Some("")), checks)
    ensures Passes(OtherCategoriesValid, r.(otherCategories := Some("")), checks)
  {
  }

  /** Labels in `other_categories` are split on bare commas and not trimmed:
      a space after the comma stays part of the next label. */
  lemma OtherCategoriesNotTrimmed()
    ensures Explode(",", "Real Estate, General") == ["Real Estate", " General"]
  {
    assert "Real Estate, General" == "Real Estate" + [','] + " General";
    ExplodeCharPair(',', "Real Estate", " General");
  }

  /** PHP truthiness makes a price of `"0"` count as missing, whatever
      `is_numeric` says, once the earlier rules pass. */
  lemma ZeroPriceIsMissing(r: Record, checks: Checks)
    requires forall rule :: Rank(rule) < Rank(PriceValid) ==> Passes(rule, r, checks)
    requires r.price == Some("0")
    ensures RecordError(r, checks) == Some("price " + "0" + " is missing or not valid")
  {
    assert Passes(ResourceRequired, r, checks) && Passes(MainCategoryRequired, r, checks);
    assert Passes(MainCategoryValid, r, checks) && Passes(OtherCategoriesValid, r, checks);
    assert Passes(EmailValid, r, checks);
    OtherCategoriesRuleAgrees(r, checks);
  }
}
