/**
  StoreRegionRequest: the rules a region-creation request is validated
  against (always name, code, description and stage, plus the payload rules
  of the requested stage) and the custom error messages.
*/
module RegionRequest {
  import opened Wrappers
  import opened Validation
  import Stages

  const NameRules: seq<Rule> := [Required, IsString, Max(255)]
  const CodeRules: seq<Rule> := [Required, IsString, Max(50), Unique("regions", "code")]
  const DescriptionRules: seq<Rule> := [Nullable, IsString]
  const StageRules: seq<Rule> := [Required, In(Stages.StageNames)]

  /** The attributes validated whatever the stage. */
  const BaseKeys: set<Path> := {["name"], ["code"], ["description"], ["stage"]}

  /** The common attributes are top-level ones. */
  lemma BaseKeyIsTop(p: Path)
    requires p in BaseKeys
    ensures |p| == 1 && p == [p[0]]
  {
  }

  /** The per-stage payload attributes. */
  const PayloadKeys: set<string> := {"boundaries", "design_data", "rab_data", "permits_data"}

  /** The stage the rule selection switches on: the `stage` input, or
      `"data"` when the request has none. */
  function SelectedStage(input: map<string, Value>): (stage: Value)
    ensures "stage" in input ==> stage == input["stage"]
    ensures "stage" !in input ==> stage == Str("data")
  {
    if "stage" in input then input["stage"] else Str("data")
  }

  /** The rules every creation request has. */
  const BaseRules: RuleSet := map[["name"] := NameRules, ["code"] := CodeRules,
                                  ["description"] := DescriptionRules, ["stage"] := StageRules]

  /** The `switch` of `rules()`: the payload rules `data`, `design`, `rab` and
      `permits` add, and nothing for `completed` or any other value. PHP's
      `switch` compares loosely, and `true == 'data'` holds, so a boolean
      `true` stage takes the first case; no other non-string value equals a
      case label. All of them are optional (`nullable`) and sit under the
      stage's payload key. */
  function StagePayloadRules(stage: Value): RuleSet {
    match stage
    case Str("data") =>
      map[["boundaries"] := [Nullable, IsArray]]
    case Bool(true) =>
      map[["boundaries"] := [Nullable, IsArray]]
    case Str("design") =>
      map[["design_data"] := [Nullable, IsArray],
          ["design_data", "plan_file"] := [Nullable, IsString],
          ["design_data", "technical_specs"] := [Nullable, IsString]]
    case Str("rab") =>
      map[["rab_data"] := [Nullable, IsArray],
          ["rab_data", "budget_estimate"] := [Nullable, Numeric, Min(0)],
          ["rab_data", "cost_breakdown"] := [Nullable, IsArray]]
    case Str("permits") =>
      map[["permits_data"] := [Nullable, IsArray],
          ["permits_data", "permits_required"] := [Nullable, IsArray],
          ["permits_data", "applications_submitted"] := [Nullable, IsArray]]
    case _ => map[]
  }

  /** Every payload rule sits under a payload key, starts with `nullable`,
      and none is `required`. */
  lemma PayloadRuleShape(stage: Value)
    ensures forall p :: p in StagePayloadRules(stage) ==>
              |p| >= 1 && p[0] in PayloadKeys && |StagePayloadRules(stage)[p]| >= 1 &&
              StagePayloadRules(stage)[p][0] == Nullable && Required !in StagePayloadRules(stage)[p]
  {
  }

  /** Each payload key has rules exactly for its own stage (`boundaries` also
      for a `true` stage), and any other stage value, `completed` included,
      adds no rules. */
  lemma PayloadKeySelected(stage: Value)
    ensures ["boundaries"] in StagePayloadRules(stage) <==> stage == Str("data") || stage == Bool(true)
    ensures ["design_data"] in StagePayloadRules(stage) <==> stage == Str("design")
    ensures ["rab_data"] in StagePayloadRules(stage) <==> stage == Str("rab")
    ensures ["permits_data"] in StagePayloadRules(stage) <==> stage == Str("permits")
    ensures stage !in {Str("data"), Bool(true), Str("design"), Str("rab"), Str("permits")} ==>
              StagePayloadRules(stage) == map[]
  {
  }

  /** No payload rule shadows a common rule. */
  lemma PayloadDisjointFromBase(stage: Value)
    ensures forall p :: p in StagePayloadRules(stage) ==> p !in BaseKeys
    ensures BaseRules.Keys == BaseKeys
    ensures BaseRules[["name"]] == NameRules && BaseRules[["code"]] == CodeRules
    ensures BaseRules[["description"]] == DescriptionRules && BaseRules[["stage"]] == StageRules
  {
    assert forall k :: k in PayloadKeys ==> [k] !in BaseKeys;
  }

  /** A rule set holding the common rules under their attributes. */
  predicate HasBaseRules(rules: RuleSet) {
    && ["name"] in rules && rules[["name"]] == NameRules
    && ["code"] in rules && rules[["code"]] == CodeRules
    && ["description"] in rules && rules[["description"]] == DescriptionRules
    && ["stage"] in rules && rules[["stage"]] == StageRules
  }

  /** Only payload attributes have rules on their entries. */
  predicate NestedOnlyInPayloads(rules: RuleSet) {
    forall p :: p in rules && |p| >= 2 ==> p[0] in PayloadKeys
  }

  /** `rules()`: the common rules plus the selected stage's payload rules.
      `name`, `code` and `stage` are the only required attributes. */
  function RulesFor(stage: Value): (rules: RuleSet)
    ensures HasBaseRules(rules)
    ensures forall p :: p in rules && p !in BaseKeys ==>
              p in StagePayloadRules(stage) && rules[p] == StagePayloadRules(stage)[p]
    ensures forall p :: p in StagePayloadRules(stage) ==>
              p in rules && rules[p] == StagePayloadRules(stage)[p]
  {
    PayloadDisjointFromBase(stage);
    BaseRules + StagePayloadRules(stage)
  }

  /** In every rule set `rules()` builds, only payload attributes have rules
      on their entries. */
  lemma RulesForNested(stage: Value)
    ensures NestedOnlyInPayloads(RulesFor(stage))
  {
    forall p | p in RulesFor(stage) && |p| >= 2 ensures p[0] in PayloadKeys {
      assert p !in BaseKeys;
    }
  }

  /** The rules of one creation request. */
  function RequestRules(input: map<string, Value>): RuleSet {
    RulesFor(SelectedStage(input))
  }

  /** `data` and `design` add exactly their own keys; `completed` adds none. */
  lemma StagePayloadKeys()
    ensures StagePayloadRules(Str("data")).Keys == {["boundaries"]}
    ensures StagePayloadRules(Str("design")).Keys ==
              {["design_data"], ["design_data", "plan_file"], ["design_data", "technical_specs"]}
    ensures StagePayloadRules(Str("completed")) == map[]
  {
  }

  /** `rab` and `permits` add exactly their own keys. */
  lemma LaterStagePayloadKeys()
    ensures StagePayloadRules(Str("rab")).Keys ==
              {["rab_data"], ["rab_data", "budget_estimate"], ["rab_data", "cost_breakdown"]}
    ensures StagePayloadRules(Str("permits")).Keys ==
              {["permits_data"], ["permits_data", "permits_required"], ["permits_data", "applications_submitted"]}
  {
  }

  /** Without a `stage` input the rules are those of `data`, and `stage` is
      still required, so the request fails on `stage` with `required` alone. */
  lemma AbsentStageSelectsData(input: map<string, Value>, columns: Columns)
    requires "stage" !in input
    ensures RequestRules(input) == RulesFor(Str("data"))
    ensures Validate(RequestRules(input), input, columns).Failure?
    ensures FieldError(["stage"], Required) in Validate(RequestRules(input), input, columns).error
    ensures forall r :: FieldError(["stage"], r) in Validate(RequestRules(input), input, columns).error ==> r == Required
  {
    LookupTop(input, "stage");
    OnlyRequiredReported(RequestRules(input), input, columns, ["stage"]);
  }

  /** `name`, `code` and `stage` are required for every stage: a request where
      one of them is absent, null, blank or an empty array fails with a
      `required` error on it, and with no other error on it, since a failed
      `required` stops that attribute's rules. */
  lemma MissingRequiredRejected(input: map<string, Value>, columns: Columns, field: string)
    requires field in {"name", "code", "stage"} && (field !in input || !Filled(input[field]))
    ensures Validate(RequestRules(input), input, columns).Failure?
    ensures FieldError([field], Required) in Validate(RequestRules(input), input, columns).error
    ensures forall r :: FieldError([field], r) in Validate(RequestRules(input), input, columns).error ==> r == Required
  {
    LookupTop(input, field);
    OnlyRequiredReported(RequestRules(input), input, columns, [field]);
  }

  /** A `stage` that is present but not one of the five names fails: on `in`
      when it is filled, and on `required` alone when it is null, blank or an
      empty array. */
  lemma UnknownStageRejected(input: map<string, Value>, columns: Columns)
    requires "stage" in input && !(input["stage"].Str? && input["stage"].s in Stages.StageNames)
    ensures Validate(RequestRules(input), input, columns).Failure?
    ensures Filled(input["stage"]) ==>
              FieldError(["stage"], In(Stages.StageNames)) in Validate(RequestRules(input), input, columns).error
    ensures !Filled(input["stage"]) ==>
              FieldError(["stage"], Required) in Validate(RequestRules(input), input, columns).error &&
              FieldError(["stage"], In(Stages.StageNames)) !in Validate(RequestRules(input), input, columns).error
  {
    var rules := RequestRules(input);
    LookupTop(input, "stage");
    if Filled(input["stage"]) {
      FirstFailureReported(rules, input, columns, ["stage"], 1);
    } else {
      OnlyRequiredReported(rules, input, columns, ["stage"]);
    }
  }

  /** A `code` already stored in `regions.code` is rejected, and `unique` is
      reported only when the earlier rules passed: a blank code fails
      `required` alone, a code longer than 50 characters fails `max` and not
      `unique`, any other one fails `unique`. */
  lemma DuplicateCodeRejected(input: map<string, Value>, columns: Columns, code: string)
    requires "code" in input && input["code"] == Str(code)
    requires ("regions", "code") in columns && code in columns[("regions", "code")]
    ensures Validate(RequestRules(input), input, columns).Failure?
    ensures Blank(code) ==>
              FieldError(["code"], Required) in Validate(RequestRules(input), input, columns).error &&
              FieldError(["code"], Unique("regions", "code")) !in Validate(RequestRules(input), input, columns).error
    ensures !Blank(code) && |code| <= 50 ==>
              FieldError(["code"], Unique("regions", "code")) in Validate(RequestRules(input), input, columns).error
    ensures !Blank(code) && |code| > 50 ==>
              FieldError(["code"], Max(50)) in Validate(RequestRules(input), input, columns).error &&
              FieldError(["code"], Unique("regions", "code")) !in Validate(RequestRules(input), input, columns).error
  {
    if Blank(code) {
      MissingRequiredRejected(input, columns, "code");
    } else if |code| <= 50 {
      var rules := RequestRules(input);
      assert rules[["code"]] == CodeRules;
      LookupTop(input, "code");
      FirstFailureReported(rules, input, columns, ["code"], 3);
    } else {
      CodeTooLongRejected(input, columns, code);
    }
  }

  /** A code longer than 50 characters fails `max`, and `unique` is then not
      checked, whether or not the code is taken. */
  lemma CodeTooLongRejected(input: map<string, Value>, columns: Columns, code: string)
    requires "code" in input && input["code"] == Str(code) && !Blank(code) && |code| > 50
    ensures Validate(RequestRules(input), input, columns).Failure?
    ensures FieldError(["code"], Max(50)) in Validate(RequestRules(input), input, columns).error
    ensures FieldError(["code"], Unique("regions", "code")) !in Validate(RequestRules(input), input, columns).error
  {
    var rules := RequestRules(input);
    assert rules[["code"]] == CodeRules;
    assert CodeRules[..3] == [Required, IsString, Max(50)];
    var v := Lookup(Arr(input), ["code"]);
    LookupTop(input, "code");
    assert v == Some(Str(code));
    assert Passes(CodeRules, Required, v, columns) && Passes(CodeRules, IsString, v, columns);
    assert Evaluated(CodeRules, Max(50), v) && !Passes(CodeRules, Max(50), v, columns);
    UniqueNotReported(rules, input, columns, ["code"], 2);
  }

  /** A code sent as a whole number fails `string`; `max:50` measures it by
      the length of its decimal form, as `code` has no numeric rule, so a
      number of up to 50 characters is not reported by `max` however large
      its value. */
  lemma NumericCodeRejected(input: map<string, Value>, columns: Columns, x: int)
    requires "code" in input && input["code"] == Num(x as real)
    requires DecimalLength(x) <= 50
    ensures Validate(RequestRules(input), input, columns).Failure?
    ensures FieldError(["code"], IsString) in Validate(RequestRules(input), input, columns).error
    ensures FieldError(["code"], Max(50)) !in Validate(RequestRules(input), input, columns).error
  {
    var rules := RequestRules(input);
    assert rules[["code"]] == CodeRules;
    var v := Lookup(Arr(input), ["code"]);
    LookupTop(input, "code");
    assert v == Some(Num(x as real));
    assert Passes(CodeRules, Required, v, columns);
    FirstFailureReported(rules, input, columns, ["code"], 1);
    assert (x as real).Floor == x;
    assert Passes(CodeRules, Max(50), v, columns);
  }

  /** The rules of `rab_data.budget_estimate` in a `rab` request. */
  lemma BudgetEstimateEntry()
    ensures ["rab_data", "budget_estimate"] in RulesFor(Str("rab"))
    ensures RulesFor(Str("rab"))[["rab_data", "budget_estimate"]] == [Nullable, Numeric, Min(0)]
  {
    var p := ["rab_data", "budget_estimate"];
    assert p in StagePayloadRules(Str("rab"));
    assert p !in BaseKeys;
  }

  /** Which of those rules a present, non-null value meets: a blank string
      is not checked at all, anything else is. */
  lemma BudgetValueFails(budget: Value, columns: Columns)
    requires budget != Null
    ensures Evaluated([Nullable, Numeric, Min(0)], Numeric, Some(budget)) <==> !(budget.Str? && Blank(budget.s))
    ensures Evaluated([Nullable, Numeric, Min(0)], Min(0), Some(budget)) <==> !(budget.Str? && Blank(budget.s))
    ensures !budget.Num? ==> !Passes([Nullable, Numeric, Min(0)], Numeric, Some(budget), columns)
    ensures budget.Num? && budget.x < 0.0 ==> !Passes([Nullable, Numeric, Min(0)], Min(0), Some(budget), columns)
  {
  }

  /** For a `rab` request, a present, non-null, non-blank
      `rab_data.budget_estimate` must be a number (else `numeric` is
      reported), and not a negative one (else `min` is); a blank string is
      not checked. */
  lemma BudgetEstimateRules(input: map<string, Value>, columns: Columns, budget: Value)
    requires SelectedStage(input) == Str("rab")
    requires "rab_data" in input && input["rab_data"].Arr?
    requires "budget_estimate" in input["rab_data"].entries
    requires budget == input["rab_data"].entries["budget_estimate"] && budget != Null
    ensures (!budget.Num? && !(budget.Str? && Blank(budget.s))) || (budget.Num? && budget.x < 0.0) ==>
              Validate(RequestRules(input), input, columns).Failure?
    ensures !budget.Num? && !(budget.Str? && Blank(budget.s)) ==>
              FieldError(["rab_data", "budget_estimate"], Numeric) in Validate(RequestRules(input), input, columns).error
    ensures budget.Num? && budget.x < 0.0 ==>
              FieldError(["rab_data", "budget_estimate"], Min(0)) in Validate(RequestRules(input), input, columns).error
    ensures budget.Str? && Blank(budget.s) && Validate(RequestRules(input), input, columns).Failure? ==>
              forall r :: FieldError(["rab_data", "budget_estimate"], r) !in Validate(RequestRules(input), input, columns).error
  {
    var rules := RequestRules(input);
    var p := ["rab_data", "budget_estimate"];
    BudgetEstimateEntry();
    assert rules == RulesFor(Str("rab"));
    assert p in rules && rules[p] == [Nullable, Numeric, Min(0)];
    LookupNested(input, "rab_data", "budget_estimate");
    BudgetValueFails(budget, columns);
    if budget.Str? && Blank(budget.s) {
      forall r | FieldError(p, r) in Errors(rules, input, columns) ensures false {
        ErrorMembership(rules, input, columns, p, r);
      }
    } else if !budget.Num? {
      FirstFailureReported(rules, input, columns, p, 1);
    } else if budget.x < 0.0 {
      FirstFailureReported(rules, input, columns, p, 2);
    }
  }

  /** A request that validates carries a valid stage name, a name of at most
      255 characters, a code, and a description that is text or null. */
  lemma ValidatedStoreData(input: map<string, Value>, columns: Columns)
    requires Validate(RequestRules(input), input, columns).Success?
    ensures var data := Validate(RequestRules(input), input, columns).value;
      && "stage" in data && data["stage"].Str? && data["stage"].s in Stages.StageNames
      && "name" in data && data["name"].Str? && |data["name"].s| <= 255
      && "code" in data && data["code"].Str?
      && ("description" in data ==> data["description"].Null? || data["description"].Str?)
  {
    RulesForFlat(SelectedStage(input));
    ValidatedBaseData(RequestRules(input), input, columns);
  }

  /** The same for any rule set holding the common rules. */
  lemma ValidatedBaseData(rules: RuleSet, input: map<string, Value>, columns: Columns)
    requires HasBaseRules(rules) && BaseFlat(rules)
    requires Validate(rules, input, columns).Success?
    ensures var data := Validate(rules, input, columns).value;
      && "stage" in data && data["stage"].Str? && data["stage"].s in Stages.StageNames
      && "name" in data && data["name"].Str? && |data["name"].s| <= 255
      && "code" in data && data["code"].Str?
      && ("description" in data ==> data["description"].Null? || data["description"].Str?)
  {
    PassedTop(rules, input, columns, "stage", Required);
    PassedTop(rules, input, columns, "stage", In(Stages.StageNames));
    KeptWhole(rules, input, columns, "stage");
    PassedTop(rules, input, columns, "name", Required);
    PassedTop(rules, input, columns, "name", IsString);
    PassedTop(rules, input, columns, "name", Max(255));
    KeptWhole(rules, input, columns, "name");
    PassedTop(rules, input, columns, "code", Required);
    PassedTop(rules, input, columns, "code", IsString);
    KeptWhole(rules, input, columns, "code");
    if "description" in input {
      KeptWhole(rules, input, columns, "description");
      if Evaluated(DescriptionRules, IsString, Some(input["description"])) {
        PassedTop(rules, input, columns, "description", IsString);
      }
    }
  }

  /** Only the payload of the requested stage survives validation: the
      payloads of other stages are not among the validated data. */
  lemma ValidatedStorePayload(input: map<string, Value>, columns: Columns)
    requires Validate(RequestRules(input), input, columns).Success?
    ensures var data := Validate(RequestRules(input), input, columns).value;
      && "stage" in data
      && ("boundaries" in data ==> data["stage"] == Str("data"))
      && ("design_data" in data ==> data["stage"] == Str("design"))
      && ("rab_data" in data ==> data["stage"] == Str("rab"))
      && ("permits_data" in data ==> data["stage"] == Str("permits"))
  {
    var rules := RequestRules(input);
    var stage := SelectedStage(input);
    PassedTop(rules, input, columns, "stage", Required);
    PassedTop(rules, input, columns, "stage", In(Stages.StageNames));
    assert stage == input["stage"];
    PayloadKeySelected(stage);
    PayloadKeysNotBase();
  }

  /** The common attributes have no rules on entries below them. */
  predicate BaseFlat(rules: RuleSet) {
    && Nested(rules, "name") == {} && Nested(rules, "code") == {}
    && Nested(rules, "description") == {} && Nested(rules, "stage") == {}
  }

  /** In every rule set `rules()` builds the common attributes are flat. */
  lemma RulesForFlat(stage: Value)
    ensures BaseFlat(RulesFor(stage))
  {
    RulesForNested(stage);
    var rules := RulesFor(stage);
    FlatAt(rules, "name");
    FlatAt(rules, "code");
    FlatAt(rules, "description");
    FlatAt(rules, "stage");
  }

  /** A common attribute has no rules on entries below it. */
  lemma FlatAt(rules: RuleSet, k: string)
    requires NestedOnlyInPayloads(rules) && k in {"name", "code", "description", "stage"}
    ensures Nested(rules, k) == {}
  {

  }

  /** The entries of a payload that have rules of their own, and so are kept
      in the validated data; `boundaries` has none and is kept whole. */
  function KeptEntries(key: string): set<string> {
    match key
    case "design_data" => {"plan_file", "technical_specs"}
    case "rab_data" => {"budget_estimate", "cost_breakdown"}
    case "permits_data" => {"permits_required", "applications_submitted"}
    case _ => {}
  }

  /** The entries with rules under each payload key, for the stage that
      selects it. */
  lemma PayloadNested(stage: Value, key: string)
    requires key in PayloadKeys && [key] in RulesFor(stage)
    ensures Nested(RulesFor(stage), key) == KeptEntries(key)
    ensures RulesFor(stage)[[key]] == [Nullable, IsArray]
  {
    PayloadKeysNotBase();
    PayloadKeySelected(stage);
    if key == "boundaries" {
      BoundariesNested(stage);
    } else if key == "design_data" {
      DesignNested(stage);
    } else if key == "rab_data" {
      RabNested(stage);
    } else {
      PermitsNested(stage);
    }
  }

  /** The `data` (or `true`) rule set: `boundaries` has no rules below it. */
  lemma BoundariesNested(stage: Value)
    requires stage == Str("data") || stage == Bool(true)
    ensures Nested(RulesFor(stage), "boundaries") == KeptEntries("boundaries")
    ensures RulesFor(stage)[["boundaries"]] == [Nullable, IsArray]
  {
    var rules := RulesFor(stage);
    assert rules == BaseRules + StagePayloadRules(stage);
  }

  /** The `design` rule set: rules below `design_data` exist for
      `plan_file` and `technical_specs` only. */
  lemma DesignNested(stage: Value)
    requires stage == Str("design")
    ensures Nested(RulesFor(stage), "design_data") == KeptEntries("design_data")
    ensures RulesFor(stage)[["design_data"]] == [Nullable, IsArray]
  {
    var rules := RulesFor(stage);
    assert rules == BaseRules + StagePayloadRules(stage);
    forall j | j in Nested(rules, "design_data") ensures j in {"plan_file", "technical_specs"} {
      var p :| p in rules && |p| >= 2 && p[0] == "design_data" && p[1] == j;
      assert p !in BaseKeys;
    }
    assert ["design_data", "plan_file"] in rules;
    assert ["design_data", "technical_specs"] in rules;
  }

  /** The `rab` rule set: rules below `rab_data` exist for
      `budget_estimate` and `cost_breakdown` only. */
  lemma RabNested(stage: Value)
    requires stage == Str("rab")
    ensures Nested(RulesFor(stage), "rab_data") == KeptEntries("rab_data")
    ensures RulesFor(stage)[["rab_data"]] == [Nullable, IsArray]
  {
    var rules := RulesFor(stage);
    assert rules == BaseRules + StagePayloadRules(stage);
    forall j | j in Nested(rules, "rab_data") ensures j in {"budget_estimate", "cost_breakdown"} {
      var p :| p in rules && |p| >= 2 && p[0] == "rab_data" && p[1] == j;
      assert p !in BaseKeys;
    }
    assert ["rab_data", "budget_estimate"] in rules;
    assert ["rab_data", "cost_breakdown"] in rules;
  }

  /** The `permits` rule set: rules below `permits_data` exist for
      `permits_required` and `applications_submitted` only. */
  lemma PermitsNested(stage: Value)
    requires stage == Str("permits")
    ensures Nested(RulesFor(stage), "permits_data") == KeptEntries("permits_data")
    ensures RulesFor(stage)[["permits_data"]] == [Nullable, IsArray]
  {
    var rules := RulesFor(stage);
    assert rules == BaseRules + StagePayloadRules(stage);
    forall j | j in Nested(rules, "permits_data") ensures j in {"permits_required", "applications_submitted"} {
      var p :| p in rules && |p| >= 2 && p[0] == "permits_data" && p[1] == j;
      assert p !in BaseKeys;
    }
    assert ["permits_data", "permits_required"] in rules;
    assert ["permits_data", "applications_submitted"] in rules;
  }

  /** A payload object is stored trimmed: only its entries that have rules
      survive validation, and the payload disappears when none of them is
      present. */
  lemma ValidatedPayload(input: map<string, Value>, columns: Columns, key: string)
    requires Validate(RequestRules(input), input, columns).Success?
    requires key in {"design_data", "rab_data", "permits_data"} && [key] in RequestRules(input)
    requires key in input && input[key].Arr?
    ensures var data := Validate(RequestRules(input), input, columns).value;
      && (key in data <==> exists j :: j in input[key].entries && j in KeptEntries(key))
      && (key in data ==> data[key] == Arr(map j | j in input[key].entries && j in KeptEntries(key) :: input[key].entries[j]))
  {
    var rules := RequestRules(input);
    PayloadNested(SelectedStage(input), key);
    TrimmedAttribute(rules, input, key);
  }

  /** `boundaries` has no rules on its entries and is stored as given. */
  lemma ValidatedBoundaries(input: map<string, Value>, columns: Columns)
    requires Validate(RequestRules(input), input, columns).Success?
    requires ["boundaries"] in RequestRules(input) && "boundaries" in input
    ensures "boundaries" in Validate(RequestRules(input), input, columns).value
    ensures Validate(RequestRules(input), input, columns).value["boundaries"] == input["boundaries"]
  {
    PayloadNested(SelectedStage(input), "boundaries");
  }

  /** The payload attributes are not common ones. */
  lemma PayloadKeysNotBase()
    ensures ["boundaries"] !in BaseKeys && ["design_data"] !in BaseKeys
    ensures ["rab_data"] !in BaseKeys && ["permits_data"] !in BaseKeys
  {
  }

  /** The custom messages, keyed `attribute.rule`. */
  const Messages: map<string, string> := map[
    "name.required" := "Region name is required.",
    "code.required" := "Region code is required.",
    "code.unique" := "This region code is already in use.",
    "stage.required" := "Stage is required.",
    "stage.in" := "Stage must be data, design, rab, permits, or completed."
  ]

  /** The message key of a failed rule on a top-level attribute. */
  function MessageKey(e: FieldError): string {
    if |e.path| == 1 then e.path[0] + "." + RuleName(e.rule) else ""
  }

  /** The custom message shown for an error, or `None` when the framework's
      default message applies. */
  function MessageFor(e: FieldError): Option<string> {
    var key := MessageKey(e);
    if key in Messages then Some(Messages[key]) else None
  }

  /** The five errors that have a custom message. */
  const CustomMessageErrors: set<FieldError> := {
    FieldError(["name"], Required), FieldError(["code"], Required),
    FieldError(["code"], Unique("regions", "code")),
    FieldError(["stage"], Required), FieldError(["stage"], In(Stages.StageNames))
  }

  /** The message keys of the five errors. */
  lemma CustomMessageKeys()
    ensures MessageKey(FieldError(["name"], Required)) == "name.required"
    ensures MessageKey(FieldError(["code"], Required)) == "code.required"
    ensures MessageKey(FieldError(["code"], Unique("regions", "code"))) == "code.unique"
    ensures MessageKey(FieldError(["stage"], Required)) == "stage.required"
    ensures MessageKey(FieldError(["stage"], In(Stages.StageNames))) == "stage.in"
  {
  }

  /** Each of the five errors has its own custom message. */
  lemma CustomMessages()
    ensures MessageFor(FieldError(["name"], Required)) == Some("Region name is required.")
    ensures MessageFor(FieldError(["code"], Required)) == Some("Region code is required.")
    ensures MessageFor(FieldError(["code"], Unique("regions", "code"))) == Some("This region code is already in use.")
    ensures MessageFor(FieldError(["stage"], Required)) == Some("Stage is required.")
    ensures MessageFor(FieldError(["stage"], In(Stages.StageNames))) ==
              Some("Stage must be data, design, rab, permits, or completed.")
  {
    CustomMessageKeys();
  }

  /** Those are all the custom messages there are: every key belongs to one
      of the five errors. */
  lemma MessagesCovered()
    ensures forall key :: key in Messages ==> exists e :: e in CustomMessageErrors && MessageKey(e) == key
  {
    CustomMessageKeys();
    forall key | key in Messages ensures exists e :: e in CustomMessageErrors && MessageKey(e) == key {
      if key == "name.required" { assert MessageKey(FieldError(["name"], Required)) == key; }
      else if key == "code.required" { assert MessageKey(FieldError(["code"], Required)) == key; }
      else if key == "code.unique" { assert MessageKey(FieldError(["code"], Unique("regions", "code"))) == key; }
      else if key == "stage.required" { assert MessageKey(FieldError(["stage"], Required)) == key; }
      else { assert MessageKey(FieldError(["stage"], In(Stages.StageNames))) == key; }
    }
  }

  /** Every error with a custom message is a rule the request has, whatever
      the stage. */
  lemma CustomMessagesHaveRules(stage: Value)
    ensures forall e :: e in CustomMessageErrors ==> e.path in RulesFor(stage) && e.rule in RulesFor(stage)[e.path]
  {
    BaseRulesHaveMessages(RulesFor(stage));
  }

  /** The same for any rule set holding the common rules. */
  lemma BaseRulesHaveMessages(rules: RuleSet)
    requires HasBaseRules(rules)
    ensures forall e :: e in CustomMessageErrors ==> e.path in rules && e.rule in rules[e.path]
  {
    assert Required in rules[["name"]] && Required in rules[["code"]] && Required in rules[["stage"]];
    assert Unique("regions", "code") in rules[["code"]];
    assert In(Stages.StageNames) in rules[["stage"]];
  }
}
