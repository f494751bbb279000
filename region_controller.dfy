/**
  RegionController's `store` and `update`: creation derives the four
  completion flags from the validated stage with no ordering check; an update
  first rejects a forward jump of more than one stage, then validates, then
  recomputes the flags only when the validated data carries a stage, and
  writes just the attributes present.
*/
module RegionController {
  import opened Wrappers
  import opened Validation
  import opened Stages
  import RegionRequest

  /** What one of the `array`-cast JSON columns holds: the cast encodes
      whatever value the validated data carries (an array, or a blank string
      that `array` did not check). */
  type Payload = Value

  /** The stored text of an attribute that is a string or null. */
  function TextOf(v: Value): Option<string> {
    if v.Str? then Some(v.s) else None
  }

  /** The stored JSON of an attribute: null stays null, anything else is
      encoded as it is. */
  function PayloadOf(v: Value): (p: Option<Payload>)
    ensures p.None? <==> v.Null?
    ensures p.Some? ==> p.value == v
  {
    if v.Null? then None else Some(v)
  }

  /** An attribute of the validated data as stored, or `None` if absent. */
  function OptionalText(data: map<string, Value>, key: string): Option<string> {
    if key in data then TextOf(data[key]) else None
  }

  function OptionalPayload(data: map<string, Value>, key: string): Option<Payload> {
    if key in data then PayloadOf(data[key]) else None
  }

  /** A region row. `code` is never written after creation. */
  class Region {
    var name: string
    const code: string
    var description: Option<string>
    var boundaries: Option<Payload>
    var designData: Option<Payload>
    var rabData: Option<Payload>
    var permitsData: Option<Payload>
    /** The `stage` column, an enum of the five stage names. */
    var stage: string
    /** The four boolean columns `data_completed` .. `permits_completed`. */
    var flags: Flags

    /** The row as the database keeps it: the stage is one of the enum's
        names and the flags agree with it, as every write in this controller
        leaves them. */
    ghost predicate Valid()
      reads this
    {
      Parse(stage).Some? && flags == FlagsFor(stage)
    }

    /** `Region::create($data)`: attributes absent from the data take the
        column default (null). */
    constructor Create(name: string, code: string, description: Option<string>, boundaries: Option<Payload>,
                       designData: Option<Payload>, rabData: Option<Payload>, permitsData: Option<Payload>,
                       stage: string, flags: Flags)
      ensures this.name == name && this.code == code && this.description == description
      ensures this.boundaries == boundaries && this.designData == designData
      ensures this.rabData == rabData && this.permitsData == permitsData
      ensures this.stage == stage && this.flags == flags
    {
      this.name := name;
      this.code := code;
      this.description := description;
      this.boundaries := boundaries;
      this.designData := designData;
      this.rabData := rabData;
      this.permitsData := permitsData;
      this.stage := stage;
      this.flags := flags;
    }
  }

  /** `store`: validate against `StoreRegionRequest`, derive the flags from
      the validated stage and create the region. `columns` holds the codes
      already in the `regions` table. */
  method Store(input: map<string, Value>, columns: Columns) returns (result: Result<Region, set<FieldError>>)
    ensures var v := Validate(RegionRequest.RequestRules(input), input, columns);
            && (result.Failure? <==> v.Failure?)
            && (v.Failure? ==> result.error == v.error)
    ensures result.Success? ==>
              var data := Validate(RegionRequest.RequestRules(input), input, columns).value;
              var region := result.value;
              && fresh(region) && region.Valid()
              && "stage" in data && data["stage"] == Str(region.stage)
              && "name" in data && data["name"] == Str(region.name)
              && "code" in data && data["code"] == Str(region.code)
              && region.description == OptionalText(data, "description")
              && region.boundaries == OptionalPayload(data, "boundaries")
              && region.designData == OptionalPayload(data, "design_data")
              && region.rabData == OptionalPayload(data, "rab_data")
              && region.permitsData == OptionalPayload(data, "permits_data")
  {
    var v := Validate(RegionRequest.RequestRules(input), input, columns);
    if v.Failure? {
      return Failure(v.error);
    }
    var data := v.value;
    RegionRequest.ValidatedStoreData(input, columns);
    var stageName := data["stage"].s;
    var flags := FlagsFor(stageName);
    var region := new Region.Create(data["name"].s, data["code"].s, OptionalText(data, "description"),
                                    OptionalPayload(data, "boundaries"), OptionalPayload(data, "design_data"),
                                    OptionalPayload(data, "rab_data"), OptionalPayload(data, "permits_data"),
                                    stageName, flags);
    return Success(region);
  }

  /** The creation request naming just a name, a code and a stage. */
  function InitialRequest(s: Stage, name: string, code: string): map<string, Value> {
    map["name" := Str(name), "code" := Str(code), "stage" := Str(Name(s))]
  }

  /** One rule of such a request accepts it when the name and code are
      not blank, short enough and the code is not taken; `rules` is any rule
      set made of the common rules and optional payload rules. */
  lemma InitialRulePasses(s: Stage, name: string, code: string, columns: Columns, rules: RuleSet, p: Path, r: Rule)
    requires !Blank(name) && |name| <= 255 && !Blank(code) && |code| <= 50
    requires ("regions", "code") in columns ==> code !in columns[("regions", "code")]
    requires forall k :: [k] in RegionRequest.BaseKeys ==> [k] in rules && rules[[k]] == RegionRequest.BaseRules[[k]]
    requires forall q :: q in rules && q !in RegionRequest.BaseKeys ==>
               |q| >= 1 && q[0] in RegionRequest.PayloadKeys && Required !in rules[q]
    requires p in rules && r in rules[p] && Evaluated(rules[p], r, Lookup(Arr(InitialRequest(s, name, code)), p))
    ensures Passes(rules[p], r, Lookup(Arr(InitialRequest(s, name, code)), p), columns)
  {
    if p in RegionRequest.BaseKeys {
      RegionRequest.BaseKeyIsTop(p);
      InitialBaseRulePasses(s, name, code, columns, p[0], r);
    } else {
      PayloadNotInitial(p[0]);
      AbsentNotEvaluated(InitialRequest(s, name, code), rules[p], p, r);
      assert false;
    }
  }

  /** The common rules accept an initial request. */
  lemma InitialBaseRulePasses(s: Stage, name: string, code: string, columns: Columns, k: string, r: Rule)
    requires !Blank(name) && |name| <= 255 && !Blank(code) && |code| <= 50
    requires ("regions", "code") in columns ==> code !in columns[("regions", "code")]
    requires [k] in RegionRequest.BaseRules && r in RegionRequest.BaseRules[[k]]
    requires Evaluated(RegionRequest.BaseRules[[k]], r, Lookup(Arr(InitialRequest(s, name, code)), [k]))
    ensures Passes(RegionRequest.BaseRules[[k]], r, Lookup(Arr(InitialRequest(s, name, code)), [k]), columns)
  {
    assert Name(s) in StageNames by { assert StageNames[Index(s)] == Name(s); }
    NameNotBlank(s);
    LookupTop(InitialRequest(s, name, code), k);
  }

  /** No stage name is blank: each starts with a letter. */
  lemma NameNotBlank(s: Stage)
    ensures !Blank(Name(s))
  {
    assert Name(s)[0] in "dprc";
  }

  /** No rule other than `required` runs on an attribute under an absent key. */
  lemma AbsentNotEvaluated(input: map<string, Value>, rules: seq<Rule>, p: Path, r: Rule)
    requires |p| >= 1 && p[0] !in input && r in rules && Required !in rules
    ensures !Evaluated(rules, r, Lookup(Arr(input), p))
  {
  }

  /** No payload key is one of the keys of an initial request. */
  lemma PayloadNotInitial(k: string)
    requires k in RegionRequest.PayloadKeys
    ensures k !in InitialRequest(Data, "", "")
  {
  }

  /** Any of the five stages can be the initial one: creation applies no
      ordering check, and the validated data is the request itself. */
  lemma AnyInitialStageAccepted(s: Stage, name: string, code: string, columns: Columns)
    requires !Blank(name) && |name| <= 255 && !Blank(code) && |code| <= 50
    requires ("regions", "code") in columns ==> code !in columns[("regions", "code")]
    ensures var input := InitialRequest(s, name, code);
            Validate(RegionRequest.RequestRules(input), input, columns) == Success(input)
  {
    var input := InitialRequest(s, name, code);
    var rules := RegionRequest.RequestRules(input);
    RegionRequest.PayloadDisjointFromBase(Str(Name(s)));
    RegionRequest.PayloadRuleShape(Str(Name(s)));
    assert forall k :: [k] in RegionRequest.BaseKeys ==> [k] in rules && rules[[k]] == RegionRequest.BaseRules[[k]];
    forall p, r | p in rules && r in rules[p] && Evaluated(rules[p], r, Lookup(Arr(input), p))
      ensures Passes(rules[p], r, Lookup(Arr(input), p), columns)
    {
      InitialRulePasses(s, name, code, columns, rules, p, r);
    }
    NoFailingRule(rules, input, columns);
    InitialData(s, name, code);
  }

  /** Such a request keeps all of its data: each of its keys has rules. */
  lemma InitialData(s: Stage, name: string, code: string)
    ensures var input := InitialRequest(s, name, code);
            ValidatedData(RegionRequest.RequestRules(input), input) == input
  {
    var input := InitialRequest(s, name, code);
    var rules := RegionRequest.RequestRules(input);
    RegionRequest.RulesForFlat(Str(Name(s)));
    assert input.Keys == {"name", "code", "stage"};
    AllKept(rules, input);
  }

  /** The `regions.code` column after a region with `code` was created. */
  function WithCode(columns: Columns, code: string): (c: Columns)
    ensures ("regions", "code") in c && code in c[("regions", "code")]
    ensures forall t :: t in columns ==> t in c && columns[t] <= c[t]
    ensures forall t :: t in c && t != ("regions", "code") ==> t in columns && c[t] == columns[t]
  {
    var taken := if ("regions", "code") in columns then columns[("regions", "code")] else {};
    columns[("regions", "code") := taken + {code}]
  }

  /** Once a creation request is accepted and stored, its code is taken: a
      second request with the same code fails `unique` on `code`. */
  lemma CodeTakenAfterStore(input: map<string, Value>, columns: Columns, again: map<string, Value>)
    requires Validate(RegionRequest.RequestRules(input), input, columns).Success?
    requires "code" in input && "code" in again && again["code"] == input["code"]
    ensures input["code"].Str?
    ensures var after := WithCode(columns, input["code"].s);
            && Validate(RegionRequest.RequestRules(again), again, after).Failure?
            && FieldError(["code"], Unique("regions", "code")) in Validate(RegionRequest.RequestRules(again), again, after).error
  {
    var rules := RegionRequest.RequestRules(input);
    RegionRequest.RulesForFlat(RegionRequest.SelectedStage(input));
    assert rules[["code"]] == RegionRequest.CodeRules;
    PassedTop(rules, input, columns, "code", Required);
    PassedTop(rules, input, columns, "code", IsString);
    var code := input["code"].s;
    PassedTop(rules, input, columns, "code", Max(50));
    RegionRequest.DuplicateCodeRejected(again, WithCode(columns, code), code);
  }

  /** Why an update was refused: the guard, with the message it attaches to
      `stage`, or the validator's errors. */
  datatype UpdateError =
    | StageSkipped(field: string, message: string)
    | Invalid(errors: set<FieldError>)
    /** The database refused the write: `column` got a value its type does
        not allow. */
    | WriteRejected(column: string)

  /** The error the guard returns. */
  const Skipped: UpdateError := StageSkipped("stage", "You must complete stages sequentially.")

  /** The rules `update` validates against. */
  const UpdateRules: RuleSet := map[
    ["name"] := [Sometimes, IsString, Max(255)],
    ["description"] := [Nullable, IsString],
    ["boundaries"] := [Nullable, IsArray],
    ["design_data"] := [Nullable, IsArray],
    ["rab_data"] := [Nullable, IsArray],
    ["permits_data"] := [Nullable, IsArray],
    ["stage"] := [Sometimes, In(StageNames)]
  ]

  /** `$request->input('stage', $region->stage)`: the `stage` input, or the
      stored stage when there is none. */
  function RequestedStage(current: string, input: map<string, Value>): (v: Value)
    ensures "stage" in input ==> v == input["stage"]
    ensures "stage" !in input ==> v == Str(current)
  {
    if "stage" in input then input["stage"] else Str(current)
  }

  /** `$currentStageIndex + 1` where the index is `array_search` of the stored
      stage: a stored string that is not a stage name gives `false`, and
      `false + 1` is 1, as for index 0. */
  function CurrentIndex(current: string): (n: nat)
    ensures Parse(current).Some? ==> n == Index(Parse(current).value)
    ensures Parse(current).None? ==> n == 0
  {
    SearchFindsStage(current);
    match Search(current, StageNames)
    case Some(i) => i
    case None => 0
  }

  /** The guard on the requested stage: its index exceeds the current index
      plus one. A name `array_search` does not find gives `false`, and `false`
      exceeds no number, so it passes; a value that is not a string is never
      found (`true` loosely equals `'data'` and is found at index 0), so it
      passes too. */
  predicate Rejected(current: string, requested: Value)
    ensures Rejected(current, requested) <==>
              exists s: Stage :: requested == Str(Name(s)) && Index(s) > CurrentIndex(current) + 1
  {
    if requested.Str? then
      SearchFindsStage(requested.s);
      match Search(requested.s, StageNames)
      case Some(n) => n > CurrentIndex(current) + 1
      case None => false
    else false
  }

  /** The guard rejects exactly a `stage` input naming a stage more than one
      step ahead; an absent `stage` defaults to the stored one and passes. */
  lemma GuardRejectsSkips(current: string, input: map<string, Value>)
    ensures Rejected(current, RequestedStage(current, input)) <==>
              "stage" in input && exists s: Stage :: input["stage"] == Str(Name(s)) && Index(s) > CurrentIndex(current) + 1
  {
    SearchFindsStage(current);
  }

  /** For a stored stage name the guard is `SkipsStage` of that stage. */
  lemma GuardOnStage(current: Stage, requested: string)
    ensures Rejected(Name(current), Str(requested)) <==> SkipsStage(current, requested)
  {
    SearchName(current);
  }

  /** The entries of the update rules the proofs below rely on. */
  lemma UpdateRuleEntries()
    ensures ["stage"] in UpdateRules && UpdateRules[["stage"]] == [Sometimes, In(StageNames)]
    ensures ["name"] in UpdateRules && UpdateRules[["name"]] == [Sometimes, IsString, Max(255)]
    ensures forall p :: p in UpdateRules ==> |p| == 1 && Required !in UpdateRules[p]
  {
  }

  /** No update rule is on an entry below an attribute. */
  lemma UpdateRulesFlat(k: string)
    ensures Nested(UpdateRules, k) == {}
  {
    UpdateRuleEntries();
  }

  /** A successful update validation keeps exactly the attributes of the
      input that have update rules, with their input values. */
  lemma ValidatedUpdateData(input: map<string, Value>, columns: Columns)
    requires Validate(UpdateRules, input, columns).Success?
    ensures var data := Validate(UpdateRules, input, columns).value;
            && (forall k :: k in data <==> k in input && [k] in UpdateRules)
            && (forall k :: k in data ==> data[k] == input[k])
  {
    forall k | k in input && [k] in UpdateRules
      ensures k in Validate(UpdateRules, input, columns).value
      ensures Validate(UpdateRules, input, columns).value[k] == input[k]
    {
      UpdateRulesFlat(k);
      KeptWhole(UpdateRules, input, columns, k);
    }
  }

  /** What the update rules guarantee of a present stage and name: the stage
      is a stage name or a blank string (which `in` does not check); the name
      is a string, of at most 255 characters unless it is blank. */
  lemma ValidatedUpdateValues(input: map<string, Value>, columns: Columns)
    requires Validate(UpdateRules, input, columns).Success?
    ensures "stage" in input ==> input["stage"].Str? && (Parse(input["stage"].s).Some? || Blank(input["stage"].s))
    ensures "name" in input ==> input["name"].Str? && (|input["name"].s| <= 255 || Blank(input["name"].s))
  {
    UpdateRuleEntries();
    if "stage" in input {
      var v := input["stage"];
      if !(v.Str? && Blank(v.s)) {
        PassedTop(UpdateRules, input, columns, "stage", In(StageNames));
      }
    }
    if "name" in input {
      var v := input["name"];
      if !(v.Str? && Blank(v.s)) {
        PassedTop(UpdateRules, input, columns, "name", IsString);
        PassedTop(UpdateRules, input, columns, "name", Max(255));
      }
    }
  }

  /** The decision of `update`: the guard, then validation; on success the
      data to write. */
  function CheckUpdate(current: string, input: map<string, Value>, columns: Columns): (r: Result<map<string, Value>, UpdateError>)
    ensures r == Failure(Skipped) <==>
              "stage" in input && exists s: Stage :: input["stage"] == Str(Name(s)) && Index(s) > CurrentIndex(current) + 1
    ensures r.Success? <==>
              !Rejected(current, RequestedStage(current, input)) && Validate(UpdateRules, input, columns).Success?
    ensures r.Failure? && r.error.Invalid? ==>
              Validate(UpdateRules, input, columns).Failure? && r.error.errors == Validate(UpdateRules, input, columns).error
    ensures r.Failure? ==> r == Failure(Skipped) || r.error.Invalid?
    ensures r.Success? ==> forall k :: k in r.value <==> k in input && [k] in UpdateRules
    ensures r.Success? ==> forall k :: k in r.value ==> r.value[k] == input[k]
    ensures r.Success? && "stage" in r.value ==>
              r.value["stage"].Str? && (Parse(r.value["stage"].s).Some? || Blank(r.value["stage"].s))
    ensures r.Success? && "name" in r.value ==>
              r.value["name"].Str? && (|r.value["name"].s| <= 255 || Blank(r.value["name"].s))
  {
    GuardRejectsSkips(current, input);
    if Rejected(current, RequestedStage(current, input)) then
      Failure(Skipped)
    else
      match Validate(UpdateRules, input, columns)
      case Failure(errors) => Failure(Invalid(errors))
      case Success(data) =>
        ValidatedUpdateData(input, columns);
        ValidatedUpdateValues(input, columns);
        Success(data)
  }

  /** Without a `stage` input the guard always passes and the validated data
      carries no stage, so the flags are left alone. */
  lemma UpdateWithoutStage(current: string, input: map<string, Value>, columns: Columns)
    requires "stage" !in input
    ensures CheckUpdate(current, input, columns) != Failure(Skipped)
    ensures CheckUpdate(current, input, columns).Success? ==> "stage" !in CheckUpdate(current, input, columns).value
  {
  }

  /** A request carrying only a stage at most one step ahead (or any step
      back) succeeds and writes exactly that stage. */
  lemma UpdateToReachableStage(current: Stage, target: Stage, columns: Columns)
    requires Index(target) <= Index(current) + 1
    ensures CheckUpdate(Name(current), map["stage" := Str(Name(target))], columns) ==
              Success(map["stage" := Str(Name(target))])
  {
    var input := map["stage" := Str(Name(target))];
    GuardAllowsAtMostOneStep(current, target);
    GuardOnStage(current, Name(target));
    assert Name(target) in StageNames by { assert StageNames[Index(target)] == Name(target); }
    StageOnlyValidates(Name(target), columns);
    assert !Rejected(Name(current), RequestedStage(Name(current), input));
  }

  /** A request carrying only a stage name, or only a blank stage, passes the
      update rules as is. */
  lemma StageOnlyValidates(stage: string, columns: Columns)
    requires stage in StageNames || Blank(stage)
    ensures Validate(UpdateRules, map["stage" := Str(stage)], columns) == Success(map["stage" := Str(stage)])
  {
    var input := map["stage" := Str(stage)];
    forall p, r | p in UpdateRules && r in UpdateRules[p] && Evaluated(UpdateRules[p], r, Lookup(Arr(input), p))
      ensures Passes(UpdateRules[p], r, Lookup(Arr(input), p), columns)
    {
      StageOnlyRulePasses(stage, columns, p, r);
    }
    NoFailingRule(UpdateRules, input, columns);
    StageOnlyData(stage);
  }

  /** Such a request keeps all of its data: `stage` has update rules. */
  lemma StageOnlyData(stage: string)
    ensures ValidatedData(UpdateRules, map["stage" := Str(stage)]) == map["stage" := Str(stage)]
  {
    UpdateRuleEntries();
    UpdateRulesFlat("stage");
    AllKept(UpdateRules, map["stage" := Str(stage)]);
  }

  /** Every update rule that runs accepts such a request. */
  lemma StageOnlyRulePasses(stage: string, columns: Columns, p: Path, r: Rule)
    requires stage in StageNames || Blank(stage)
    requires p in UpdateRules && r in UpdateRules[p]
    requires Evaluated(UpdateRules[p], r, Lookup(Arr(map["stage" := Str(stage)]), p))
    ensures Passes(UpdateRules[p], r, Lookup(Arr(map["stage" := Str(stage)]), p), columns)
  {
    UpdateRuleEntries();
    if p == ["stage"] {
      LookupTop(map["stage" := Str(stage)], "stage");
    } else {
      assert false;
    }
  }

  /** A stage more than one step ahead of the stored one is rejected by the
      guard, for example `data -> rab`. */
  lemma UpdateSkippingRejected(current: string, target: Stage, input: map<string, Value>, columns: Columns)
    requires "stage" in input && input["stage"] == Str(Name(target))
    requires Index(target) > CurrentIndex(current) + 1
    ensures CheckUpdate(current, input, columns) == Failure(Skipped)
  {
  }

  /** A stage value that is neither a stage name nor a blank string passes
      the guard and is then rejected by the `in` rule. */
  lemma UpdateUnknownStage(current: string, input: map<string, Value>, columns: Columns)
    requires "stage" in input && !(input["stage"].Str? && (input["stage"].s in StageNames || Blank(input["stage"].s)))
    ensures CheckUpdate(current, input, columns).Failure?
    ensures CheckUpdate(current, input, columns).error.Invalid?
    ensures FieldError(["stage"], In(StageNames)) in CheckUpdate(current, input, columns).error.errors
  {
    UnknownStageFailsIn(input, columns);
    assert !Rejected(current, RequestedStage(current, input));
  }

  /** The validation half of that: `in` fails on such a stage. */
  lemma UnknownStageFailsIn(input: map<string, Value>, columns: Columns)
    requires "stage" in input && !(input["stage"].Str? && (input["stage"].s in StageNames || Blank(input["stage"].s)))
    ensures Validate(UpdateRules, input, columns).Failure?
    ensures FieldError(["stage"], In(StageNames)) in Validate(UpdateRules, input, columns).error
  {
    var rules := UpdateRules;
    assert rules[["stage"]] == [Sometimes, In(StageNames)];
    LookupTop(input, "stage");
    FirstFailureReported(rules, input, columns, ["stage"], 1);
  }

  /** A blank `stage` string is not checked by `in`: such an update passes
      and computes four false flags for it, but the `stage` enum column
      refuses the blank string, so the write fails. */
  lemma UpdateBlankStage(current: string, stage: string, columns: Columns)
    requires Blank(stage)
    ensures CheckUpdate(current, map["stage" := Str(stage)], columns) == Success(map["stage" := Str(stage)])
    ensures FlagsFor(stage) == Flags(false, false, false, false)
    ensures UpdateResult(current, map["stage" := Str(stage)], columns) == Failure(WriteRejected("stage"))
  {
    if stage in StageNames {
      var s := Parse(stage).value;
      NameNotBlank(s);
    }
    StageOnlyValidates(stage, columns);
    assert Parse(stage).None?;
  }

  /** The outcome of `update` once `$region->update($data)` reaches the
      database: a request `CheckUpdate` accepts is written unless its stage is
      not one of the `stage` enum's names, which only a blank stage can be;
      the statement then fails and nothing is written. */
  function UpdateResult(current: string, input: map<string, Value>, columns: Columns): (r: Result<map<string, Value>, UpdateError>)
    ensures CheckUpdate(current, input, columns).Failure? ==> r == CheckUpdate(current, input, columns)
    ensures r.Success? ==> r == CheckUpdate(current, input, columns)
    ensures r == Failure(WriteRejected("stage")) <==>
              var c := CheckUpdate(current, input, columns);
              c.Success? && "stage" in c.value && Blank(c.value["stage"].s)
    ensures r.Success? && "stage" in r.value ==> r.value["stage"].Str? && Parse(r.value["stage"].s).Some?
  {
    var c := CheckUpdate(current, input, columns);
    if c.Success? && "stage" in c.value then
      BlankNotName(c.value["stage"].s);
      if Parse(c.value["stage"].s).None? then Failure(WriteRejected("stage")) else c
    else
      c
  }

  /** A blank string is not a stage name. */
  lemma BlankNotName(stage: string)
    ensures Blank(stage) ==> Parse(stage).None?
  {
    if Blank(stage) && Parse(stage).Some? {
      NameNotBlank(Parse(stage).value);
    }
  }

  /** `$region->update($data)` for the attributes other than the stage:
      every one present in `data` is written and the rest keep their values. */
  method WriteAttributes(region: Region, data: map<string, Value>)
    requires "name" in data ==> data["name"].Str?
    modifies region
    ensures region.name == (if "name" in data then data["name"].s else old(region.name))
    ensures region.description == (if "description" in data then TextOf(data["description"]) else old(region.description))
    ensures region.boundaries == (if "boundaries" in data then PayloadOf(data["boundaries"]) else old(region.boundaries))
    ensures region.designData == (if "design_data" in data then PayloadOf(data["design_data"]) else old(region.designData))
    ensures region.rabData == (if "rab_data" in data then PayloadOf(data["rab_data"]) else old(region.rabData))
    ensures region.permitsData == (if "permits_data" in data then PayloadOf(data["permits_data"]) else old(region.permitsData))
    ensures region.stage == old(region.stage) && region.flags == old(region.flags)
  {
    region.name := if "name" in data then data["name"].s else region.name;
    region.description := if "description" in data then TextOf(data["description"]) else region.description;
    region.boundaries := if "boundaries" in data then PayloadOf(data["boundaries"]) else region.boundaries;
    region.designData := if "design_data" in data then PayloadOf(data["design_data"]) else region.designData;
    region.rabData := if "rab_data" in data then PayloadOf(data["rab_data"]) else region.rabData;
    region.permitsData := if "permits_data" in data then PayloadOf(data["permits_data"]) else region.permitsData;
  }

  /** Moves the region to `stage` and sets the four flags derived from its
      name; nothing else changes. */
  method SetStage(region: Region, stage: string)
    modifies region
    ensures region.stage == stage && region.flags == FlagsFor(stage)
    ensures region.name == old(region.name) && region.description == old(region.description)
    ensures region.boundaries == old(region.boundaries) && region.designData == old(region.designData)
    ensures region.rabData == old(region.rabData) && region.permitsData == old(region.permitsData)
  {
    var flags := FlagsFor(stage);
    region.stage := stage;
    region.flags := flags;
  }

  /** `update`: on rejection, by the guard, the validator or the database,
      the region is untouched; on success every attribute present in the
      validated data is written, the flags are recomputed from the stage when
      one is present, and everything else keeps its value. */
  method Update(region: Region, input: map<string, Value>, columns: Columns) returns (r: Result<map<string, Value>, UpdateError>)
    modifies region
    ensures r == UpdateResult(old(region.stage), input, columns)
    ensures r.Failure? ==> unchanged(region)
    ensures r.Success? ==> region.name == (if "name" in r.value then r.value["name"].s else old(region.name))
    ensures r.Success? ==>
              region.description == (if "description" in r.value then TextOf(r.value["description"]) else old(region.description))
    ensures r.Success? ==>
              region.boundaries == (if "boundaries" in r.value then PayloadOf(r.value["boundaries"]) else old(region.boundaries))
    ensures r.Success? ==>
              region.designData == (if "design_data" in r.value then PayloadOf(r.value["design_data"]) else old(region.designData))
    ensures r.Success? ==>
              region.rabData == (if "rab_data" in r.value then PayloadOf(r.value["rab_data"]) else old(region.rabData))
    ensures r.Success? ==>
              region.permitsData == (if "permits_data" in r.value then PayloadOf(r.value["permits_data"]) else old(region.permitsData))
    ensures r.Success? && "stage" in r.value ==>
              r.value["stage"] == Str(region.stage) && region.flags == FlagsFor(region.stage)
    ensures r.Success? && "stage" !in r.value ==>
              region.stage == old(region.stage) && region.flags == old(region.flags)
    ensures old(region.Valid()) ==> region.Valid()
  {
    r := UpdateResult(region.stage, input, columns);
    if r.Success? {
      WriteAttributes(region, r.value);
      if "stage" in r.value {
        SetStage(region, r.value["stage"].s);
      }
    }
  }
}
