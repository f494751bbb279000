/**
  The part of Laravel's request validator that the region requests use:
  a rule set maps each attribute path (`rab_data.budget_estimate` is the
  path ["rab_data", "budget_estimate"]) to its rules, and validation either
  yields the validated top-level data or the set of failed (path, rule) pairs.
*/
module Validation {
  import opened Wrappers

  /** A decoded request value (JSON/form input). */
  datatype Value = Null | Bool(b: bool) | Num(x: real) | Str(s: string) | Arr(entries: map<string, Value>) {
    /** The size `max` and `min` compare (Laravel's `getSize`): a number
        itself when the attribute has a numeric rule, an array's element
        count, and otherwise the length of the value's string form: a
        string's own length, a whole number's decimal digits and sign, 1 for
        `true` and 0 for `false` and null. A fractional number outside a
        numeric attribute has no size here. */
    function Size(numeric: bool): (n: Option<real>)
      ensures this.Str? ==> n == Some(|this.s| as real)
      ensures this.Num? && numeric ==> n == Some(this.x)
      ensures this.Num? && !numeric && this.x == this.x.Floor as real ==>
                n.Some? && n.value >= 1.0 && (0.0 <= this.x < 10.0 ==> n.value == 1.0)
    {
      match this
      case Num(x) =>
        if numeric then Some(x)
        else if x == x.Floor as real then Some(DecimalLength(x.Floor) as real)
        else None
      case Str(s) => Some(|s| as real)
      case Arr(m) => Some(|m| as real)
      case Bool(b) => Some(if b then 1.0 else 0.0)
      case Null => Some(0.0)
    }
  }

  /** The number of digits of `n` in decimal. */
  function Digits(n: nat): (d: nat)
    ensures d >= 1
    ensures n < 10 <==> d == 1
  {
    if n < 10 then 1 else 1 + Digits(n / 10)
  }

  /** The length of PHP's decimal string form of the integer `n`. */
  function DecimalLength(n: int): (len: nat)
    ensures len >= 1
    ensures n < 0 ==> len >= 2
  {
    if n < 0 then 1 + Digits(-n) else Digits(n)
  }

  type Path = seq<string>

  datatype Rule =
    | Required
    | Sometimes
    | Nullable
    | IsString
    | Max(limit: nat)
    | Unique(table: string, column: string)
    | In(options: seq<string>)
    | IsArray
    | Numeric
    | Min(bound: int)

  type RuleSet = map<Path, seq<Rule>>

  /** Values already stored in a table column, for `unique:table,column`. */
  type Columns = map<(string, string), set<string>>

  /** One failed rule on one attribute. */
  datatype FieldError = FieldError(path: Path, rule: Rule)

  /** The rule's name as it appears in a `field.rule` message key. */
  function RuleName(r: Rule): string {
    match r
    case Required => "required"
    case Sometimes => "sometimes"
    case Nullable => "nullable"
    case IsString => "string"
    case Max(_) => "max"
    case Unique(_, _) => "unique"
    case In(_) => "in"
    case IsArray => "array"
    case Numeric => "numeric"
    case Min(_) => "min"
  }

  /** The value at a dotted path, if present. */
  function Lookup(v: Value, path: Path): Option<Value>
    decreases |path|
  {
    if path == [] then Some(v)
    else if v.Arr? && path[0] in v.entries then Lookup(v.entries[path[0]], path[1..])
    else None
  }

  /** `required` and only it is implicit: it runs on absent attributes too. */
  predicate Implicit(r: Rule) {
    r == Required
  }

  /** PHP's `trim` leaves nothing of `s`: every character is one it strips
      (space, tab, newline, carriage return, NUL, vertical tab). */
  predicate Blank(s: string) {
    forall i :: 0 <= i < |s| ==> s[i] in " \t\n\r\0" || s[i] == 11 as char
  }

  /** What `required` demands of a present value: not null, not a blank
      string, not an empty array. */
  predicate Filled(v: Value) {
    !v.Null? && !(v.Str? && Blank(v.s)) && v != Arr(map[])
  }

  /** Whether the validator evaluates rule `r` of an attribute whose rules are
      `rules` and whose value is `v`: `sometimes` skips absent attributes
      entirely, other non-implicit rules skip absent attributes and blank
      strings, and `nullable` makes non-implicit rules skip a null. */
  predicate Evaluated(rules: seq<Rule>, r: Rule, v: Option<Value>) {
    if Sometimes in rules && v.None? then false
    else if Implicit(r) then true
    else v.Some? && !(v.value.Null? && Nullable in rules) && !(v.value.Str? && Blank(v.value.s))
  }

  /** Whether rule `r`, one of the attribute's rules `all`, accepts value
      `v`. */
  predicate Passes(all: seq<Rule>, r: Rule, v: Option<Value>, columns: Columns) {
    match r
    case Required => v.Some? && Filled(v.value)
    case Sometimes => true
    case Nullable => true
    case IsString => v.Some? && v.value.Str?
    case Max(n) => v.Some? && (v.value.Size(Numeric in all).Some? ==> v.value.Size(Numeric in all).value <= n as real)
    case Unique(t, c) =>
      v.Some? && (v.value.Str? ==> (t, c) !in columns || v.value.s !in columns[(t, c)])
    case In(options) => v.Some? && v.value.Str? && v.value.s in options
    case IsArray => v.Some? && v.value.Arr?
    case Numeric => v.Some? && v.value.Num?
    case Min(n) => v.Some? && (v.value.Size(Numeric in all).Some? ==> v.value.Size(Numeric in all).value >= n as real)
  }

  /** Whether rule `r` runs after the attribute's earlier rules failed with
      `before`: a failed `required` stops the attribute, and `unique` runs
      only while the attribute has no error yet. */
  predicate Runs(before: set<Rule>, all: seq<Rule>, r: Rule, v: Option<Value>) {
    Required !in before && Evaluated(all, r, v) && (r.Unique? ==> before == {})
  }

  /** The rules among `rules` (a prefix of the attribute's rule list `all`)
      that run, in order, and fail on value `v`. */
  function Failures(rules: seq<Rule>, all: seq<Rule>, v: Option<Value>, columns: Columns): (failed: set<Rule>)
    ensures forall r :: r in failed ==> r in rules && Evaluated(all, r, v) && !Passes(all, r, v, columns)
  {
    if rules == [] then {}
    else
      var before := Failures(rules[..|rules| - 1], all, v, columns);
      var r := rules[|rules| - 1];
      if Runs(before, all, r, v) && !Passes(all, r, v, columns) then before + {r} else before
  }

  /** The failures of a prefix are failures of the whole list. */
  lemma {:induction false} FailuresGrow(rules: seq<Rule>, all: seq<Rule>, v: Option<Value>, columns: Columns, n: nat)
    requires n <= |rules|
    ensures Failures(rules[..n], all, v, columns) <= Failures(rules, all, v, columns)
  {
    if n < |rules| {
      var m := |rules| - 1;
      assert rules[..m][..n] == rules[..n];
      FailuresGrow(rules[..m], all, v, columns, n);
    } else {
      assert rules[..n] == rules;
    }
  }

  /** No rule of the list fails exactly when every evaluated rule passes. */
  lemma {:induction false} FailuresEmpty(rules: seq<Rule>, all: seq<Rule>, v: Option<Value>, columns: Columns)
    ensures Failures(rules, all, v, columns) == {} <==>
              forall r :: r in rules && Evaluated(all, r, v) ==> Passes(all, r, v, columns)
  {
    if rules != [] {
      var m := |rules| - 1;
      FailuresEmpty(rules[..m], all, v, columns);
      assert rules == rules[..m] + [rules[m]];
      assert forall r :: r in rules <==> r in rules[..m] || r == rules[m];
    }
  }

  /** The first evaluated rule that fails is reported. */
  lemma {:induction false} FirstFailure(rules: seq<Rule>, all: seq<Rule>, v: Option<Value>, columns: Columns, k: nat)
    requires k < |rules| && Evaluated(all, rules[k], v) && !Passes(all, rules[k], v, columns)
    requires forall i :: 0 <= i < k && Evaluated(all, rules[i], v) ==> Passes(all, rules[i], v, columns)
    ensures rules[k] in Failures(rules, all, v, columns)
  {
    var m := |rules| - 1;
    if k == m {
      FailuresEmpty(rules[..m], all, v, columns);
      assert forall r :: r in rules[..m] ==> exists i :: 0 <= i < m && rules[i] == r;
    } else {
      FirstFailure(rules[..m], all, v, columns, k);
      FailuresGrow(rules, all, v, columns, m);
    }
  }

  /** A failed leading `required` is the attribute's only failure. */
  lemma {:induction false} RequiredStops(rules: seq<Rule>, all: seq<Rule>, v: Option<Value>, columns: Columns)
    requires |rules| >= 1 && rules[0] == Required && Sometimes !in all
    requires !Passes(all, Required, v, columns)
    ensures Failures(rules, all, v, columns) == {Required}
  {
    var m := |rules| - 1;
    if m == 0 {
      assert rules[..m] == [];
    } else {
      assert rules[..m][0] == Required;
      RequiredStops(rules[..m], all, v, columns);
    }
  }

  /** A trailing `unique` does not run once an earlier rule failed. */
  lemma UniqueSkipped(rules: seq<Rule>, all: seq<Rule>, v: Option<Value>, columns: Columns, i: nat)
    requires |rules| >= 1 && rules[|rules| - 1].Unique? && rules[|rules| - 1] !in rules[..|rules| - 1]
    requires i < |rules| - 1 && Evaluated(all, rules[i], v) && !Passes(all, rules[i], v, columns)
    requires forall j :: 0 <= j < i && Evaluated(all, rules[j], v) ==> Passes(all, rules[j], v, columns)
    ensures rules[|rules| - 1] !in Failures(rules, all, v, columns)
  {
    var m := |rules| - 1;
    assert rules[..m][i] == rules[i];
    FirstFailure(rules[..m], all, v, columns, i);
  }

  /** All failures the validator reports: per attribute, the rules that run
      and fail. */
  function Errors(rules: RuleSet, input: map<string, Value>, columns: Columns): (errs: set<FieldError>)
    ensures forall e :: e in errs ==>
              e.path in rules && e.rule in rules[e.path] &&
              Evaluated(rules[e.path], e.rule, Lookup(Arr(input), e.path)) &&
              !Passes(rules[e.path], e.rule, Lookup(Arr(input), e.path), columns)
  {
    set p, r | p in rules && r in Failures(rules[p], rules[p], Lookup(Arr(input), p), columns) :: FieldError(p, r)
  }

  /** An error names a path of the rule set and one of that path's failures. */
  lemma ErrorMembership(rules: RuleSet, input: map<string, Value>, columns: Columns, p: Path, r: Rule)
    ensures FieldError(p, r) in Errors(rules, input, columns) <==>
              p in rules && r in Failures(rules[p], rules[p], Lookup(Arr(input), p), columns)
  {
  }

  /** There is no error exactly when every evaluated rule passes. */
  lemma ErrorsEmpty(rules: RuleSet, input: map<string, Value>, columns: Columns)
    ensures Errors(rules, input, columns) == {} <==>
              forall p, r :: p in rules && r in rules[p] && Evaluated(rules[p], r, Lookup(Arr(input), p))
                             ==> Passes(rules[p], r, Lookup(Arr(input), p), columns)
  {
    forall p | p in rules
      ensures Failures(rules[p], rules[p], Lookup(Arr(input), p), columns) == {} <==>
                forall r :: r in rules[p] && Evaluated(rules[p], r, Lookup(Arr(input), p))
                            ==> Passes(rules[p], r, Lookup(Arr(input), p), columns)
    {
      FailuresEmpty(rules[p], rules[p], Lookup(Arr(input), p), columns);
    }
    if Errors(rules, input, columns) == {} {
      forall p | p in rules
        ensures Failures(rules[p], rules[p], Lookup(Arr(input), p), columns) == {}
      {
        if r :| r in Failures(rules[p], rules[p], Lookup(Arr(input), p), columns) {
          ErrorMembership(rules, input, columns, p, r);
        }
      }
    }
  }

  /** The entry names of attribute `k` that carry rules of their own
      (`k.j` for some j). */
  function Nested(rules: RuleSet, k: string): set<string> {
    set p | p in rules && |p| >= 2 && p[0] == k :: p[1]
  }

  /** What `validated()` keeps of a present top-level attribute `k`: an array
      attribute with rules on its entries keeps only the entries that have
      rules and is dropped when none of them is present; any other value is
      kept whole. */
  function ValidatedValue(rules: RuleSet, k: string, v: Value): (r: Option<Value>)
    requires [k] in rules
    ensures IsArray !in rules[[k]] || v == Null || Nested(rules, k) == {} ==> r == Some(v)
    ensures r.Some? && r.value.Arr? && v.Arr? ==> r.value.entries.Keys <= v.entries.Keys
  {
    if IsArray in rules[[k]] && v != Null && Nested(rules, k) != {} then
      if v.Arr? then
        var kept := map j | j in v.entries && j in Nested(rules, k) :: v.entries[j];
        if kept == map[] then None else Some(Arr(kept))
      else None
    else Some(v)
  }

  /** The validated data: every present top-level attribute that has rules,
      trimmed as `ValidatedValue` says. */
  function ValidatedData(rules: RuleSet, input: map<string, Value>): (data: map<string, Value>)
    ensures forall k :: k in data ==> k in input && [k] in rules
    ensures forall k :: k in input && [k] in rules && Nested(rules, k) == {} ==> k in data && data[k] == input[k]
  {
    map k | k in input && [k] in rules && ValidatedValue(rules, k, input[k]).Some?
      :: ValidatedValue(rules, k, input[k]).value
  }

  /** `$request->validate(rules)`: the validated data, or every failure. */
  function Validate(rules: RuleSet, input: map<string, Value>, columns: Columns): (r: Result<map<string, Value>, set<FieldError>>)
    ensures r.Success? <==>
              forall p, rule :: p in rules && rule in rules[p] && Evaluated(rules[p], rule, Lookup(Arr(input), p))
                                ==> Passes(rules[p], rule, Lookup(Arr(input), p), columns)
    ensures r.Success? ==> r.value == ValidatedData(rules, input)
    ensures r.Failure? ==> r.error != {}
    ensures r.Failure? ==> forall e :: e in r.error ==>
              e.path in rules && e.rule in rules[e.path] &&
              Evaluated(rules[e.path], e.rule, Lookup(Arr(input), e.path)) &&
              !Passes(rules[e.path], e.rule, Lookup(Arr(input), e.path), columns)
  {
    ErrorsEmpty(rules, input, columns);
    var errs := Errors(rules, input, columns);
    if errs == {} then Success(ValidatedData(rules, input)) else Failure(errs)
  }

  /** The first evaluated rule of an attribute that fails is reported. */
  lemma FirstFailureReported(rules: RuleSet, input: map<string, Value>, columns: Columns, p: Path, k: nat)
    requires p in rules && k < |rules[p]|
    requires Evaluated(rules[p], rules[p][k], Lookup(Arr(input), p))
    requires !Passes(rules[p], rules[p][k], Lookup(Arr(input), p), columns)
    requires forall i :: 0 <= i < k && Evaluated(rules[p], rules[p][i], Lookup(Arr(input), p))
                         ==> Passes(rules[p], rules[p][i], Lookup(Arr(input), p), columns)
    ensures Validate(rules, input, columns).Failure?
    ensures FieldError(p, rules[p][k]) in Validate(rules, input, columns).error
  {
    FirstFailure(rules[p], rules[p], Lookup(Arr(input), p), columns, k);
    ErrorMembership(rules, input, columns, p, rules[p][k]);
  }

  /** A failed leading `required` is the only error of its attribute. */
  lemma OnlyRequiredReported(rules: RuleSet, input: map<string, Value>, columns: Columns, p: Path)
    requires p in rules && |rules[p]| >= 1 && rules[p][0] == Required && Sometimes !in rules[p]
    requires !Passes(rules[p], Required, Lookup(Arr(input), p), columns)
    ensures Validate(rules, input, columns).Failure?
    ensures FieldError(p, Required) in Validate(rules, input, columns).error
    ensures forall r :: FieldError(p, r) in Validate(rules, input, columns).error ==> r == Required
  {
    FirstFailureReported(rules, input, columns, p, 0);
    RequiredStops(rules[p], rules[p], Lookup(Arr(input), p), columns);
    forall r | FieldError(p, r) in Validate(rules, input, columns).error
      ensures r == Required
    {
      ErrorMembership(rules, input, columns, p, r);
    }
  }

  /** Once an earlier rule of an attribute failed, its trailing `unique` is
      not reported. */
  lemma UniqueNotReported(rules: RuleSet, input: map<string, Value>, columns: Columns, p: Path, i: nat)
    requires p in rules && |rules[p]| >= 1
    requires rules[p][|rules[p]| - 1].Unique? && rules[p][|rules[p]| - 1] !in rules[p][..|rules[p]| - 1]
    requires i < |rules[p]| - 1 && Evaluated(rules[p], rules[p][i], Lookup(Arr(input), p))
    requires !Passes(rules[p], rules[p][i], Lookup(Arr(input), p), columns)
    requires forall j :: 0 <= j < i && Evaluated(rules[p], rules[p][j], Lookup(Arr(input), p))
                         ==> Passes(rules[p], rules[p][j], Lookup(Arr(input), p), columns)
    ensures Validate(rules, input, columns).Failure?
    ensures FieldError(p, rules[p][i]) in Validate(rules, input, columns).error
    ensures FieldError(p, rules[p][|rules[p]| - 1]) !in Validate(rules, input, columns).error
  {
    FirstFailureReported(rules, input, columns, p, i);
    UniqueSkipped(rules[p], rules[p], Lookup(Arr(input), p), columns, i);
    ErrorMembership(rules, input, columns, p, rules[p][|rules[p]| - 1]);
  }

  /** A top-level attribute is looked up directly in the input. */
  lemma LookupTop(input: map<string, Value>, k: string)
    ensures Lookup(Arr(input), [k]) == if k in input then Some(input[k]) else None
  {
  }

  /** A second-level attribute is looked up in the object under its parent. */
  lemma LookupNested(input: map<string, Value>, k: string, j: string)
    requires k in input && input[k].Arr? && j in input[k].entries
    ensures Lookup(Arr(input), [k, j]) == Some(input[k].entries[j])
  {
    var p := [k, j];
    assert p[1..] == [j] && p[1..][1..] == [];
    assert Lookup(Arr(input), p) == Lookup(input[k], [j]);
    assert Lookup(input[k], [j]) == Lookup(input[k].entries[j], []);
  }

  /** When every attribute of the input has rules and none has rules on its
      entries, validation keeps all of it. */
  lemma AllKept(rules: RuleSet, input: map<string, Value>)
    requires forall k :: k in input ==> [k] in rules && Nested(rules, k) == {}
    ensures ValidatedData(rules, input) == input
  {
    assert ValidatedData(rules, input).Keys == input.Keys;
  }

  /** An array attribute with rules on its entries keeps exactly its present
      entries that have rules, and is dropped when there are none. */
  lemma TrimmedAttribute(rules: RuleSet, input: map<string, Value>, k: string)
    requires [k] in rules && IsArray in rules[[k]] && Nested(rules, k) != {}
    requires k in input && input[k].Arr?
    ensures k in ValidatedData(rules, input) <==>
              exists j :: j in input[k].entries && j in Nested(rules, k)
    ensures k in ValidatedData(rules, input) ==>
              ValidatedData(rules, input)[k] ==
              Arr(map j | j in input[k].entries && j in Nested(rules, k) :: input[k].entries[j])
  {
    var kept := map j | j in input[k].entries && j in Nested(rules, k) :: input[k].entries[j];
    assert ValidatedValue(rules, k, input[k]) == if kept == map[] then None else Some(Arr(kept));
    if j :| j in input[k].entries && j in Nested(rules, k) {
      assert j in kept;
    }
  }

  /** A present attribute without rules on its entries is validated whole. */
  lemma KeptWhole(rules: RuleSet, input: map<string, Value>, columns: Columns, k: string)
    requires Validate(rules, input, columns).Success?
    requires [k] in rules && k in input && Nested(rules, k) == {}
    ensures k in Validate(rules, input, columns).value
    ensures Validate(rules, input, columns).value[k] == input[k]
  {
  }

  /** When no evaluated rule fails, validation yields the validated data. */
  lemma NoFailingRule(rules: RuleSet, input: map<string, Value>, columns: Columns)
    requires forall p, r :: p in rules && r in rules[p] && Evaluated(rules[p], r, Lookup(Arr(input), p))
                            ==> Passes(rules[p], r, Lookup(Arr(input), p), columns)
    ensures Validate(rules, input, columns) == Success(ValidatedData(rules, input))
  {
  }

  /** After a successful validation, every evaluated rule on a top-level
      attribute accepts its value. */
  lemma PassedTop(rules: RuleSet, input: map<string, Value>, columns: Columns, k: string, r: Rule)
    requires Validate(rules, input, columns).Success?
    requires [k] in rules && r in rules[[k]]
    requires Evaluated(rules[[k]], r, if k in input then Some(input[k]) else None)
    ensures Passes(rules[[k]], r, if k in input then Some(input[k]) else None, columns)
  {
    LookupTop(input, k);
  }
}
