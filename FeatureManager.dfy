/** The evaluation engine of FeatureManager.cs. The provider's catalog is one snapshot
    `catalog`, read by every lookup of one evaluation. */
module FeatureManager {
  import opened Wrappers
  import opened Models
  import opened Exceptions
  import opened FeatureContext

  // ---------------------------------------------------------------------------------------
  // Lookup: `GetFeatureFlags().FirstOrDefault(f => f.Name == name)`

  /** Index of the first flag called `name`, or `|catalog|` when there is none. */
  function FirstIndex(catalog: seq<FeatureFlag>, name: string): (k: nat)
    ensures k <= |catalog|
    ensures forall j | 0 <= j < k :: catalog[j].name != name
    ensures k < |catalog| ==> catalog[k].name == name
  {
    if |catalog| == 0 then 0
    else if catalog[0].name == name then 0
    else 1 + FirstIndex(catalog[1..], name)
  }

  /** The first flag whose name is exactly `name`, or null. */
  function FindFeature(catalog: seq<FeatureFlag>, name: string): (found: Option<FeatureFlag>)
    ensures found.None? <==> forall i | 0 <= i < |catalog| :: catalog[i].name != name
    ensures found.Some? ==> found.value.name == name
    ensures found.Some? ==>
      exists k | 0 <= k < |catalog| :: catalog[k] == found.value && forall j | 0 <= j < k :: catalog[j].name != name
  {
    var k := FirstIndex(catalog, name);
    if k < |catalog| then Some(catalog[k]) else None
  }

  // ---------------------------------------------------------------------------------------
  // Dependencies: `GetMissingDependencies`

  /** A prerequisite is missing when no flag has its name or the first such flag is disabled. */
  predicate IsMissing(catalog: seq<FeatureFlag>, dependency: string)
  {
    var found := FindFeature(catalog, dependency);
    found.None? || !found.value.isEnabled
  }

  /** The missing prerequisites, in the order given, duplicates kept. */
  function MissingDependencies(catalog: seq<FeatureFlag>, dependencies: seq<string>): (missing: seq<string>)
    ensures |missing| <= |dependencies|
    ensures forall i | 0 <= i < |missing| :: missing[i] in dependencies && IsMissing(catalog, missing[i])
  {
    if |dependencies| == 0 then []
    else
      (if IsMissing(catalog, dependencies[0]) then [dependencies[0]] else [])
      + MissingDependencies(catalog, dependencies[1..])
  }

  /** Filtering distributes over concatenation, so the list can be built one name at a time. */
  lemma {:induction false} MissingDependenciesAppend(catalog: seq<FeatureFlag>, front: seq<string>, back: seq<string>)
    ensures MissingDependencies(catalog, front + back)
         == MissingDependencies(catalog, front) + MissingDependencies(catalog, back)
  {
    if |front| == 0 {
      assert front + back == back;
    } else {
      assert (front + back)[1..] == front[1..] + back;
      MissingDependenciesAppend(catalog, front[1..], back);
    }
  }

  /** The `foreach` loop that collects the missing prerequisites with `List.Add`. */
  method GetMissingDependencies(catalog: seq<FeatureFlag>, dependencies: seq<string>) returns (missing: seq<string>)
    ensures missing == MissingDependencies(catalog, dependencies)
  {
    missing := [];
    for i := 0 to |dependencies|
      invariant missing == MissingDependencies(catalog, dependencies[..i])
    {
      var dependency := dependencies[i];
      var dependencyFeature := FindFeature(catalog, dependency);
      if dependencyFeature.None? || !dependencyFeature.value.isEnabled {
        missing := missing + [dependency];
      }
      assert dependencies[..i + 1] == dependencies[..i] + [dependency];
      MissingDependenciesAppend(catalog, dependencies[..i], [dependency]);
    }
    assert dependencies[..|dependencies|] == dependencies;
  }

  /** `string.Join(separator, items)`. */
  function Join(items: seq<string>, separator: string): string
  {
    if |items| == 0 then ""
    else if |items| == 1 then items[0]
    else items[0] + separator + Join(items[1..], separator)
  }

  // ---------------------------------------------------------------------------------------
  // Context snapshot: `GetContextDetails`

  /** One property as the snapshot renders it: string values in double quotes, a null value
      as nothing, each entry followed by ", ". */
  function AttributeText(attribute: Attribute, show: ValueText): string
  {
    if attribute.value.Str? then attribute.name + ": \"" + attribute.value.text + "\", "
    else if attribute.value.Null? then attribute.name + ": , "
    else attribute.name + ": " + show(attribute.value) + ", "
  }

  /** All properties rendered in order. */
  function AttributesText(attributes: Context, show: ValueText): string
  {
    if |attributes| == 0 then ""
    else AttributeText(attributes[0], show) + AttributesText(attributes[1..], show)
  }

  /** The snapshot of a possibly null context: empty for null. */
  function ContextDetails(context: Option<Context>, show: ValueText): string
  {
    if context.None? then "" else AttributesText(context.value, show)
  }

  /** Rendering distributes over concatenation of the property list. */
  lemma {:induction false} AttributesTextAppend(front: Context, back: Context, show: ValueText)
    ensures AttributesText(front + back, show) == AttributesText(front, show) + AttributesText(back, show)
  {
    if |front| == 0 {
      assert front + back == back;
    } else {
      assert (front + back)[1..] == front[1..] + back;
      AttributesTextAppend(front[1..], back, show);
    }
  }

  /** The snapshot grows by one rendered property per property, in order. */
  lemma ContextDetailsStep(attributes: Context, attribute: Attribute, show: ValueText)
    ensures ContextDetails(Some(attributes + [attribute]), show)
         == ContextDetails(Some(attributes), show)
            + (if attribute.value.Str? then attribute.name + ": \"" + attribute.value.text + "\", "
               else if attribute.value.Null? then attribute.name + ": , "
               else attribute.name + ": " + show(attribute.value) + ", ")
  {
    AttributesTextAppend(attributes, [attribute], show);
    assert [attribute][1..] == [];
  }


  /** The `StringBuilder` loop over the context's properties. */
  method GetContextDetails(context: Option<Context>, show: ValueText) returns (details: string)
    ensures details == ContextDetails(context, show)
  {
    details := "";
    if context.Some? {
      var properties := context.value;
      for i := 0 to |properties|
        invariant details == AttributesText(properties[..i], show)
      {
        var prop := properties[i];
        ghost var before := details;
        if prop.value.Str? {
          details := details + prop.name + ": \"" + prop.value.text + "\", ";
        } else if prop.value.Null? {
          details := details + prop.name + ": , ";
        } else {
          details := details + prop.name + ": " + show(prop.value) + ", ";
        }
        assert details == before + AttributeText(prop, show);
        ContextDetailsStep(properties[..i], prop, show);
        assert properties[..i + 1] == properties[..i] + [prop];
      }
      assert properties[..|properties|] == properties;
    }
  }

  // ---------------------------------------------------------------------------------------
  // Conditions: `EvaluateCondition`

  /** `condition.Replace("'", "\"")`. */
  function NormaliseQuotes(condition: string): (normalised: string)
    ensures |normalised| == |condition|
    ensures forall i | 0 <= i < |condition| ::
      normalised[i] == (if condition[i] == '\'' then '"' else condition[i])
  {
    if |condition| == 0 then ""
    else [if condition[0] == '\'' then '"' else condition[0]] + NormaliseQuotes(condition[1..])
  }

  /** The snapshot put into the wrapping exception when the condition fails. */
  const NullContextDetails: string := "No context details available (context is null)"

  /** The message of the exception raised when a condition evaluates to false. */
  function ConditionFailedMessage(condition: string, contextDetails: string): string
  {
    "\n\tCondition failed: " + condition + ", \n\tContext Details: " + contextDetails
  }

  /** `EvaluateCondition`: true, or a `ConditionEvaluationException` about the normalised
      condition that wraps the original failure (a false result or a library exception). */
  function EvaluateCondition(condition: string, context: Option<Context>,
                             evaluator: ConditionOracle, show: ValueText): (r: Result<bool, Exception>)
    ensures r.Success? ==> r.value
    ensures r.Success? <==> evaluator(NormaliseQuotes(condition), context) == Success(true)
    ensures r.Failure? ==>
      && r.error.ConditionEvaluationException?
      && r.error.condition == NormaliseQuotes(condition)
      && r.error.contextDetails == (if context.Some? then ContextDetails(context, show) else NullContextDetails)
      && r.error.innerException.Some?
      && r.error.message == r.error.innerException.value.message
  {
    var normalised := NormaliseQuotes(condition);
    var contextDetails := ContextDetails(context, show);
    var attempt: Result<bool, Exception> :=
      match evaluator(normalised, context)
      case Failure(message) => Failure(ExpressionException(message))
      case Success(result) =>
        if !result then
          Failure(NewConditionEvaluationException(normalised, contextDetails,
                                                  ConditionFailedMessage(normalised, contextDetails)))
        else Success(result);
    match attempt
    case Success(result) => Success(result)
    case Failure(ex) =>
      var catchDetails := if context.Some? then ContextDetails(context, show) else NullContextDetails;
      Failure(NewConditionEvaluationExceptionWithCause(normalised, catchDetails, ex.message, ex))
  }

  // ---------------------------------------------------------------------------------------
  // The engine: `IsFeatureEnabled`

  function NotFoundMessage(featureName: string): string
  {
    "Feature '" + featureName + "' not found"
  }

  function UnsatisfiedMessage(featureName: string, missing: seq<string>): string
  {
    "Dependencies for feature '" + featureName + "' are not satisfied. Missing dependencies: " + Join(missing, ", ")
  }

  function DisabledMessage(featureName: string): string
  {
    "'" + featureName + "' is disabled"
  }

  function EvaluationErrorPrefix(featureName: string): string
  {
    "Error during feature evaluation for '" + featureName + "': "
  }

  /** What the loop asks of one rule: whether its condition holds, or the exception raised. */
  type RuleTest = FeatureRule -> Result<bool, Exception>

  /** The test `IsFeatureEnabled` applies to each rule: `EvaluateCondition(rule.Condition, context)`. */
  function ConditionTest(context: Context, evaluator: ConditionOracle, show: ValueText): RuleTest
  {
    (rule: FeatureRule) => EvaluateCondition(rule.condition, Some(context), evaluator, show)
  }

  /** Index of the first rule whose test does not give false (it holds or it throws), or
      `|rules|` when every test gives false. */
  function FirstDecisive(rules: seq<FeatureRule>, test: RuleTest): (k: nat)
    ensures k <= |rules|
    ensures forall j | 0 <= j < k :: test(rules[j]) == Success(false)
    ensures k < |rules| ==> test(rules[k]) != Success(false)
  {
    if |rules| == 0 then 0
    else if test(rules[0]) != Success(false) then 0
    else 1 + FirstDecisive(rules[1..], test)
  }

  /** The `foreach` over the rules, for any test: the first rule whose test gives true decides
      with its own `isEnabled`, a test that throws ends the loop, a test that gives false moves
      on, and `fallback` is returned when no rule is left. */
  function RuleLoop(rules: seq<FeatureRule>, test: RuleTest, fallback: bool): (r: Result<bool, Exception>)
    ensures var k := FirstDecisive(rules, test);
      r == if k == |rules| then Success(fallback)
           else if test(rules[k]).Success? then Success(rules[k].isEnabled)
           else test(rules[k])
  {
    if |rules| == 0 then Success(fallback)
    else
      match test(rules[0])
      case Failure(ex) => Failure(ex)
      case Success(matched) =>
        if matched then Success(rules[0].isEnabled)
        else RuleLoop(rules[1..], test, fallback)
  }

  /** The loop itself, with its early returns. */
  method RunRules(rules: seq<FeatureRule>, test: RuleTest, fallback: bool) returns (result: Result<bool, Exception>)
    ensures result == RuleLoop(rules, test, fallback)
  {
    var i := 0;
    while i < |rules|
      invariant 0 <= i <= |rules|
      invariant RuleLoop(rules[i..], test, fallback) == RuleLoop(rules, test, fallback)
    {
      var rule := rules[i];
      var matched := test(rule);
      if matched.Failure? {
        return Failure(matched.error);
      }
      if matched.value {
        return Success(rule.isEnabled);
      }
      assert rules[i..][1..] == rules[i + 1..];
      i := i + 1;
    }
    return Success(fallback);
  }

  /** The body of the `try` block of `IsFeatureEnabled`: the result, or the exception it throws. */
  function TryOutcome(catalog: seq<FeatureFlag>, featureName: string, context: Option<Context>,
                      evaluator: ConditionOracle, show: ValueText): Result<bool, Exception>
  {
    match FindFeature(catalog, featureName)
    case None => Failure(NewFeatureEvaluationException(featureName, NotFoundMessage(featureName)))
    case Some(feature) =>
      var missing := MissingDependencies(catalog, feature.dependsOn);
      if |missing| > 0 then
        Failure(NewFeatureEvaluationException(featureName, UnsatisfiedMessage(featureName, missing)))
      else if !feature.isEnabled then
        Failure(NewFeatureEvaluationException(featureName, DisabledMessage(featureName)))
      else if feature.rules.Some? && context.Some? then
        RuleLoop(feature.rules.value, ConditionTest(context.value, evaluator, show), feature.isEnabled)
      else Success(feature.isEnabled)
  }

  /** The `catch` block: any exception is rethrown as a `FeatureEvaluationException` for the
      feature, with the original as its cause. */
  function WrapFailure(featureName: string, attempt: Result<bool, Exception>): Result<bool, Exception>
  {
    match attempt
    case Success(enabled) => Success(enabled)
    case Failure(ex) =>
      Failure(NewFeatureEvaluationException(featureName, EvaluationErrorPrefix(featureName) + ex.message, Some(ex)))
  }

  /** What `IsFeatureEnabled(featureName, context)` returns or throws. */
  function FeatureOutcome(catalog: seq<FeatureFlag>, featureName: string, context: Option<Context>,
                          evaluator: ConditionOracle, show: ValueText): Result<bool, Exception>
  {
    WrapFailure(featureName, TryOutcome(catalog, featureName, context, evaluator, show))
  }

  /** `IsFeatureEnabled`, step by step; the labelled block plays the part of the `try`. */
  method IsFeatureEnabled(catalog: seq<FeatureFlag>, featureName: string, context: Option<Context>,
                          evaluator: ConditionOracle, show: ValueText) returns (result: Result<bool, Exception>)
    ensures result == FeatureOutcome(catalog, featureName, context, evaluator, show)
  {
    var attempt: Result<bool, Exception>;
    label evaluation: {
      var feature := FindFeature(catalog, featureName);
      if feature.None? {
        attempt := Failure(NewFeatureEvaluationException(featureName, NotFoundMessage(featureName)));
        break evaluation;
      }
      var flag := feature.value;
      var missingDependencies := GetMissingDependencies(catalog, flag.dependsOn);
      if |missingDependencies| > 0 {
        attempt := Failure(NewFeatureEvaluationException(featureName, UnsatisfiedMessage(featureName, missingDependencies)));
        break evaluation;
      }
      if !flag.isEnabled {
        attempt := Failure(NewFeatureEvaluationException(featureName, DisabledMessage(featureName)));
        break evaluation;
      }
      if flag.rules.Some? && context.Some? {
        attempt := RunRules(flag.rules.value, ConditionTest(context.value, evaluator, show), flag.isEnabled);
        break evaluation;
      }
      attempt := Success(flag.isEnabled);
    }
    assert attempt == TryOutcome(catalog, featureName, context, evaluator, show);
    result := WrapFailure(featureName, attempt);
  }
}
