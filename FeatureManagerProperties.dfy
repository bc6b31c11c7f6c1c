/** What the engine of FeatureManager.cs promises, proved about the functions that specify it. */
module FeatureManagerProperties {
  import opened Wrappers
  import opened Models
  import opened Exceptions
  import opened FeatureContext
  import opened FeatureManager

  // ---------------------------------------------------------------------------------------
  // Lookup

  /** The flag at the first index carrying the name is the one found, whatever follows it. */
  lemma FindFeatureIsFirstMatch(catalog: seq<FeatureFlag>, name: string, k: nat)
    requires k < |catalog| && catalog[k].name == name
    requires forall j | 0 <= j < k :: catalog[j].name != name
    ensures FindFeature(catalog, name) == Some(catalog[k])
  {
  }

  // ---------------------------------------------------------------------------------------
  // Missing dependencies

  /** A name is reported exactly when it is among the prerequisites and is missing. */
  lemma {:induction false} MissingDependenciesMembership(catalog: seq<FeatureFlag>, dependencies: seq<string>, d: string)
    ensures d in MissingDependencies(catalog, dependencies) <==> d in dependencies && IsMissing(catalog, d)
  {
    if |dependencies| > 0 {
      MissingDependenciesMembership(catalog, dependencies[1..], d);
      assert dependencies == [dependencies[0]] + dependencies[1..];
    }
  }

  /** Duplicates are kept: a missing name is reported as often as it is listed, any other never. */
  lemma {:induction false} MissingDependenciesMultiplicity(catalog: seq<FeatureFlag>, dependencies: seq<string>, d: string)
    ensures multiset(MissingDependencies(catalog, dependencies))[d]
         == if IsMissing(catalog, d) then multiset(dependencies)[d] else 0
  {
    if |dependencies| > 0 {
      MissingDependenciesMultiplicity(catalog, dependencies[1..], d);
      assert dependencies == [dependencies[0]] + dependencies[1..];
    }
  }

  /** The order of the input is kept: with `MissingDependenciesAppend` this fixes the result as
      the order-preserving filter of the prerequisites by `IsMissing`. */
  lemma MissingDependenciesOfOne(catalog: seq<FeatureFlag>, d: string)
    ensures MissingDependencies(catalog, [d]) == if IsMissing(catalog, d) then [d] else []
  {
  }

  /** Nothing is reported exactly when every prerequisite names an enabled flag; in particular
      an empty list of prerequisites reports nothing. */
  lemma {:induction false} NoMissingDependencies(catalog: seq<FeatureFlag>, dependencies: seq<string>)
    ensures MissingDependencies(catalog, dependencies) == []
        <==> forall i | 0 <= i < |dependencies| :: !IsMissing(catalog, dependencies[i])
  {
    if |dependencies| > 0 {
      NoMissingDependencies(catalog, dependencies[1..]);
      assert forall i | 1 <= i < |dependencies| :: dependencies[i] == dependencies[1..][i - 1];
    }
  }

  // ---------------------------------------------------------------------------------------
  // Quote normalisation

  lemma NoSingleQuoteRemains(condition: string)
    ensures '\'' !in NormaliseQuotes(condition)
  {
  }

  lemma NormaliseQuotesIdempotent(condition: string)
    ensures NormaliseQuotes(NormaliseQuotes(condition)) == NormaliseQuotes(condition)
  {
  }

  /** A condition written with double quotes only is passed to the parser unchanged. */
  lemma NormaliseQuotesKeepsQuoteFree(condition: string)
    requires '\'' !in condition
    ensures NormaliseQuotes(condition) == condition
  {
  }

  // ---------------------------------------------------------------------------------------
  // Context snapshot

  /** A snapshot of a non-empty context ends with the separator `", "`. */
  lemma {:induction false} ContextDetailsEndsWithSeparator(attributes: Context, show: ValueText)
    requires |attributes| > 0
    ensures var details := ContextDetails(Some(attributes), show);
      |details| >= 2 && details[|details| - 2..] == ", "
  {
    var last := attributes[|attributes| - 1];
    assert attributes == attributes[..|attributes| - 1] + [last];
    ContextDetailsStep(attributes[..|attributes| - 1], last, show);
    var tail := AttributeText(last, show);
    var details := ContextDetails(Some(attributes), show);
    assert details == ContextDetails(Some(attributes[..|attributes| - 1]), show) + tail;
    assert tail[|tail| - 2..] == ", ";
    assert details[|details| - 2..] == tail[|tail| - 2..];
  }

  lemma NullContextRendersEmpty(show: ValueText)
    ensures ContextDetails(None, show) == ""
  {
  }

  // ---------------------------------------------------------------------------------------
  // Conditions

  /** Evaluating a condition never yields false: a false expression is an exception. */
  lemma ConditionNeverFalse(condition: string, context: Option<Context>, evaluator: ConditionOracle, show: ValueText)
    ensures EvaluateCondition(condition, context, evaluator, show) != Success(false)
  {
  }

  /** Both exceptions of a false condition, and what each carries. */
  lemma FalseConditionExceptions(condition: string, context: Option<Context>, evaluator: ConditionOracle, show: ValueText)
    requires evaluator(NormaliseQuotes(condition), context) == Success(false)
    ensures var r := EvaluateCondition(condition, context, evaluator, show);
      var normalised := NormaliseQuotes(condition);
      && r.Failure?
      && r.error == ConditionEvaluationException(
           normalised,
           if context.Some? then ContextDetails(context, show) else NullContextDetails,
           ConditionFailedMessage(normalised, ContextDetails(context, show)),
           Some(ConditionEvaluationException(normalised, ContextDetails(context, show),
                                             ConditionFailedMessage(normalised, ContextDetails(context, show)), None)))
  {
  }

  // ---------------------------------------------------------------------------------------
  // The engine

  /** The feature is found, its prerequisites are all present and enabled, and it is enabled:
      evaluation gets as far as the rules. */
  ghost predicate PassesChecks(catalog: seq<FeatureFlag>, featureName: string, feature: FeatureFlag)
  {
    && FindFeature(catalog, featureName) == Some(feature)
    && MissingDependencies(catalog, feature.dependsOn) == []
    && feature.isEnabled
  }

  /** Every failure, the engine's own included, is one `FeatureEvaluationException` about the
      feature that wraps the original exception. */
  lemma EveryFailureIsWrapped(catalog: seq<FeatureFlag>, featureName: string, context: Option<Context>,
                              evaluator: ConditionOracle, show: ValueText)
    ensures var out := FeatureOutcome(catalog, featureName, context, evaluator, show);
      out.Failure? ==>
        && out.error.FeatureEvaluationException?
        && out.error.featureName == featureName
        && out.error.innerException.Some?
        && out.error.message == EvaluationErrorPrefix(featureName) + out.error.innerException.value.message
        && TryOutcome(catalog, featureName, context, evaluator, show) == Failure(out.error.innerException.value)
    ensures var out := FeatureOutcome(catalog, featureName, context, evaluator, show);
      out.Success? <==> TryOutcome(catalog, featureName, context, evaluator, show).Success?
  {
  }

  /** An unknown feature fails, wrapping the "not found" exception about the requested name. */
  lemma UnknownFeatureFails(catalog: seq<FeatureFlag>, featureName: string, context: Option<Context>,
                            evaluator: ConditionOracle, show: ValueText)
    requires forall i | 0 <= i < |catalog| :: catalog[i].name != featureName
    ensures FeatureOutcome(catalog, featureName, context, evaluator, show)
         == WrapFailure(featureName, Failure(FeatureEvaluationException(featureName, NotFoundMessage(featureName), None)))
  {
  }

  /** Prerequisites are checked before the feature's own flag: any missing one fails the
      evaluation, listing all of them, whether or not the feature is enabled. */
  lemma UnsatisfiedDependenciesFail(catalog: seq<FeatureFlag>, featureName: string, context: Option<Context>,
                                    evaluator: ConditionOracle, show: ValueText, feature: FeatureFlag)
    requires FindFeature(catalog, featureName) == Some(feature)
    requires MissingDependencies(catalog, feature.dependsOn) != []
    ensures FeatureOutcome(catalog, featureName, context, evaluator, show)
         == WrapFailure(featureName, Failure(FeatureEvaluationException(featureName,
              UnsatisfiedMessage(featureName, MissingDependencies(catalog, feature.dependsOn)), None)))
  {
  }

  /** A disabled feature always fails, whatever its rules, the context or the expression library. */
  lemma DisabledFeatureFails(catalog: seq<FeatureFlag>, featureName: string, context: Option<Context>,
                             evaluator: ConditionOracle, show: ValueText, feature: FeatureFlag)
    requires FindFeature(catalog, featureName) == Some(feature)
    requires !feature.isEnabled
    ensures FeatureOutcome(catalog, featureName, context, evaluator, show).Failure?
    ensures MissingDependencies(catalog, feature.dependsOn) == [] ==>
      FeatureOutcome(catalog, featureName, context, evaluator, show)
        == WrapFailure(featureName, Failure(FeatureEvaluationException(featureName, DisabledMessage(featureName), None)))
  {
  }

  /** With no rules, an empty rule list or a null context, a feature that passes the checks is on. */
  lemma NoRulesOrNoContextIsEnabled(catalog: seq<FeatureFlag>, featureName: string, context: Option<Context>,
                                    evaluator: ConditionOracle, show: ValueText, feature: FeatureFlag)
    requires PassesChecks(catalog, featureName, feature)
    requires feature.rules.None? || feature.rules.value == [] || context.None?
    ensures FeatureOutcome(catalog, featureName, context, evaluator, show) == Success(true)
  {
  }

  /** Only the first rule can decide: it either selects its own `isEnabled` (also when that is
      false) or its exception ends the loop. */
  lemma OnlyFirstRuleDecides(rules: seq<FeatureRule>, context: Context, evaluator: ConditionOracle,
                             show: ValueText, fallback: bool)
    requires |rules| > 0
    ensures var first := EvaluateCondition(rules[0].condition, Some(context), evaluator, show);
      RuleLoop(rules, ConditionTest(context, evaluator, show), fallback)
        == if first.Success? then Success(rules[0].isEnabled) else Failure(first.error)
  {
  }

  /** Rules after the first are never consulted. */
  lemma LaterRulesNeverConsulted(first: FeatureRule, rest1: seq<FeatureRule>, rest2: seq<FeatureRule>,
                                 context: Context, evaluator: ConditionOracle, show: ValueText, fallback1: bool, fallback2: bool)
    ensures RuleLoop([first] + rest1, ConditionTest(context, evaluator, show), fallback1)
         == RuleLoop([first] + rest2, ConditionTest(context, evaluator, show), fallback2)
  {
  }

  /** Exactly when evaluation succeeds, and with what value. */
  lemma SuccessCharacterisation(catalog: seq<FeatureFlag>, featureName: string, context: Option<Context>,
                                evaluator: ConditionOracle, show: ValueText)
    ensures var out := FeatureOutcome(catalog, featureName, context, evaluator, show);
      var found := FindFeature(catalog, featureName);
      out.Success? <==>
        && found.Some?
        && MissingDependencies(catalog, found.value.dependsOn) == []
        && found.value.isEnabled
        && (|| found.value.rules.None? || found.value.rules.value == [] || context.None?
            || evaluator(NormaliseQuotes(found.value.rules.value[0].condition), context) == Success(true))
    ensures var out := FeatureOutcome(catalog, featureName, context, evaluator, show);
      var found := FindFeature(catalog, featureName);
      out.Success? ==>
        out.value == if found.value.rules.Some? && found.value.rules.value != [] && context.Some?
                     then found.value.rules.value[0].isEnabled
                     else true
  {
  }

  /** A false first condition fails with the chain Feature -> Condition -> Condition. */
  lemma FalseConditionChain(catalog: seq<FeatureFlag>, featureName: string, context: Context,
                            evaluator: ConditionOracle, show: ValueText, feature: FeatureFlag)
    requires PassesChecks(catalog, featureName, feature)
    requires feature.rules.Some? && |feature.rules.value| > 0
    requires evaluator(NormaliseQuotes(feature.rules.value[0].condition), Some(context)) == Success(false)
    ensures var out := FeatureOutcome(catalog, featureName, Some(context), evaluator, show);
      var normalised := NormaliseQuotes(feature.rules.value[0].condition);
      var details := ContextDetails(Some(context), show);
      && out.Failure?
      && var chain := CauseChain(out.error);
      && |chain| == 3
      && chain[0].FeatureEvaluationException? && chain[0].featureName == featureName
      && chain[1].ConditionEvaluationException? && chain[1].condition == normalised && chain[1].contextDetails == details
      && chain[2].ConditionEvaluationException? && chain[2].condition == normalised && chain[2].contextDetails == details
      && chain[2].message == ConditionFailedMessage(normalised, details)
      && chain[1].message == chain[2].message
      && chain[0].message == EvaluationErrorPrefix(featureName) + chain[2].message
  {
    var rules := feature.rules.value;
    var normalised := NormaliseQuotes(rules[0].condition);
    var details := ContextDetails(Some(context), show);
    var failed := ConditionEvaluationException(normalised, details, ConditionFailedMessage(normalised, details), None);
    var rethrown := ConditionEvaluationException(normalised, details, failed.message, Some(failed));
    OnlyFirstRuleDecides(rules, context, evaluator, show, feature.isEnabled);
    FalseConditionExceptions(rules[0].condition, Some(context), evaluator, show);
    var out := FeatureOutcome(catalog, featureName, Some(context), evaluator, show);
    assert out == WrapFailure(featureName, Failure(rethrown));
    assert CauseChain(failed) == [failed];
    assert CauseChain(rethrown) == [rethrown, failed];
    assert CauseChain(out.error) == [out.error, rethrown, failed];
  }

  /** An exception from the expression library fails with the chain Feature -> Condition ->
      library exception, its message carried up unchanged. */
  lemma LibraryExceptionChain(catalog: seq<FeatureFlag>, featureName: string, context: Context,
                              evaluator: ConditionOracle, show: ValueText, feature: FeatureFlag, message: string)
    requires PassesChecks(catalog, featureName, feature)
    requires feature.rules.Some? && |feature.rules.value| > 0
    requires evaluator(NormaliseQuotes(feature.rules.value[0].condition), Some(context)) == Failure(message)
    ensures var out := FeatureOutcome(catalog, featureName, Some(context), evaluator, show);
      && out.Failure?
      && CauseChain(out.error) == [
           out.error,
           ConditionEvaluationException(NormaliseQuotes(feature.rules.value[0].condition),
                                        ContextDetails(Some(context), show), message, Some(ExpressionException(message))),
           ExpressionException(message)]
      && out.error.message == EvaluationErrorPrefix(featureName) + message
  {
    var rules := feature.rules.value;
    var library := ExpressionException(message);
    var rethrown := ConditionEvaluationException(NormaliseQuotes(rules[0].condition),
                                                 ContextDetails(Some(context), show), message, Some(library));
    OnlyFirstRuleDecides(rules, context, evaluator, show, feature.isEnabled);
    var out := FeatureOutcome(catalog, featureName, Some(context), evaluator, show);
    assert out == WrapFailure(featureName, Failure(rethrown));
    assert CauseChain(library) == [library];
    assert CauseChain(rethrown) == [rethrown, library];
  }

  // ---------------------------------------------------------------------------------------
  // Defaults of Models/FeatureFlag.cs

  /** A flag left with its default `DependsOn` has no missing prerequisites. */
  lemma DefaultDependsOnHasNoMissing(catalog: seq<FeatureFlag>, name: string, isEnabled: bool, defaultEnabled: bool)
    ensures MissingDependencies(catalog, NewFeatureFlag(name, isEnabled, defaultEnabled).dependsOn) == []
  {
  }

  /** An enabled flag left with its default `DependsOn` and `Rules` is on for every context. */
  lemma DefaultFlagIsEnabled(catalog: seq<FeatureFlag>, featureName: string, context: Option<Context>,
                             evaluator: ConditionOracle, show: ValueText, defaultEnabled: bool)
    requires FindFeature(catalog, featureName) == Some(NewFeatureFlag(featureName, true, defaultEnabled))
    ensures FeatureOutcome(catalog, featureName, context, evaluator, show) == Success(true)
  {
  }

  /** Two catalogs that differ at most in the flags' `DefaultEnabled`. */
  ghost predicate SameButDefaultEnabled(catalog1: seq<FeatureFlag>, catalog2: seq<FeatureFlag>)
  {
    && |catalog1| == |catalog2|
    && forall i | 0 <= i < |catalog1| :: catalog1[i].(defaultEnabled := false) == catalog2[i].(defaultEnabled := false)
  }

  lemma FirstIndexIgnoresDefaultEnabled(catalog1: seq<FeatureFlag>, catalog2: seq<FeatureFlag>, name: string)
    requires SameButDefaultEnabled(catalog1, catalog2)
    ensures FirstIndex(catalog1, name) == FirstIndex(catalog2, name)
  {
  }

  lemma {:induction false} MissingIgnoresDefaultEnabled(catalog1: seq<FeatureFlag>, catalog2: seq<FeatureFlag>, dependencies: seq<string>)
    requires SameButDefaultEnabled(catalog1, catalog2)
    ensures MissingDependencies(catalog1, dependencies) == MissingDependencies(catalog2, dependencies)
  {
    if |dependencies| > 0 {
      var d := dependencies[0];
      FirstIndexIgnoresDefaultEnabled(catalog1, catalog2, d);
      var k := FirstIndex(catalog1, d);
      if k < |catalog1| {
        assert catalog1[k].isEnabled == catalog1[k].(defaultEnabled := false).isEnabled;
        assert catalog2[k].isEnabled == catalog2[k].(defaultEnabled := false).isEnabled;
      }
      assert IsMissing(catalog1, d) == IsMissing(catalog2, d);
      MissingIgnoresDefaultEnabled(catalog1, catalog2, dependencies[1..]);
    }
  }

  /** `DefaultEnabled` is carried but never read: it never changes the outcome. */
  lemma DefaultEnabledNeverRead(catalog1: seq<FeatureFlag>, catalog2: seq<FeatureFlag>, featureName: string,
                                context: Option<Context>, evaluator: ConditionOracle, show: ValueText)
    requires SameButDefaultEnabled(catalog1, catalog2)
    ensures FeatureOutcome(catalog1, featureName, context, evaluator, show)
         == FeatureOutcome(catalog2, featureName, context, evaluator, show)
  {
    FirstIndexIgnoresDefaultEnabled(catalog1, catalog2, featureName);
    var k := FirstIndex(catalog1, featureName);
    if k < |catalog1| {
      var f1, f2 := catalog1[k], catalog2[k];
      assert f1.(defaultEnabled := false) == f2.(defaultEnabled := false);
      assert f1.dependsOn == f2.dependsOn && f1.isEnabled == f2.isEnabled && f1.rules == f2.rules by {
        assert f1.dependsOn == f1.(defaultEnabled := false).dependsOn;
        assert f2.dependsOn == f2.(defaultEnabled := false).dependsOn;
        assert f1.isEnabled == f1.(defaultEnabled := false).isEnabled;
        assert f2.isEnabled == f2.(defaultEnabled := false).isEnabled;
        assert f1.rules == f1.(defaultEnabled := false).rules;
        assert f2.rules == f2.(defaultEnabled := false).rules;
      }
      MissingIgnoresDefaultEnabled(catalog1, catalog2, f1.dependsOn);
    }
  }

  // ---------------------------------------------------------------------------------------
  // A fixture: rules [Age >= 18 -> true, true -> false]

  /** An expression library that knows two conditions: `Age >= 18` over a numeric first property
      named Age, and the literal `true`. */
  function AgeOracle(condition: string, context: Option<Context>): Result<bool, string>
  {
    if condition == "true" then Success(true)
    else if condition == "Age >= 18" then
      if context.Some? && |context.value| > 0 && context.value[0].name == "Age" && context.value[0].value.Number?
      then Success(context.value[0].value.n >= 18)
      else Failure("No property or field 'Age' exists")
    else Failure("Syntax error")
  }

  function AgeCatalog(): seq<FeatureFlag>
  {
    [FeatureFlag("Adults", true, false, [], Some([FeatureRule("Age >= 18", true), FeatureRule("true", false)]))]
  }

  lemma AgeConditionKept()
    ensures NormaliseQuotes("Age >= 18") == "Age >= 18"
  {
    assert '\'' !in "Age >= 18";
    NormaliseQuotesKeepsQuoteFree("Age >= 18");
  }

  lemma AgeCatalogPassesChecks()
    ensures PassesChecks(AgeCatalog(), "Adults", AgeCatalog()[0])
  {
    FindFeatureIsFirstMatch(AgeCatalog(), "Adults", 0);
  }

  /** An adult selects the first rule. */
  lemma AgeFixtureAdult(show: ValueText)
    ensures FeatureOutcome(AgeCatalog(), "Adults", Some([Attribute("Age", Number(20))]), AgeOracle, show) == Success(true)
  {
    var context := [Attribute("Age", Number(20))];
    var rules := AgeCatalog()[0].rules.value;
    AgeCatalogPassesChecks();
    AgeConditionKept();
    assert AgeOracle(NormaliseQuotes(rules[0].condition), Some(context)) == Success(true);
    OnlyFirstRuleDecides(rules, context, AgeOracle, show, true);
  }

  /** A minor does not reach the second rule, whose condition would hold: the evaluation
      fails instead of returning false. */
  lemma AgeFixtureMinor(show: ValueText)
    ensures FeatureOutcome(AgeCatalog(), "Adults", Some([Attribute("Age", Number(10))]), AgeOracle, show).Failure?
  {
    var context := [Attribute("Age", Number(10))];
    var rules := AgeCatalog()[0].rules.value;
    AgeCatalogPassesChecks();
    AgeConditionKept();
    assert AgeOracle(NormaliseQuotes(rules[0].condition), Some(context)) == Success(false);
    OnlyFirstRuleDecides(rules, context, AgeOracle, show, true);
  }
}
