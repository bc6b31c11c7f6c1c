# ToggleX evaluation engine, modelled in Dafny

ToggleX decides whether a named feature is on for a caller-supplied context. A catalog of
feature flags comes from a provider. Each flag has an enabled bit, an informational default,
a list of prerequisite feature names, and an ordered list of rules. A rule is a condition in a
dynamic expression language plus the outcome it selects. `FeatureManager.IsFeatureEnabled`
performs these steps in order:

1. It looks up the first flag with the requested name.
2. It checks that every prerequisite exists and is enabled.
3. It rejects a disabled feature.
4. It walks the rules.
5. It rethrows any failure as a `FeatureEvaluationException` that keeps the original as its
   cause.

This project models that engine, the two exception classes and the flag record. It then proves
what the engine returns and throws.

Layout, one module per source file:

- `Wrappers.dfy`: `Option` (null) and `Result` (returned value or thrown exception).
- `Models.dfy`: `FeatureRule` and `FeatureFlag`, plus `NewFeatureFlag` for the property
  defaults.
- `Exceptions.dfy`: one `Exception` datatype with an optional cause.
  - It has three constructors: `FeatureEvaluationException`, `ConditionEvaluationException`,
    and `ExpressionException` for whatever the expression library throws.
  - Functions stand for the C# constructors.
- `FeatureContext.dfy`: a stand-in for the context class, which is not part of this model. A
  context is the ordered list of its public properties `(name, value)`.
  - `ConditionOracle` is the expression library. It returns the boolean, or the message of the
    exception it throws.
  - `ValueText` is how a number or a boolean is turned into text.
- `FeatureManager.dfy`: the engine.
  - The pure parts are functions: the lookup, quote normalisation, `EvaluateCondition`, and
    the specification of each loop.
  - The three loops of the source are methods, each proved equal to its specification
    function: `GetMissingDependencies`, `GetContextDetails`, and `IsFeatureEnabled` with
    `RunRules`.
  - `IsFeatureEnabled` plays out the `try`/`catch` with a labelled block.
- `FeatureManagerProperties.dfy`: lemmas about the specification functions.

The catalog is passed in as one snapshot (`seq<FeatureFlag>`). Every lookup of one evaluation
sees that snapshot, although the source fetches the catalog again for each lookup. C# string
`==` is ordinal, which is equality of `seq<char>`.

## Behaviour worth knowing

- **A condition that evaluates to false throws** (FeatureManager.cs:72-75). `EvaluateCondition`
  therefore returns true or fails. The rule loop never moves past its first rule:
  - a false first condition fails the whole evaluation;
  - `return feature.IsEnabled` after the loop is reached only when there are no rules or no
    context.

  `RuleLoop` is written for any per-rule test, so the fall-through the loop's shape allows
  stays in the model. `OnlyFirstRuleDecides` and `LaterRulesNeverConsulted` prove that with
  `EvaluateCondition` as the test, only the first rule decides. `AgeFixtureMinor` pins this on
  the two-rule example `[Age >= 18 -> true, true -> false]`: with `Age = 10` the evaluation
  fails and does not return false.
- **There is no per-rule disabled check.** A rule's `IsEnabled` is only the value it selects.
  A rule whose condition holds selects its `IsEnabled`, even when that is false.

## Model

| member | source | states |
|---|---|---|
| `Models.NewFeatureFlag` | Models/FeatureFlag.cs:3-14 | The scalar properties are as given; `DependsOn` and `Rules` default to empty lists |
| `Exceptions.NewFeatureEvaluationException` | Exceptions/FeatureExceptions.cs:7-11 | `FeatureName` and the message are the arguments; the cause is absent when `innerException` is omitted |
| `Exceptions.NewConditionEvaluationException` | Exceptions/FeatureExceptions.cs:19-24 | `Condition`, `ContextDetails` and the message are stored verbatim; there is no cause |
| `Exceptions.NewConditionEvaluationExceptionWithCause` | Exceptions/FeatureExceptions.cs:26-31 | `Condition`, `ContextDetails` and the message are stored verbatim; the given cause is kept |
| `FeatureManager.FindFeature` | FeatureManager.cs:22 | Returns null exactly when no flag has the name; otherwise the flag at the first index with that exact name (`FirstIndex`, whose contract states that no earlier flag has the name) |
| `FeatureManagerProperties.FindFeatureIsFirstMatch` | FeatureManager.cs:22 | The flag at the first index that carries the name is the one found, whatever follows it |
| `FeatureManager.MissingDependencies` | FeatureManager.cs:109-123 | The result is no longer than the input, and each name in it is a listed prerequisite that is missing (`IsMissing`: no flag has the name, or its first flag is disabled, FeatureManager.cs:116) |
| `FeatureManager.MissingDependenciesAppend` | FeatureManager.cs:113-120 | The missing list of `a + b` is that of `a` followed by that of `b` |
| `FeatureManagerProperties.MissingDependenciesOfOne` | FeatureManager.cs:115-119 | One name is reported exactly when it has no flag or its first flag is disabled |
| `FeatureManagerProperties.MissingDependenciesMembership` | FeatureManager.cs:109-123 | A name is reported if and only if it is listed and missing |
| `FeatureManagerProperties.MissingDependenciesMultiplicity` | FeatureManager.cs:109-123 | Duplicates are kept: a missing name is reported as many times as it is listed, and any other name never is |
| `FeatureManagerProperties.NoMissingDependencies` | FeatureManager.cs:109-123 | Nothing is reported if and only if every prerequisite names an enabled flag; empty input gives empty output |
| `FeatureManager.GetMissingDependencies` | FeatureManager.cs:109-123 | The `foreach`/`Add` loop returns exactly `MissingDependencies` |
| `FeatureManager.AttributesTextAppend` | FeatureManager.cs:92-103 | Rendering the properties of `a + b` gives the rendering of `a` followed by that of `b` |
| `FeatureManager.GetContextDetails` | FeatureManager.cs:86-107 | The `StringBuilder` loop returns exactly `ContextDetails`, which is empty for a null context |
| `FeatureManager.ContextDetailsStep` | FeatureManager.cs:92-103 | Each property adds, in order: `Name: "v", ` for a string value, `Name: , ` for a null value, and `Name: v, ` for any other value |
| `FeatureManagerProperties.ContextDetailsEndsWithSeparator` | FeatureManager.cs:98-102 | The snapshot of a non-empty context ends with the trailing `", "` |
| `FeatureManagerProperties.NullContextRendersEmpty` | FeatureManager.cs:88-106 | A null context renders as the empty string |
| `FeatureManager.NormaliseQuotes` | FeatureManager.cs:63 | The length is unchanged; each `'` becomes `"`; every other character is unchanged |
| `FeatureManagerProperties.NoSingleQuoteRemains` | FeatureManager.cs:63 | No `'` is left after normalisation |
| `FeatureManagerProperties.NormaliseQuotesIdempotent` | FeatureManager.cs:63 | Normalising twice gives the same as normalising once |
| `FeatureManagerProperties.NormaliseQuotesKeepsQuoteFree` | FeatureManager.cs:63 | A condition without `'` is passed on unchanged |
| `FeatureManager.EvaluateCondition` | FeatureManager.cs:59-84 | Returns true if and only if the library gives true for the normalised condition. Otherwise it returns a `ConditionEvaluationException` that carries the normalised condition, the snapshot (the sentinel text for a null context) and the cause's message |
| `FeatureManagerProperties.ConditionNeverFalse` | FeatureManager.cs:72-77 | `EvaluateCondition` never returns false |
| `FeatureManagerProperties.FalseConditionExceptions` | FeatureManager.cs:72-82 | A false result gives a condition exception wrapping the "Condition failed" exception; each carries the normalised condition and the snapshot |
| `FeatureManager.RuleLoop` | FeatureManager.cs:40-51 | For any per-rule test, take the first rule whose test does not give false (`FirstDecisive`, whose contract states that every earlier test gave false). If its test holds, the result is its `IsEnabled`; if its test throws, the result is that exception. If every test gives false, the result is the fallback |
| `FeatureManager.RunRules` | FeatureManager.cs:42-51 | The `foreach` with early return gives exactly `RuleLoop` |
| `FeatureManager.IsFeatureEnabled` | FeatureManager.cs:18-57 | The step-by-step `try`/`catch` gives exactly `FeatureOutcome`, which is `WrapFailure` (the `catch`, FeatureManager.cs:53-56) applied to `TryOutcome` (the `try` body, FeatureManager.cs:20-52) |
| `FeatureManagerProperties.EveryFailureIsWrapped` | FeatureManager.cs:53-56 | Every failure is a `FeatureEvaluationException` for the feature, with message `Error during feature evaluation for '<name>': ` plus the cause's message; the cause is the exception raised in the `try` |
| `FeatureManagerProperties.UnknownFeatureFails` | FeatureManager.cs:22-27 | A name no flag carries fails: the wrapped "Feature '<name>' not found" exception names the requested feature |
| `FeatureManagerProperties.UnsatisfiedDependenciesFail` | FeatureManager.cs:29-33 | Any missing prerequisite fails the evaluation, whether or not the feature is enabled. The message joins all missing names with `", "` (`Join`, standing for `string.Join` at FeatureManager.cs:32) |
| `FeatureManagerProperties.DisabledFeatureFails` | FeatureManager.cs:35-38 | A disabled feature always fails, whatever its rules, the context or the library. With its prerequisites met, the cause is "'<name>' is disabled" |
| `FeatureManagerProperties.NoRulesOrNoContextIsEnabled` | FeatureManager.cs:40-51 | A feature that is found, has its prerequisites met and is enabled returns true when its rules are null or empty or the context is null |
| `FeatureManagerProperties.OnlyFirstRuleDecides` | FeatureManager.cs:42-47 | With rules and a context, the first rule either selects its own `IsEnabled` (false included) or its exception ends the evaluation |
| `FeatureManagerProperties.LaterRulesNeverConsulted` | FeatureManager.cs:42-48 | Rule lists that share their first rule evaluate alike, whatever follows it |
| `FeatureManagerProperties.SuccessCharacterisation` | FeatureManager.cs:18-57 | Succeeds if and only if the feature is found, has its prerequisites met, is enabled, and has no rules or context or a first condition that holds; the value is then that rule's `IsEnabled`, or else true |
| `FeatureManagerProperties.FalseConditionChain` | FeatureManager.cs:53-82 | A false first condition fails with the cause chain Feature, Condition, Condition, whose innermost message is `Condition failed:` with the context details |
| `FeatureManagerProperties.LibraryExceptionChain` | FeatureManager.cs:67-82 | A library exception fails with the chain Feature, Condition, library exception, and its message is carried up |
| `FeatureManagerProperties.DefaultDependsOnHasNoMissing` | Models/FeatureFlag.cs:11 | A flag with the default `DependsOn` has no missing prerequisites |
| `FeatureManagerProperties.DefaultFlagIsEnabled` | Models/FeatureFlag.cs:11-13 | An enabled flag with the default `DependsOn` and `Rules` evaluates to true for every context |
| `FeatureManagerProperties.DefaultEnabledNeverRead` | Models/FeatureFlag.cs:9 | Catalogs that differ only in `DefaultEnabled` give the same outcome |
| `FeatureManagerProperties.AgeFixtureAdult` | FeatureManager.cs:42-47 | With rules `[Age >= 18 -> true, true -> false]` and `Age = 20`, the first rule selects true |
| `FeatureManagerProperties.AgeFixtureMinor` | FeatureManager.cs:42-47 | With the same rules and `Age = 10`, evaluation fails rather than falling through to the second rule |

## Left out

- The expression library (`DynamicExpressionParser.ParseLambda`, `Compile`, `Invoke`;
  FeatureManager.cs:67-70) is an uninterpreted `ConditionOracle`. Its grammar is not part of
  this model.
- Reflection over the context's properties (FeatureManager.cs:92-94) is replaced by an explicit
  property list. The context class is not part of this model. Property values are strings,
  integers, booleans or null; floating-point and nested values are left out.
- How `ToString` renders a number or a boolean (FeatureManager.cs:102) is the parameter
  `ValueText`. A null value renders as the empty string.
- `Exceptions.Exception.Cause`: the cause of an exception thrown by the expression library is
  not modelled, since only its message is observable here.
- The provider (Providers/IFeatureProvider.cs, Providers/JsonFeatureProvider.cs) is file I/O
  and JSON deserialisation. The catalog is a parameter. An exception thrown by the provider
  is not modelled.
- The `FeatureManager` constructor only stores the provider, which the catalog parameter
  stands for.
- Flag names are taken to be non-null. The source compares names with C#'s null-safe string
  `==` (FeatureManager.cs:22, 115), so a null-named flag never throws; it just never matches
  a non-null name.
- These null values are taken not to occur: a null list from the provider, a null flag in
  that list, a null `DependsOn`, a null rule in `Rules`, and a null rule `Condition`. In the
  source each one throws when the evaluation reaches it, inside the `try` of
  `IsFeatureEnabled`. Which ones it reaches:
  - A null provider list is always reached. `FirstOrDefault` (FeatureManager.cs:22) throws
    `ArgumentNullException`, which comes back wrapped in one `FeatureEvaluationException`
    (FeatureManager.cs:53-55).
  - A null flag is reached only if it comes before the first flag whose name is looked up:
    the feature itself (FeatureManager.cs:22) or one of its prerequisites
    (FeatureManager.cs:115). `FirstOrDefault` stops at the first match.
  - A null `DependsOn` is reached only on the flag being evaluated (FeatureManager.cs:29).
  - A null rule or a null `Condition` is reached only at index 0, and only when `Rules` and
    the context are non-null (FeatureManager.cs:40). The first rule either returns or throws,
    so later rules are never read.
  - A null flag, `DependsOn` or rule throws `NullReferenceException`. It comes back wrapped in
    one `FeatureEvaluationException`.
  - A null `Condition` throws `NullReferenceException` at `Replace` (FeatureManager.cs:63).
    It is caught first at FeatureManager.cs:79-82, so it comes back as the chain Feature,
    Condition, `NullReferenceException`.

  A null `Rules` is modelled, as `None`.
- Repeated evaluation returns the same result only if the expression library is
  deterministic. The model assumes it is: `ConditionOracle` is a function of the condition and
  the context. A condition that reads the clock (`DateTime.Now`, say) could make two
  evaluations of one catalog and one context differ in the source.
- Concurrency and re-fetching the catalog between lookups are left out; one snapshot is used.
