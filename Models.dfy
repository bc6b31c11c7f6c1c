/** The catalog entries of Models/FeatureFlag.cs. */
module Models {
  import opened Wrappers

  /** One conditional rule of a feature: a condition in the expression language and the
      outcome returned when that condition holds. */
  datatype FeatureRule = FeatureRule(condition: string, isEnabled: bool)

  /** A feature definition. `rules` is `None` when the catalog sets it to null; `dependsOn`
      and every rule's `condition` are taken to be non-null. */
  datatype FeatureFlag = FeatureFlag(
    name: string,
    isEnabled: bool,
    defaultEnabled: bool,
    dependsOn: seq<string>,
    rules: Option<seq<FeatureRule>>)

  /** A flag built with only its scalar properties set: the property initialisers give
      `DependsOn` and `Rules` fresh empty lists. */
  function NewFeatureFlag(name: string, isEnabled: bool, defaultEnabled: bool): (flag: FeatureFlag)
    ensures flag.name == name && flag.isEnabled == isEnabled && flag.defaultEnabled == defaultEnabled
    ensures flag.dependsOn == []
    ensures flag.rules == Some([])
  {
    FeatureFlag(name, isEnabled, defaultEnabled, [], Some([]))
  }
}
