/** The evaluation context. The source reads it by reflection over the public properties of a
    `FeatureContext` object; here a context is the ordered list of those properties. */
module FeatureContext {
  import opened Wrappers

  /** A property value. The expression library sees these with their own types. */
  datatype Value = Str(text: string) | Number(n: int) | Boolean(b: bool) | Null

  /** One public property of the context object: its name and current value. */
  datatype Attribute = Attribute(name: string, value: Value)

  type Context = seq<Attribute>

  /** The expression library (parse the condition as a `FeatureContext -> bool` lambda, compile it,
      invoke it on the context): the boolean it returns, or the message of the exception it throws.
      The context may be null. */
  type ConditionOracle = (string, Option<Context>) -> Result<bool, string>

  /** How a number or a boolean is turned into text by string interpolation (`ToString`). A
      null value interpolates as the empty string and is rendered so without this function. */
  type ValueText = Value -> string
}
