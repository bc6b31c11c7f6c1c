/** The exceptions of Exceptions/FeatureExceptions.cs, as one datatype with an optional cause. */
module Exceptions {
  import opened Wrappers

  /** Every exception the engine can raise or wrap. `ExpressionException` is whatever the
      expression library throws while parsing, compiling or running a condition; only its
      message is observable. */
  datatype Exception =
    | FeatureEvaluationException(featureName: string, message: string, innerException: Option<Exception>)
    | ConditionEvaluationException(condition: string, contextDetails: string, message: string,
                                   innerException: Option<Exception>)
    | ExpressionException(message: string)
  {
    /** `Exception.InnerException`: the cause, or null. */
    function Cause(): Option<Exception>
    {
      if ExpressionException? then None else innerException
    }
  }

  /** `new FeatureEvaluationException(featureName, message, innerException = null)`. */
  function NewFeatureEvaluationException(featureName: string, message: string,
                                         innerException: Option<Exception> := None): (e: Exception)
    ensures e.FeatureEvaluationException?
    ensures e.featureName == featureName && e.message == message
    ensures e.Cause() == innerException
  {
    FeatureEvaluationException(featureName, message, innerException)
  }

  /** `new ConditionEvaluationException(condition, contextDetails, message)`: no cause. */
  function NewConditionEvaluationException(condition: string, contextDetails: string, message: string): (e: Exception)
    ensures e.ConditionEvaluationException?
    ensures e.condition == condition && e.contextDetails == contextDetails && e.message == message
    ensures e.Cause().None?
  {
    ConditionEvaluationException(condition, contextDetails, message, None)
  }

  /** `new ConditionEvaluationException(condition, contextDetails, message, innerException)`. */
  function NewConditionEvaluationExceptionWithCause(condition: string, contextDetails: string, message: string,
                                                    innerException: Exception): (e: Exception)
    ensures e.ConditionEvaluationException?
    ensures e.condition == condition && e.contextDetails == contextDetails && e.message == message
    ensures e.Cause() == Some(innerException)
  {
    ConditionEvaluationException(condition, contextDetails, message, Some(innerException))
  }

  /** The exception followed by its causes, outermost first. */
  function CauseChain(e: Exception): (chain: seq<Exception>)
    ensures |chain| >= 1 && chain[0] == e
    decreases e
  {
    match e
    case ExpressionException(_) => [e]
    case FeatureEvaluationException(_, _, inner) =>
      if inner.Some? then [e] + CauseChain(inner.value) else [e]
    case ConditionEvaluationException(_, _, _, inner) =>
      if inner.Some? then [e] + CauseChain(inner.value) else [e]
  }
}
