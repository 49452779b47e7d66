/**
 * The salary estimator: turns a vacancy's optional lower and upper salary
 * bounds into one predicted monthly figure, or into "no estimate".
 *
 * Python floats are modelled by `real`, which is exact where Python rounds.
 */
module Salary {
  import opened Wrappers

  /** The currency code of the local currency as the first provider spells it. */
  const LOCAL_CURRENCY: string := "RUR"

  /** Python truthiness of an optional integer bound: `None` and `0` are falsy. */
  predicate Falsy(bound: Option<int>) {
    bound.None? || bound.value == 0
  }

  predicate NonNegative(bound: Option<int>) {
    bound.None? || bound.value >= 0
  }

  /**
   * The estimate can be computed without a `TypeError`: when the upper bound
   * is falsy the lower bound is multiplied by 1.2, so it must not be `None`.
   */
  predicate Computable(salaryFrom: Option<int>, salaryTo: Option<int>) {
    !(Falsy(salaryTo) && salaryFrom.None?)
  }

  /**
   * The three-way case rule: a missing upper bound scales the lower one up
   * by 20%, a missing lower bound scales the upper one down by 20%, and two
   * bounds give their midpoint. The first case wins when both are falsy.
   */
  function CalculateAvgSalary(salaryFrom: Option<int>, salaryTo: Option<int>): (r: real)
    requires Computable(salaryFrom, salaryTo)
    ensures Falsy(salaryTo) ==> r == salaryFrom.value as real * 1.2
    ensures !Falsy(salaryTo) && Falsy(salaryFrom) ==> r == salaryTo.value as real * 0.8
    ensures !Falsy(salaryTo) && !Falsy(salaryFrom) ==>
              r - salaryFrom.value as real == salaryTo.value as real - r
    ensures !Falsy(salaryTo) && !Falsy(salaryFrom) ==>
              (salaryFrom.value <= salaryTo.value ==> salaryFrom.value as real <= r <= salaryTo.value as real)
    ensures NonNegative(salaryFrom) && NonNegative(salaryTo) ==> r >= 0.0
  {
    if Falsy(salaryTo) then
      salaryFrom.value as real * 1.2
    else if Falsy(salaryFrom) then
      salaryTo.value as real * 0.8
    else
      (salaryFrom.value + salaryTo.value) as real / 2.0
  }

  /**
   * First provider: no estimate exactly when the currency is not the local
   * one; otherwise the case rule on the bounds.
   */
  function PredictRubSalaryHh(salaryFrom: Option<int>, salaryTo: Option<int>, currency: string): (r: Option<real>)
    requires currency == LOCAL_CURRENCY ==> Computable(salaryFrom, salaryTo)
    ensures r.None? <==> currency != LOCAL_CURRENCY
    ensures r.Some? ==> r.value == CalculateAvgSalary(salaryFrom, salaryTo)
  {
    if currency != LOCAL_CURRENCY then None
    else Some(CalculateAvgSalary(salaryFrom, salaryTo))
  }

  /**
   * Second provider: no estimate exactly when both payments are 0; otherwise
   * the case rule with `paymentFrom` as the lower bound and `paymentTo` as
   * the upper one.
   */
  function PredictRubSalarySj(paymentFrom: int, paymentTo: int): (r: Option<real>)
    ensures r.None? <==> paymentFrom == 0 && paymentTo == 0
    ensures r.Some? ==> r.value == CalculateAvgSalary(Some(paymentFrom), Some(paymentTo))
  {
    if paymentFrom == 0 && paymentTo == 0 then None
    else Some(CalculateAvgSalary(Some(paymentFrom), Some(paymentTo)))
  }

  /** The worked examples of the estimator, for both providers. */
  lemma Scenarios()
    ensures PredictRubSalaryHh(Some(100000), Some(0), LOCAL_CURRENCY) == Some(120000.0)
    ensures PredictRubSalaryHh(Some(100000), None, LOCAL_CURRENCY) == Some(120000.0)
    ensures PredictRubSalaryHh(Some(0), Some(100000), LOCAL_CURRENCY) == Some(80000.0)
    ensures PredictRubSalaryHh(None, Some(100000), LOCAL_CURRENCY) == Some(80000.0)
    ensures PredictRubSalaryHh(Some(80000), Some(120000), LOCAL_CURRENCY) == Some(100000.0)
    ensures PredictRubSalaryHh(Some(80000), Some(120000), "USD") == None
    ensures PredictRubSalarySj(100000, 0) == Some(120000.0)
    ensures PredictRubSalarySj(0, 100000) == Some(80000.0)
    ensures PredictRubSalarySj(0, 0) == None
  {
  }
}
