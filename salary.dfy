/** The salary estimator `calculate_salary` of main.py: one point estimate from an
    optional lower and upper salary bound. */
module Salary {
  import opened Wrappers

  /** A salary bound as a listing service reports it: absent (JSON null) or a number.
      Numbers are exact reals; the floating-point rounding of the program is not modelled. */
  type Bound = Option<real>

  /** Python truthiness of a bound: an absent bound and a bound of 0 are both false. */
  predicate Truthy(b: Bound)
  {
    b.Some? && b.value != 0.0
  }

  /** A bound that is absent or not negative. */
  predicate NonNegative(b: Bound)
  {
    b.None? || b.value >= 0.0
  }

  /** `calculate_salary`: the midpoint of the two bounds when both are truthy, 20% above
      `from` when only `from` is, 20% below `to` when only `to` is, and no estimate
      otherwise. */
  function Estimate(from: Bound, to: Bound): (r: Option<real>)
    ensures r.Some? <==> Truthy(from) || Truthy(to)
    ensures Truthy(from) && Truthy(to) ==> r.value - from.value == to.value - r.value
    ensures Truthy(from) && !Truthy(to) ==> r.value == from.value + from.value / 5.0
    ensures !Truthy(from) && Truthy(to) ==> r.value == to.value - to.value / 5.0
  {
    if Truthy(from) then
      if Truthy(to) then Some((from.value + to.value) / 2.0)
      else Some(from.value * (6.0 / 5.0))
    else if Truthy(to) then Some(to.value * (4.0 / 5.0))
    else None
  }

  /** With both bounds present the estimate lies between them. */
  lemma EstimateBetweenBounds(from: real, to: real)
    requires from != 0.0 && to != 0.0
    ensures var r := Estimate(Some(from), Some(to));
      r.Some? &&
      (if from <= to then from <= r.value <= to else to <= r.value <= from)
  {
  }

  /** Salaries that are not negative give a positive estimate whenever they give one,
      so such an estimate is never dropped as falsy. */
  lemma EstimatePositive(from: Bound, to: Bound)
    requires NonNegative(from) && NonNegative(to)
    ensures Estimate(from, to).Some? ==> Estimate(from, to).value > 0.0
  {
  }

  /** Sample values: both bounds absent, zero, only `from`, only `to`, and both. */
  lemma EstimateExamples()
    ensures Estimate(None, None) == None
    ensures Estimate(Some(0.0), Some(0.0)) == None
    ensures Estimate(Some(100.0), None) == Some(120.0)
    ensures Estimate(Some(100.0), Some(0.0)) == Some(120.0)
    ensures Estimate(None, Some(100.0)) == Some(80.0)
    ensures Estimate(Some(100.0), Some(200.0)) == Some(150.0)
  {
  }
}
