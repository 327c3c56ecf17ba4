/**
  The records the roadmap works on: an intervention with its timeline and cost
  parameters. Amounts and headcounts are JavaScript numbers and are modelled as
  `real` (exact, so IEEE-754 rounding is not reproduced).
 */
module Interventions {
  import opened Dates

  datatype Option<T> = None | Some(value: T)

  datatype CostBreakdown = CostBreakdown(
    implementationCost: real,
    ongoingCostPEPM: real,
    ongoingCostFixed: real,
    oneTimeFixedFee: real)

  datatype InterventionTimeline = InterventionTimeline(
    implementationStartDate: CalendarDate,
    implementationEndDate: CalendarDate,
    ongoingStartDate: CalendarDate,
    ongoingEndDate: CalendarDate)

  /** `eligibleEmployees` is optional in the record type. */
  datatype Intervention = Intervention(
    id: int,
    name: string,
    description: string,
    timeline: InterventionTimeline,
    costs: CostBreakdown,
    eligibleEmployees: Option<real>)

  /** Every amount and the headcount are non-negative, as the edit form is meant to supply. */
  predicate NonNegative(iv: Intervention) {
    && iv.costs.implementationCost >= 0.0
    && iv.costs.ongoingCostPEPM >= 0.0
    && iv.costs.ongoingCostFixed >= 0.0
    && iv.costs.oneTimeFixedFee >= 0.0
    && (iv.eligibleEmployees.Some? ==> iv.eligibleEmployees.value >= 0.0)
  }

  /** JavaScript truthiness of `eligibleEmployees`: absent and 0 are false, any other number true. */
  function HasEmployees(iv: Intervention): (b: bool)
    ensures iv.eligibleEmployees == None ==> !b
    ensures iv.eligibleEmployees == Some(0.0) ==> !b
    ensures iv.eligibleEmployees.Some? && iv.eligibleEmployees.value > 0.0 ==> b
    ensures b ==> iv.eligibleEmployees.Some?
  {
    iv.eligibleEmployees.Some? && iv.eligibleEmployees.value != 0.0
  }
}
