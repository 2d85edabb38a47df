/** The balance rules shared by the payment paths: capping a payment and paying a loan down. */
module Rules {
  import opened Entities

  /** The part of a requested payment that is applied: never more than what is outstanding. */
  function Applied(requested: Money, outstanding: Money): (r: Money)
    ensures r <= requested && r <= outstanding
    ensures r == requested || r == outstanding
    ensures requested > 0 && outstanding > 0 ==> r > 0
  {
    if requested < outstanding then requested else outstanding
  }

  /** What is still owed after subtracting `applied`, floored at zero. */
  function Payoff(remaining: Money, applied: Money): (r: Money)
    ensures r >= 0
    ensures r == 0 <==> remaining - applied <= 0
    ensures r > 0 ==> r == remaining - applied
  {
    var left := remaining - applied;
    if left <= 0 then 0 else left
  }

  /** Applying the capped amount pays off a positive balance exactly when the request covers it. */
  lemma PayoffOfApplied(remaining: Money, requested: Money)
    requires remaining > 0 && requested > 0
    ensures Payoff(remaining, Applied(requested, remaining)) == remaining - Applied(requested, remaining)
    ensures Payoff(remaining, Applied(requested, remaining)) == 0 <==> requested >= remaining
  {
  }
}
