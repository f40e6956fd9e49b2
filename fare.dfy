/**
 * `compute_fare`: base fare plus a rate per unit of distance, rounded to
 * two decimals. Money is kept in integer cents, where the rounding is exact.
 */
module Fares {

  /** `BASE_FARE = 20.0`, in cents. */
  const BaseFareCents: nat := 2000

  /** `RATE_PER_KM = 10.0`, in cents. */
  const RatePerKmCents: nat := 1000

  /** `round(BASE_FARE + distance * RATE_PER_KM, 2)`, in cents. */
  function Fare(distance: nat): (cents: nat)
    ensures cents >= BaseFareCents
    ensures DistanceCharged(cents) == distance
  {
    BaseFareCents + distance * RatePerKmCents
  }

  /** The distance a fare pays for: the fare minus the base, over the rate. */
  function DistanceCharged(cents: nat): nat
  {
    if cents < BaseFareCents then 0 else (cents - BaseFareCents) / RatePerKmCents
  }

  /** A trip of length zero costs exactly the base fare. */
  lemma FareOfNoDistance()
    ensures Fare(0) == BaseFareCents
  {
  }

  /** A longer trip always costs strictly more. */
  lemma FareStrictlyIncreasing(d1: nat, d2: nat)
    ensures d1 < d2 <==> Fare(d1) < Fare(d2)
  {
  }
}
