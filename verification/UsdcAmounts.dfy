/** USDC amounts as typed in and as units of a millionth, over exact arithmetic. */
module UsdcAmounts {

  /** Math.round of the amount in millionths; halves go up. */
  function Units(amount: real): int {
    (amount * 1000000.0 + 0.5).Floor
  }

  function FromUnits(units: int): real {
    units as real / 1000000.0
  }

  /** The borrow wizard lets a positive amount pass that is at most the pool's maximum, give or take a
      billionth. */
  predicate WizardAccepts(amount: real, maxUnits: nat) {
    amount > 0.0 && amount <= FromUnits(maxUnits) + 0.000000001
  }

  /** These units are the whole number of millionths next to the amount; a half goes up. */
  predicate Nearest(units: int, amount: real) {
    units as real - 0.5 <= amount * 1000000.0 < units as real + 0.5
  }

  lemma UnitsExactlyNearest(units: int, amount: real)
    ensures Units(amount) == units <==> Nearest(units, amount)
  {
  }

  lemma UnitsRoundTrip(units: int)
    ensures Units(FromUnits(units)) == units
  {
    assert FromUnits(units) * 1000000.0 == units as real;
  }

  /** The pool client's own limit check passes exactly below half a unit above the maximum. */
  lemma WithinQuoteExactlyIf(amount: real, maxUnits: nat)
    ensures Units(amount) <= maxUnits <==> amount < FromUnits(maxUnits) + 0.0000005
  {
    assert FromUnits(maxUnits) * 1000000.0 == maxUnits as real;
    assert (FromUnits(maxUnits) + 0.0000005) * 1000000.0 == maxUnits as real + 0.5;
  }

  /** And its check for a positive amount passes exactly from half a unit on. */
  lemma PositiveExactlyIf(amount: real)
    ensures Units(amount) > 0 <==> amount >= 0.0000005
  {
  }

  /** The wizard lets the whole quote pass, and refuses what is more than a billionth above it. */
  lemma WizardLimitExactly(amount: real, maxUnits: nat)
    ensures WizardAccepts(amount, maxUnits) <==>
              0.0 < amount && amount * 1000000000.0 <= maxUnits as real * 1000.0 + 1.0
  {
    assert FromUnits(maxUnits) * 1000000000.0 == maxUnits as real * 1000.0;
  }

  /** What the wizard accepts never exceeds the same quote in the pool client; it is refused there only
      for rounding to nothing. */
  lemma WizardAgreesWithPool(amount: real, maxUnits: nat)
    requires WizardAccepts(amount, maxUnits)
    ensures Units(amount) <= maxUnits
    ensures Units(amount) <= 0 <==> amount < 0.0000005
  {
    WithinQuoteExactlyIf(amount, maxUnits);
    PositiveExactlyIf(amount);
  }
}
