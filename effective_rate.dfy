/**
  The fixed-notional effective-rate approximation of morgagestats.py.
  Rates are percentages, fees are currency amounts; all arithmetic is exact
  over `real` (the script's IEEE doubles are not modelled).
*/
module Rates {

  /** The notional principal the script uses by default: 2,000,000. */
  const LoanAmount: real := 2000000.0

  /**
    The formula on an arbitrary principal, as the function's signature allows.
    A zero principal would divide by zero, so the caller must avoid it.
    The result is the nominal rate plus the yearly fees (twelve term fees and
    the origination fee) expressed as a percentage of the principal.
  */
  function EffectiveRateOn(nominalRate: real, termFee: real, setupFee: real, loanAmount: real): (r: real)
    requires loanAmount != 0.0
    ensures r == nominalRate + (12.0 * termFee + setupFee) * 100.0 / loanAmount
  {
    var annualFee := termFee * 12.0;
    var interestAmount := (loanAmount * nominalRate) / 100.0;
    assert (interestAmount + annualFee + setupFee) * 100.0 == loanAmount * nominalRate + (annualFee + setupFee) * 100.0;
    (interestAmount + annualFee + setupFee) * 100.0 / loanAmount
  }

  /**
    The formula on the default principal, the only one the script uses.
    It simplifies to nominal + (12 * termFee + setupFee) / 20000; zero fees
    give back the nominal rate and non-negative fees never lower it.
  */
  function EffectiveRate(nominalRate: real, termFee: real, setupFee: real): (r: real)
    ensures r == nominalRate + (12.0 * termFee + setupFee) / 20000.0
    ensures termFee == 0.0 && setupFee == 0.0 ==> r == nominalRate
    ensures termFee >= 0.0 && setupFee >= 0.0 ==> r >= nominalRate
  {
    EffectiveRateOn(nominalRate, termFee, setupFee, LoanAmount)
  }

  /** The formula is monotone in each fee: a dearer offer never looks cheaper. */
  lemma EffectiveRateMonotone(nominalRate: real, termFee: real, setupFee: real, termFee': real, setupFee': real)
    requires termFee <= termFee' && setupFee <= setupFee'
    ensures EffectiveRate(nominalRate, termFee, setupFee) <= EffectiveRate(nominalRate, termFee', setupFee')
  {
  }

  /** Worked example: 5 % nominal, a term fee of 100 and no origination fee give 5.06 %. */
  lemma EffectiveRateExample()
    ensures EffectiveRate(5.0, 100.0, 0.0) == 5.06
    ensures EffectiveRate(6.0, 100.0, 0.0) == 6.06
  {
  }
}
