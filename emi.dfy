/** The loan EMI screen: the equated monthly instalment for a loan amount,
    an annual rate in percent and a tenure in years. */
module Emi {
  import opened Outcomes
  import opened Coercion
  import opened Powers

  /** calculate_emi, with monthly rate r = rate/12/100 and n = 12*years
      months: P*r*(1+r)**n / ((1+r)**n - 1). "Invalid input." when `**`
      raises or the denominator is zero. */
  function CalculateEmi(parse: Parser, pow: PowFn, pText: string, rateText: string, yearsText: string)
    : (res: Outcome<real>)
    ensures res.Err? ==> res.failure == InvalidInput
    ensures
      var r := ToFloat(parse, rateText) / 12.0 / 100.0;
      var g := pow(1.0 + r, ToFloat(parse, yearsText) * 12.0);
      && (res.Ok? <==> g.Some? && g.value != 1.0)
      && (res.Ok? ==> res.value * (g.value - 1.0) == ToFloat(parse, pText) * r * g.value)
  {
    var p, annualRate, years := ToFloat(parse, pText), ToFloat(parse, rateText), ToFloat(parse, yearsText);
    var r := annualRate / 12.0 / 100.0;
    var n := years * 12.0;
    match pow(1.0 + r, n)
    case None => Err(InvalidInput)
    case Some(g) =>
      if g - 1.0 == 0.0 then Err(InvalidInput)
      else Ok((p * r * g) / (g - 1.0))
  }

  /** What is still owed after paying `payment` at the end of each of
      `months` months, interest accruing at r per month. */
  ghost function Balance(principal: real, r: real, payment: real, months: nat): real
  {
    if months == 0 then principal
    else Balance(principal, r, payment, months - 1) * (1.0 + r) - payment
  }

  /** One month of the closed form: the algebra behind BalanceClosedForm. */
  lemma ClosedFormStep(principal: real, r: real, payment: real, b: real, g: real)
    requires b * r == principal * r * g - payment * (g - 1.0)
    ensures (b * (1.0 + r) - payment) * r
            == principal * r * ((1.0 + r) * g) - payment * ((1.0 + r) * g - 1.0)
  {
    calc {
      (b * (1.0 + r) - payment) * r;
      (b * r) * (1.0 + r) - payment * r;
      (principal * r * g - payment * (g - 1.0)) * (1.0 + r) - payment * r;
      principal * r * ((1.0 + r) * g) - payment * ((1.0 + r) * g - 1.0);
    }
  }

  /** The balance in closed form (scaled by r to stay division-free). */
  lemma {:induction false} BalanceClosedForm(principal: real, r: real, payment: real, k: nat)
    ensures Balance(principal, r, payment, k) * r
            == principal * r * Power(1.0 + r, k) - payment * (Power(1.0 + r, k) - 1.0)
  {
    if k > 0 {
      BalanceClosedForm(principal, r, payment, k - 1);
      var b, g := Balance(principal, r, payment, k - 1), Power(1.0 + r, k - 1);
      assert Balance(principal, r, payment, k) == b * (1.0 + r) - payment;
      assert Power(1.0 + r, k) == (1.0 + r) * g;
      ClosedFormStep(principal, r, payment, b, g);
    }
  }

  /** A whole number of years reaches `**` as a natural exponent. */
  lemma WholeTenurePower(parse: Parser, pow: PowFn, rateText: string, yearsText: string, k: nat)
    requires ExactOnWholeExponents(pow)
    requires ToFloat(parse, yearsText) == k as real
    ensures
      var r := ToFloat(parse, rateText) / 12.0 / 100.0;
      pow(1.0 + r, ToFloat(parse, yearsText) * 12.0) == Some(Power(1.0 + r, 12 * k))
  {
    var r := ToFloat(parse, rateText) / 12.0 / 100.0;
    assert ToFloat(parse, yearsText) * 12.0 == (12 * k) as real;
    assert pow(1.0 + r, (12 * k) as real) == Some(Power(1.0 + r, 12 * k));
  }

  /** Paying the EMI every month for the whole tenure clears the loan exactly. */
  lemma {:induction false} EmiRepaysLoan(parse: Parser, pow: PowFn, pText: string, rateText: string, yearsText: string, k: nat)
    requires ExactOnWholeExponents(pow)
    requires ToFloat(parse, yearsText) == k as real
    requires CalculateEmi(parse, pow, pText, rateText, yearsText).Ok?
    ensures
      var r := ToFloat(parse, rateText) / 12.0 / 100.0;
      Balance(ToFloat(parse, pText), r, CalculateEmi(parse, pow, pText, rateText, yearsText).value, 12 * k) == 0.0
  {
    var p, r := ToFloat(parse, pText), ToFloat(parse, rateText) / 12.0 / 100.0;
    var emi := CalculateEmi(parse, pow, pText, rateText, yearsText).value;
    WholeTenurePower(parse, pow, rateText, yearsText, k);
    var g := Power(1.0 + r, 12 * k);
    BalanceClosedForm(p, r, emi, 12 * k);
    assert emi * (g - 1.0) == p * r * g;
    if r == 0.0 {
      PowerOfOne(12 * k);
      assert false;
    }
    assert Balance(p, r, emi, 12 * k) * r == 0.0;
  }

  /** At a zero annual rate, or a zero tenure, (1+r)**n is 1, the
      denominator is zero and the screen shows "Invalid input.". */
  lemma {:induction false} ZeroRateOrTenureIsInvalid(parse: Parser, pow: PowFn, pText: string, rateText: string, yearsText: string, k: nat)
    requires ExactOnWholeExponents(pow)
    requires ToFloat(parse, yearsText) == k as real
    requires ToFloat(parse, rateText) == 0.0 || k == 0
    ensures CalculateEmi(parse, pow, pText, rateText, yearsText) == Err(InvalidInput)
  {
    WholeTenurePower(parse, pow, rateText, yearsText, k);
    PowerOfOne(12 * k);
  }

  /** A positive rate over at least one whole year gives an EMI, and for a
      positive loan amount that EMI is positive. */
  lemma {:induction false} PositiveRateGivesEmi(parse: Parser, pow: PowFn, pText: string, rateText: string, yearsText: string, k: nat)
    requires ExactOnWholeExponents(pow)
    requires ToFloat(parse, yearsText) == k as real && k > 0
    requires ToFloat(parse, rateText) > 0.0
    ensures CalculateEmi(parse, pow, pText, rateText, yearsText).Ok?
    ensures ToFloat(parse, pText) > 0.0 ==> CalculateEmi(parse, pow, pText, rateText, yearsText).value > 0.0
  {
    var r := ToFloat(parse, rateText) / 12.0 / 100.0;
    WholeTenurePower(parse, pow, rateText, yearsText, k);
    PowerAboveOne(1.0 + r, 12 * k);
    var g := Power(1.0 + r, 12 * k);
    var p := ToFloat(parse, pText);
    if p > 0.0 {
      assert p * r * g > 0.0;
      assert (p * r * g) / (g - 1.0) > 0.0;
    }
  }
}
