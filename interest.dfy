/** The simple-interest, compound-interest and SI-vs-CI screens. Each reads
    principal, rate (percent per year) and time (years) from three text
    fields through ToFloat. */
module Interest {
  import opened Outcomes
  import opened Coercion
  import opened Powers

  /** calculate_si: simple interest p*r*t/100; nothing in it can raise. */
  function CalculateSi(parse: Parser, pText: string, rText: string, tText: string): (res: Outcome<real>)
    ensures res.Ok?
    ensures res.value * 100.0
            == ToFloat(parse, pText) * ToFloat(parse, rText) * ToFloat(parse, tText)
  {
    var p, r, t := ToFloat(parse, pText), ToFloat(parse, rText), ToFloat(parse, tText);
    Ok((p * r * t) / 100.0)
  }

  /** calculate_ci: the pair (interest, total amount), with amount =
      p * (1 + r/100) ** t. "Invalid input." exactly when `**` raises. */
  function CalculateCi(parse: Parser, pow: PowFn, pText: string, rText: string, tText: string)
    : (res: Outcome<(real, real)>)
    ensures res.Ok? <==> pow(1.0 + ToFloat(parse, rText) / 100.0, ToFloat(parse, tText)).Some?
    ensures res.Err? ==> res.failure == InvalidInput
    ensures res.Ok? ==>
              res.value.1 == ToFloat(parse, pText) * pow(1.0 + ToFloat(parse, rText) / 100.0, ToFloat(parse, tText)).value
    ensures res.Ok? ==> res.value.0 + ToFloat(parse, pText) == res.value.1
  {
    var p, r, t := ToFloat(parse, pText), ToFloat(parse, rText), ToFloat(parse, tText);
    match pow(1.0 + r / 100.0, t)
    case None => Err(InvalidInput)
    case Some(g) =>
      var a := p * g;
      Ok((a - p, a))
  }

  /** compare: the pair (simple interest, compound interest), each written
      out again on that screen; it shows the same two numbers as the
      simple- and compound-interest screens for the same three texts. */
  function Compare(parse: Parser, pow: PowFn, pText: string, rText: string, tText: string)
    : (res: Outcome<(real, real)>)
    ensures res.Ok? <==> CalculateCi(parse, pow, pText, rText, tText).Ok?
    ensures res.Err? ==> res.failure == InvalidInput
    ensures res.Ok? ==> res.value.0 == CalculateSi(parse, pText, rText, tText).value
    ensures res.Ok? ==> res.value.1 == CalculateCi(parse, pow, pText, rText, tText).value.0
  {
    var p, r, t := ToFloat(parse, pText), ToFloat(parse, rText), ToFloat(parse, tText);
    match pow(1.0 + r / 100.0, t)
    case None => Err(InvalidInput)
    case Some(g) =>
      var si := (p * r * t) / 100.0;
      var ci := p * g - p;
      Ok((si, ci))
  }

  /** An empty or unreadable field reaches the formula as zero, so the
      simple interest shown is 0 rather than an error. */
  lemma UnreadableFieldGivesZeroInterest(parse: Parser, pText: string, rText: string, tText: string)
    requires parse(pText).None? || parse(rText).None? || parse(tText).None?
    ensures CalculateSi(parse, pText, rText, tText) == Ok(0.0)
  {
  }

  /** For a whole number of years n, the total amount is p * (1 + r/100)^n. */
  lemma {:induction false} WholeYearsAmount(parse: Parser, pow: PowFn, pText: string, rText: string, tText: string, n: nat)
    requires ExactOnWholeExponents(pow)
    requires ToFloat(parse, tText) == n as real
    ensures CalculateCi(parse, pow, pText, rText, tText).Ok?
    ensures CalculateCi(parse, pow, pText, rText, tText).value.1
            == ToFloat(parse, pText) * Power(1.0 + ToFloat(parse, rText) / 100.0, n)
  {
    var b := 1.0 + ToFloat(parse, rText) / 100.0;
    assert pow(b, n as real) == Some(Power(b, n));
  }

  /** At a zero rate and a whole number of years, no compound interest accrues. */
  lemma {:induction false} ZeroRateNoCompoundInterest(parse: Parser, pow: PowFn, pText: string, rText: string, tText: string, n: nat)
    requires ExactOnWholeExponents(pow)
    requires ToFloat(parse, tText) == n as real
    requires ToFloat(parse, rText) == 0.0
    ensures CalculateCi(parse, pow, pText, rText, tText) == Ok((0.0, ToFloat(parse, pText)))
  {
    WholeYearsAmount(parse, pow, pText, rText, tText, n);
    PowerOfOne(n);
  }

  /** On the comparison screen, for a non-negative principal, a rate of at
      least -100% and a whole number of years, compound interest is never
      below simple interest (Bernoulli's inequality). */
  lemma {:induction false} CompoundAtLeastSimple(parse: Parser, pow: PowFn, pText: string, rText: string, tText: string, n: nat)
    requires ExactOnWholeExponents(pow)
    requires ToFloat(parse, tText) == n as real
    requires ToFloat(parse, pText) >= 0.0 && ToFloat(parse, rText) >= -100.0
    ensures Compare(parse, pow, pText, rText, tText).Ok?
    ensures Compare(parse, pow, pText, rText, tText).value.1
            >= Compare(parse, pow, pText, rText, tText).value.0
  {
    var p, r := ToFloat(parse, pText), ToFloat(parse, rText);
    var x := r / 100.0;
    assert pow(1.0 + x, n as real) == Some(Power(1.0 + x, n));
    Bernoulli(x, n);
    ScaleInequality(p, Power(1.0 + x, n), 1.0 + (n as real) * x);
    assert p * (1.0 + (n as real) * x) - p == (p * r * (n as real)) / 100.0;
  }
}
