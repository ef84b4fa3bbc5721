/** The BMI screen: weight (kg) over height (m) squared, and its category. */
module Bmi {
  import opened Outcomes
  import opened Coercion

  datatype Category = Underweight | Normal | Overweight | Obese

  /** The label printed after the BMI value. */
  function Label(c: Category): string
  {
    match c
    case Underweight => "Underweight"
    case Normal => "Normal"
    case Overweight => "Overweight"
    case Obese => "Obese"
  }

  /** Position of a category on the scale, lightest first. */
  function Rank(c: Category): nat
  {
    match c
    case Underweight => 0
    case Normal => 1
    case Overweight => 2
    case Obese => 3
  }

  /** The four-way threshold classification; every BMI gets exactly one
      category, and each category is exactly its interval. */
  function Classify(bmi: real): (c: Category)
    ensures c == Underweight <==> bmi < 18.5
    ensures c == Normal <==> 18.5 <= bmi < 25.0
    ensures c == Overweight <==> 25.0 <= bmi < 30.0
    ensures c == Obese <==> 30.0 <= bmi
  {
    if bmi < 18.5 then Underweight
    else if bmi < 25.0 then Normal
    else if bmi < 30.0 then Overweight
    else Obese
  }

  /** A larger BMI never lands in a lighter category. */
  lemma ClassifyMonotone(a: real, b: real)
    requires a <= b
    ensures Rank(Classify(a)) <= Rank(Classify(b))
  {
  }

  /** A non-zero height has a non-zero square. */
  lemma SquareOfNonZero(h: real)
    requires h != 0.0
    ensures h * h != 0.0
  {
    if h < 0.0 {
      var a := -h;
      assert a * a > 0.0;
      assert h * h == a * a;
    } else {
      assert h * h > 0.0;
    }
  }

  /** calculate_bmi: (bmi, category). A zero height (an empty height field
      included) divides by zero and shows "Invalid input."; otherwise the
      BMI times the squared height gives back the weight. */
  function CalculateBmi(parse: Parser, weightText: string, heightText: string): (res: Outcome<(real, Category)>)
    ensures res.Ok? <==> ToFloat(parse, heightText) != 0.0
    ensures res.Err? ==> res.failure == InvalidInput
    ensures res.Ok? ==> res.value.0 * (ToFloat(parse, heightText) * ToFloat(parse, heightText))
                        == ToFloat(parse, weightText)
    ensures res.Ok? ==> res.value.1 == Classify(res.value.0)
  {
    var weight, height := ToFloat(parse, weightText), ToFloat(parse, heightText);
    // height ** 2 is zero exactly when height is; dividing by it raises
    if height == 0.0 then Err(InvalidInput)
    else
      SquareOfNonZero(height);
      var bmi := weight / (height * height);
      Ok((bmi, Classify(bmi)))
  }

  /** An empty height field is read as 0, so the screen shows "Invalid input.". */
  lemma UnreadableHeightIsInvalid(parse: Parser, weightText: string, heightText: string)
    requires parse(heightText).None?
    ensures CalculateBmi(parse, weightText, heightText) == Err(InvalidInput)
  {
  }
}
