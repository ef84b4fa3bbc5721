/** The two shared helpers that turn the text of an input field into a number. */
module Coercion {
  import opened Outcomes

  /** Python's float() on a text, kept abstract: Some(x) when the text reads
      as the number x, None when float() raises. */
  type Parser = string -> Option<real>

  /** to_float: a text that does not parse becomes 0 instead of an error. */
  function ToFloat(parse: Parser, text: string): (x: real)
    ensures parse(text).None? ==> x == 0.0
    ensures parse(text).Some? ==> x == parse(text).value
  {
    match parse(text)
    case Some(v) => v
    case None => 0.0
  }

  /** is_positive_float: the text parses and its value is above zero. */
  function IsPositiveFloat(parse: Parser, text: string): (b: bool)
    ensures b <==> parse(text).Some? && parse(text).value > 0.0
  {
    match parse(text)
    case Some(v) => v > 0.0
    case None => false
  }

  /** The two helpers agree: a text is a positive float exactly when its
      coerced value is positive (an unparsable text coerces to 0, which is not). */
  lemma PositiveIffCoercedPositive(parse: Parser, text: string)
    ensures IsPositiveFloat(parse, text) <==> ToFloat(parse, text) > 0.0
  {
  }
}
