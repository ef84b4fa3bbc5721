/** The temperature and unit converter screens: one value field and a
    spinner whose text selects the conversion. */
module Converters {
  import opened Outcomes
  import opened Coercion

  const CelsiusToFahrenheit: string := "Celsius to Fahrenheit"
  const FahrenheitToCelsius: string := "Fahrenheit to Celsius"
  const CelsiusToKelvin: string := "Celsius to Kelvin"
  const FahrenheitToKelvin: string := "Fahrenheit to Kelvin"

  const MetersToKilometers: string := "Meters to Kilometers"
  const KilometersToMiles: string := "Kilometers to Miles"

  /** The spinner's four temperature choices. */
  function TemperatureModes(): set<string>
  {
    {CelsiusToFahrenheit, FahrenheitToCelsius, CelsiusToKelvin, FahrenheitToKelvin}
  }

  /** The spinner's two unit choices. */
  function UnitModes(): set<string>
  {
    {MetersToKilometers, KilometersToMiles}
  }

  /** TemperatureScreen.convert. A mode matching none of the four branches
      leaves `result` unbound; the NameError is caught and "Invalid input."
      is shown. */
  function ConvertTemperature(parse: Parser, text: string, mode: string): (res: Outcome<real>)
    ensures res.Ok? <==> mode in TemperatureModes()
    ensures res.Err? ==> res.failure == InvalidInput
    ensures mode == CelsiusToFahrenheit ==> res.value == ToFloat(parse, text) * 9.0 / 5.0 + 32.0
    ensures mode == FahrenheitToCelsius ==> res.value == (ToFloat(parse, text) - 32.0) * 5.0 / 9.0
  {
    var temp := ToFloat(parse, text);
    if mode == CelsiusToFahrenheit then Ok(temp * 9.0 / 5.0 + 32.0)
    else if mode == FahrenheitToCelsius then Ok((temp - 32.0) * 5.0 / 9.0)
    else if mode == CelsiusToKelvin then Ok(temp + 273.15)
    else if mode == FahrenheitToKelvin then Ok((temp - 32.0) * 5.0 / 9.0 + 273.15)
    else Err(InvalidInput)
  }

  /** Typing a Celsius-to-Fahrenheit result back in as Fahrenheit and
      converting to Celsius gives the original value, and the other way round. */
  lemma TemperatureRoundTrip(parse: Parser, text: string, back: string)
    ensures ToFloat(parse, back) == ConvertTemperature(parse, text, CelsiusToFahrenheit).value
            ==> ConvertTemperature(parse, back, FahrenheitToCelsius) == Ok(ToFloat(parse, text))
    ensures ToFloat(parse, back) == ConvertTemperature(parse, text, FahrenheitToCelsius).value
            ==> ConvertTemperature(parse, back, CelsiusToFahrenheit) == Ok(ToFloat(parse, text))
  {
  }

  /** Kelvin is Celsius shifted by 273.15: directly from Celsius, and from
      Fahrenheit through its Celsius value. */
  lemma KelvinIsShiftedCelsius(parse: Parser, text: string)
    ensures ConvertTemperature(parse, text, CelsiusToKelvin) == Ok(ToFloat(parse, text) + 273.15)
    ensures ConvertTemperature(parse, text, FahrenheitToKelvin)
            == Ok(ConvertTemperature(parse, text, FahrenheitToCelsius).value + 273.15)
  {
  }

  /** UnitConverterScreen.convert; an unknown mode shows "Invalid input.". */
  function ConvertUnit(parse: Parser, text: string, mode: string): (res: Outcome<real>)
    ensures res.Ok? <==> mode in UnitModes()
    ensures res.Err? ==> res.failure == InvalidInput
  {
    var value := ToFloat(parse, text);
    if mode == MetersToKilometers then Ok(value / 1000.0)
    else if mode == KilometersToMiles then Ok(value * 0.621371)
    else Err(InvalidInput)
  }

  /** Each conversion is undone by its inverse scale factor, and for a
      positive distance a mile count is below the kilometre count. */
  lemma UnitConversionInverse(parse: Parser, text: string)
    ensures ConvertUnit(parse, text, MetersToKilometers).value * 1000.0 == ToFloat(parse, text)
    ensures ConvertUnit(parse, text, KilometersToMiles).value / 0.621371 == ToFloat(parse, text)
    ensures ToFloat(parse, text) > 0.0
            ==> 0.0 < ConvertUnit(parse, text, KilometersToMiles).value < ToFloat(parse, text)
  {
  }

  /** Both unit conversions are linear in the value typed. */
  lemma UnitConversionLinear(parse: Parser, a: string, b: string, sum: string, mode: string)
    requires mode in UnitModes()
    requires ToFloat(parse, sum) == ToFloat(parse, a) + ToFloat(parse, b)
    ensures ConvertUnit(parse, sum, mode).value
            == ConvertUnit(parse, a, mode).value + ConvertUnit(parse, b, mode).value
  {
  }
}
