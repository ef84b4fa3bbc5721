# MegaCalc calculation and navigation core, in Dafny

MegaCalc is a Kivy application with a menu of nine calculator screens. This
project models what sits under the widgets:

- the two input helpers, `to_float` and `is_positive_float`;
- the calculation each screen runs when its button is pressed: simple
  interest, compound interest, BMI, loan EMI, temperature conversion, unit
  conversion, age, and the SI-vs-CI comparison;
- the screen router, i.e. which of the ten registered screens the
  `ScreenManager` shows.

Numbers are exact Dafny `real`s, not IEEE doubles. Python's `float()` on a
text is a parameter `parse: string -> Option<real>` (`None` when it raises).
Python's `**` on two floats is a parameter `pow: (real, real) -> Option<real>`
(`None` when it raises, e.g. zero to a negative power). Whole-year properties
of compound interest and EMI assume `Powers.ExactOnWholeExponents(pow)`: on a
natural exponent `**` is repeated multiplication (the recursive `Powers.Power`).
`datetime.today()` is a parameter `today`.

Each calculator is a function from the screen's input texts (and spinner text)
to an `Outcome`. An `Outcome` is either `Ok(value)` or one of the two error
messages the screens print, "Invalid input." and "Invalid date format.". The
bare `except:` in every calculator becomes an explicit error branch for each
of these ways the Python body can raise in exact arithmetic (floating-point
overflow is not modelled, see "Left out"):
- division by zero (BMI, EMI);
- `**` raising (compound interest, comparison, EMI);
- an unbound `result` when the spinner text matches no branch (temperature, unit);
- `strptime` refusing the text (age).

Navigation is a class `ScreenManager` with the single mutable field `current`.
`Open` is a menu button and `Back` is a screen's Back button. Both are proved
against the pure transition function `Navigation.Next`.

Modules: `Outcomes` (result types), `Coercion` (`to_float`, `is_positive_float`),
`Powers` (exponentiation), `Interest` (SI, CI, comparison), `Bmi`, `Emi`,
`Converters` (temperature, unit), `Age` (`strptime` for `%Y-%m-%d`, the age rule),
`Navigation`.

Behaviours worth knowing:
- At a 0% annual rate the program shows "Invalid input." (the denominator
  `(1+r)**n - 1` is zero); it does not special-case it to `P/n`.
- A temperature mode outside the four labels shows "Invalid input." (the
  unbound `result` raises inside the `try`); the previous result is not left
  in place.
- `strptime` with `%Y-%m-%d` accepts one-digit months and days, and a day
  padded with a space (`2000-1-5`, `2000-01- 5`), besides the two-digit
  forms. `Age.ParseDate` models the `strptime` field patterns exactly.
- The menu and Back handlers are written as lambdas containing an
  assignment (`lambda ...: self.manager.current = screen`,
  MegaCalc.py:44, 63, 145, 177, 203, 245). That is not valid Python. The
  model gives them their evident meaning: set the current screen.

## Model

| member | source | states |
|---|---|---|
| Coercion.ToFloat | MegaCalc.py:18-22 | a text that does not parse becomes 0, never an error; a text that parses keeps its value |
| Coercion.IsPositiveFloat | MegaCalc.py:12-16 | true exactly when the text parses and its value is above 0; an unparsable text gives false, not an error |
| Coercion.PositiveIffCoercedPositive | MegaCalc.py:12-22 | `is_positive_float(t)` holds exactly when `to_float(t) > 0` |
| Outcomes.MessagesDiffer | MegaCalc.py:211-213 | the age screen's "Invalid date format." differs from the other screens' "Invalid input." |
| Interest.CalculateSi | MegaCalc.py:66-72 | simple interest never fails, and 100 times it equals principal times rate times time |
| Interest.UnreadableFieldGivesZeroInterest | MegaCalc.py:68-69 | an empty or unreadable field reaches the formula as 0, so the interest shown is 0 |
| Interest.CalculateCi | MegaCalc.py:82-89 | fails ("Invalid input.") exactly when `**` raises; otherwise the total amount is p * (1 + r/100) ** t and interest plus principal equals it |
| Interest.WholeYearsAmount | MegaCalc.py:84-86 | for a whole number n of years the total amount is p*(1+r/100)^n |
| Interest.ZeroRateNoCompoundInterest | MegaCalc.py:84-86 | at a 0% rate over whole years the interest is 0 and the total is the principal |
| Interest.Compare | MegaCalc.py:223-230 | fails exactly when the CI screen fails; its SI is the SI screen's value and its CI the CI screen's interest |
| Interest.CompoundAtLeastSimple | MegaCalc.py:225-227 | for principal >= 0, rate >= -100% and whole years the comparison's CI is at least its SI |
| Bmi.Classify | MegaCalc.py:104-106 | every BMI gets exactly one of the four categories, each category being exactly its threshold interval |
| Bmi.ClassifyMonotone | MegaCalc.py:104-106 | a larger BMI never gets a lighter category |
| Bmi.SquareOfNonZero | MegaCalc.py:103 | `height ** 2` is non-zero for a non-zero height, so only a zero height divides by zero |
| Bmi.CalculateBmi | MegaCalc.py:100-109 | "Invalid input." exactly when the height is 0; otherwise BMI times height squared gives the weight, with the category of that BMI |
| Bmi.UnreadableHeightIsInvalid | MegaCalc.py:102-103 | an empty height field is read as 0 and shows "Invalid input." |
| Emi.CalculateEmi | MegaCalc.py:121-129 | with r = rate/12/100 and n = 12*years: fails exactly when `(1+r)**n` raises or equals 1; otherwise emi*((1+r)^n - 1) = P*r*(1+r)^n |
| Emi.WholeTenurePower | MegaCalc.py:124-126 | a whole number k of years reaches `**` as the natural exponent 12k |
| Emi.BalanceClosedForm | MegaCalc.py:126 | after k monthly payments the balance owed is the annuity closed form in (1+r)^k |
| Emi.EmiRepaysLoan | MegaCalc.py:124-127 | paying the EMI shown every month for the whole tenure leaves exactly nothing owed |
| Emi.ZeroRateOrTenureIsInvalid | MegaCalc.py:124-129 | a 0% rate or a 0-year tenure makes the denominator 0 and shows "Invalid input." |
| Emi.PositiveRateGivesEmi | MegaCalc.py:124-127 | a positive rate over at least one year gives an EMI, positive when the loan amount is |
| Converters.ConvertTemperature | MegaCalc.py:148-162 | a value exactly for the four spinner labels, "Invalid input." for any other mode; C to F is v*9/5+32 and F to C is (v-32)*5/9 |
| Converters.TemperatureRoundTrip | MegaCalc.py:152-155 | C to F followed by F to C is the identity, and F to C followed by C to F too |
| Converters.KelvinIsShiftedCelsius | MegaCalc.py:156-159 | C to K is the value plus 273.15; F to K is F to C plus 273.15 |
| Converters.ConvertUnit | MegaCalc.py:180-190 | a value exactly for the two spinner labels, "Invalid input." for any other mode |
| Converters.UnitConversionInverse | MegaCalc.py:184-187 | m to km times 1000 and km to mi divided by 0.621371 give back the value; a positive distance in miles is below it in km |
| Converters.UnitConversionLinear | MegaCalc.py:184-187 | both unit conversions are additive in the value typed |
| Age.DaysInMonth | MegaCalc.py:208 | April, June, September and November have 30 days, February 29 exactly in leap years (else 28), the other months 31 |
| Age.YearField | MegaCalc.py:208 | the `%Y` field is four digits, a number from 0 to 9999, and the text is that number written with four digits |
| Age.MonthField | MegaCalc.py:208 | the `%m` field reads only months 1 to 12, and the text is one of that month's spellings (two digits, or one digit for months 1-9) |
| Age.DayField | MegaCalc.py:208 | the `%d` field reads only days 1 to 31, and the text is one of that day's spellings (two digits, or for days 1-9 one digit alone or after a space) |
| Age.MonthSpellingsRead | MegaCalc.py:208 | every spelling of a month is read as that month (the converse of `MonthField`'s contract) |
| Age.DaySpellingsRead | MegaCalc.py:208 | every spelling of a day is read as that day (the converse of `DayField`'s contract) |
| Age.ParseDate | MegaCalc.py:208 | every date `strptime` reads with `%Y-%m-%d` is a date datetime can hold (year 1-9999, real month, day the month has), and the text spells exactly that date: four-digit year, hyphen, a spelling of the month, hyphen, a spelling of the day |
| Age.SpellingsAreRead | MegaCalc.py:208 | conversely, every spelling of every date datetime can hold is read as that date, so a text is read as date d exactly when it spells d |
| Age.FormatThenParse | MegaCalc.py:208 | every such date written YYYY-MM-DD is read back as itself |
| Age.ImpossibleDatesRejected | MegaCalc.py:208 | February 29 is read only in leap years and no February day beyond it |
| Age.DateShapesRead | MegaCalc.py:208 | the padded form and a one-digit month and day are read as the date they spell |
| Age.PaddedAndLeapDaysRead | MegaCalc.py:208 | a space-padded day is read, and Feb 29 in a leap year |
| Age.DateShapesRefused | MegaCalc.py:208 | Feb 29 in a common year, Feb 30 and April 31 are refused |
| Age.MalformedDatesRefused | MegaCalc.py:208 | year 0, trailing characters and non-dates are refused |
| Age.CalculateAge | MegaCalc.py:206-213 | an age exactly when the text parses as a date, and that age is `AgeOn` of the parsed date and today; otherwise "Invalid date format.", never "Invalid input." |
| Age.AgeOn | MegaCalc.py:210 | the year difference minus one when today's (month, day) is before the birthday's: today is on or after the age-th anniversary and before the next |
| Age.AgeIsCompletedYears | MegaCalc.py:210 | no number other than the age has today on or after its anniversary and before the next one |
| Age.AgeOnBirthday | MegaCalc.py:210 | on the birthday itself the age is the plain difference of the years |
| Age.FutureBirthNegativeAge | MegaCalc.py:210 | a birth date after today gives a negative age (nothing guards against it) |
| Navigation.MenuOpensEveryFeature | MegaCalc.py:30-44 | the nine menu buttons open nine distinct screens, exactly the registered screens other than the menu |
| Navigation.Next | MegaCalc.py:42-44 | a menu button leads to its feature screen, Back (and only Back) to the menu, and nothing outside the ten registered screens |
| Navigation.Press | MegaCalc.py:42-63 | a button press as the user can make it: Back leads to the menu, a menu button leads to its feature screen when the menu shows and changes nothing when another screen shows (the menu buttons are not on it) |
| Navigation.RunStaysOnScreens | MegaCalc.py:63 | any run of button presses from a registered screen stays on registered screens, and one ending in Back ends on the menu |
| Navigation.ScreenManager.constructor | MegaCalc.py:268-269 | the manager starts on the menu, the first screen added |
| Navigation.ScreenManager.Open | MegaCalc.py:42-44 | a menu button, shown only on the menu screen, sets `current` to its feature screen |
| Navigation.ScreenManager.Back | MegaCalc.py:145 | Back sets `current` to the menu from any screen; `current` is the only state |

## Left out

- The scientific calculator (MegaCalc.py:248-264): `sin`, `cos`, `tan`, `log10` and `sqrt` are floating-point library calls.
- Widgets, layouts, `build_ui`, `App.run` and the `ScreenManager`'s own machinery (MegaCalc.py:1-7, 24-64, 266-282). These are GUI plumbing over Kivy, which is not part of this model.
- The loops that build widgets (MegaCalc.py:42-45, 59-60): they only add buttons and inputs.
- Display formatting (`:.2f`). Results are tagged values, not rendered strings.
- IEEE floating point: rounding, `nan`, underflow of `height ** 2` to 0, and overflow. Python's float `**` raises `OverflowError` on overflow (a height above about 1.3e154 shows "Invalid input."), while `Bmi.CalculateBmi` gives a value there; `pow` may model overflow in `**` for the interest and EMI screens by returning `None`. The arithmetic is exact, so identities such as the temperature round trip hold exactly here and only approximately in the program.
- Python's `float()` grammar: `parse` is an abstract parameter.
- Python's `**`: `pow` is an abstract parameter. A complex result (negative base, fractional exponent) is not modelled. The whole-year lemmas assume `ExactOnWholeExponents`.
- `strptime`'s `\d` also matches non-ASCII decimal digits. `Age.ParseDate` reads ASCII digits only.
- `datetime.today()` is a parameter. The clock itself is not modelled.
- Bmi.CalculateBmi tests `height == 0` where the program divides by `height ** 2`. In exact arithmetic the two agree (`Bmi.SquareOfNonZero`). It also gives a value where the program's `height ** 2` overflows and shows "Invalid input.".
