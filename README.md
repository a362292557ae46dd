# OpenStudentFit daily-calorie estimate, modelled in Dafny

OpenStudentFit is a one-page Streamlit app that asks a student for age,
gender, weight, height and activity level, computes a daily calorie goal
and sends it, with budget, cuisine and equipment, to a hosted language
model that writes a meal and workout plan. The only computation of its own
is `calculate_tdee` in `app.py`:

- the sex constant is +5 when the gender string is exactly `"Male"` and
  -161 for every other string;
- the basal metabolic rate (BMR) follows the Mifflin-St Jeor equation,
  `10*weight + 6.25*height - 5*age + s`;
- the BMR is multiplied by a factor from a four-entry table (Sedentary 1.2,
  Lightly Active 1.375, Moderately Active 1.55, Very Active 1.725); a name
  outside the table raises `KeyError`;
- the product is rounded with Python 3 `round`, which sends exact halves to
  the even neighbour.

The model works in exact integer and rational arithmetic:

- `wrappers.dfy`: module `Wrappers`, an `Option` datatype.
- `rounding.dfy`: module `Rounding`, round-half-to-even of a fraction `n/d`
  (`RoundHalfEven`). It is proved to meet a reference predicate
  (`IsRoundHalfEven`: within one half, even on a tie). The module proves
  that the result is unique, that it depends only on the value of the
  fraction, and that it is monotone.
- `tdee.dfy`: module `Tdee`, the calculation itself.
  - The page passes whole numbers only, so four times the BMR is an integer
    (`BmrQuarters`).
  - The activity factors are exact fractions: 120/100, 1375/1000, 155/100
    and 1725/1000.
  - `TdeeOf` takes a typed `Activity`.
  - `CalculateTdee` takes the activity name as a string, as the source does,
    and yields `None` where the source raises `KeyError`.
  - The lemmas state that BMR is linear, the fixed male/non-male gap, the
    minimum over the page's input ranges, and monotonicity across activity
    levels and across weight, height and age.

## Model

| member | source | states |
|---|---|---|
| Rounding.RoundHalfEven | app.py:36 | the result is an integer within one half of n/d, and on an exact half it is the even neighbour, as Python 3 `round` does |
| Rounding.RoundHalfEvenUnique | app.py:36 | exactly one integer meets that description, so the rounding is fully determined by it |
| Rounding.RoundHalfEvenScale | app.py:36 | rounding depends only on the rational value: n/d and (n*c)/(d*c) round alike |
| Rounding.RoundHalfEvenMonotoneNumerator | app.py:36 | with a fixed denominator, a larger numerator never rounds lower |
| Rounding.RoundHalfEvenMonotone | app.py:36 | n1/d1 <= n2/d2 implies round(n1/d1) <= round(n2/d2) |
| Tdee.BmrQuarters | app.py:33-34 | the result, as a real number, is exactly four times 10*weight + 6.25*height - 5*age + s, the Mifflin-St Jeor formula with the source's constant 6.25 |
| Tdee.ActivityName | app.py:35 | every activity level's name is one of the four keys of the multiplier table |
| Tdee.InUiRange | app.py:41-44 | the widget ranges (weight 40..200, height 120..230, age 18..100) admit only positive weight, height and age |
| Tdee.SexConstant | app.py:33 | the constant is +5 exactly when the gender string is "Male", and -161 for every other string |
| Tdee.MaleGap | app.py:33-34 | with weight, height and age fixed, the "Male" BMR exceeds the BMR for any other gender string by exactly 166 |
| Tdee.BmrLinear | app.py:34 | BMR is linear: it changes by +10 per kg, +6.25 per cm and -5 per year, each with the others held fixed |
| Tdee.BmrMinimumInRange | app.py:31-44 | for weight 40..200, height 120..230 and age 18..100, BMR is at least 650 + s (489 for non-male strings, 655 for "Male"), and that minimum is attained inside the ranges |
| Tdee.ParseActivity | app.py:35-36 | a lookup succeeds exactly for the four table keys, and then returns the level whose key is that name |
| Tdee.ActivityNameRoundTrip | app.py:35 | each activity level's key looks up that same level |
| Tdee.UnknownActivityFails | app.py:35-36 | "unknown", and "sedentary" in lower case, fail the lookup instead of falling back to a default |
| Tdee.Multiplier | app.py:35 | every activity factor is a fraction strictly between 1 and 2 |
| Tdee.MultiplierIncreasing | app.py:35 | the factors strictly increase from Sedentary through Lightly and Moderately Active to Very Active |
| Tdee.TdeeOf | app.py:31-36 | the estimate is the integer within one half of BMR * factor, computed exactly, with ties to even |
| Tdee.CalculateTdee | app.py:31-36 | there is a result exactly when the activity name is a table key; the result is then BMR * factor rounded half to even |
| Tdee.TdeeMonotoneInActivity | app.py:35-36 | for positive BMR the estimate never decreases from Sedentary to Very Active; for negative BMR it never increases |
| Tdee.TdeeMonotoneInProfile | app.py:34-36 | for a fixed gender and activity, the estimate never decreases as weight or height grows and never increases as age grows |
| Tdee.TdeeMinimumInRange | app.py:31-44 | over the page's input ranges the estimate is at least 587 for every activity level, so it is positive; some in-range sedentary profile attains 587 |
| Tdee.WorkedExampleTie | app.py:31-36 | 70 kg, 175 cm, 20 years, "Male", Sedentary: the BMR is 1698.75 and the exact tie 2038.5 rounds to the even 2038 |
| Tdee.WorkedExampleTieUp | app.py:31-36 | 70 kg, 173 cm, 18 years, "Male", Sedentary: the BMR is 1696.25 and the exact tie 2035.5 rounds up to the even 2036 |

## Left out

- Floating point: the source computes with Python floats, the model with
  exact rationals. For whole-number inputs of moderate size, the page's
  among them, the two agree.
  - The float BMR is exact when every term and every running sum of
    app.py:34 is exact. Counted in quarters, these are 4 * 10 * weight,
    25 * height, 4 * 5 * age and each partial sum, and each must stay
    below 2^53 in magnitude. The size of the final BMR alone does not
    decide this.
  - The float product is usually inexact: the nearest doubles to 1.2, 1.55
    and 1.725 are not those numbers, and 1345.25 * 1.2 = 1614.3 has no
    binary form. Agreement does not need an exact product. It needs the
    product's rounding error to stay below the exact product's distance to
    the nearest half-integer. Unless the exact product is a tie, that
    distance is at least 1/10 for 1.2, 1/80 for 1.55, 1/160 for 1.725 and
    1/32 for 1.375.
  - At an exact tie k + 1/2 of moderate size, the tie is a double, and one
    correctly rounded multiply returns it unchanged.

  The model does not capture the cases where the float computation
  differs:
  - Large terms that cancel. A term or partial sum beyond the exact range
    is rounded, even when the final BMR is small. Take weight 10^17,
    height 100, age 2 * 10^17, a non-"Male" gender, Sedentary.
    10^18 + 625.0 rounds to 10^18 + 640, so the float BMR is 479 where the
    exact one is 464. `round(479 * 1.2)` is 575; `CalculateTdee` gives 557.
  - The product's rounding error reaching the factor's gap to a
    half-integer. A value just off a tie can then land on the tie or past
    it.
    - For Very Active this can first happen at about |4 * BMR| = 2^47:
      weight 3518437208883, height 7, age 0, a non-"Male" gender. The
      exact product 60693041853029.49375 rounds to 60693041853029. The
      double product is 60693041853029.5, which `round` takes to
      60693041853030.
    - 1.375 is exact in binary, but the product 11 * (4 * BMR) / 32 is
      rounded once it needs more than 53 bits, at about
      |4 * BMR| = 2^49.5. Take weight 20470907397139, height 33, age 0, a
      non-"Male" gender, Lightly Active. The exact product
      281474976710723.46875 rounds to 281474976710723. The double product
      is the tie 281474976710723.5, which `round` takes to
      281474976710724.
    - 1.55 and 1.2 have wider gaps and hold out longer.
  - Integers too large to convert to a float. There `6.25 * height` raises
    `OverflowError`, and so does `10 * weight` once it meets a float. The
    model returns a value instead.
- BmrLinear (Tdee.BmrLinear): proved for all integers. The source's float
  BMR is linear only while every term and running sum of app.py:34 is
  exact (below 2^53 in quarters). It has no value at all once
  `OverflowError` is raised.
- TdeeMonotoneInProfile (Tdee.TdeeMonotoneInProfile): proved for all
  integers. It does not cover inputs whose terms or running sums leave the
  exact float range, cancellation included. It does not cover the range
  where the product's rounding error reaches the factor's gap to a
  half-integer (from about |4 * BMR| = 2^47), or the `OverflowError` of
  very large inputs.
- TdeeMonotoneInActivity (Tdee.TdeeMonotoneInActivity): likewise proved
  for all integers, with the same three limits: inexact terms or running
  sums, product rounding error at the gap, and `OverflowError`.
- MaleGap (Tdee.MaleGap): likewise proved for all integers. The float BMR
  shows the exact gap of 166 only while its terms and running sums are
  exact, and has none once `OverflowError` is raised.
- Non-integer inputs: the page's number widgets produce whole numbers, so
  weight, height and age are `int`. The formula over real inputs is not
  modelled.
- Page setup, CSS, sidebar, input widgets and result display
  (app.py:4-28, 39-55, 82-97): presentation through the Streamlit library.
- The Hugging Face `InferenceClient`, the `text_generation` call and the
  error message shown when it fails (app.py:61, 82-97): network calls to a
  remote service.
- The prompt text (app.py:64-80): free text for a language model, which
  only embeds the estimate.
- A goal-adjusted calorie target and a body-mass index: `app.py` has no
  goal or BMI code, so neither is modelled.
- The age range: the age widget starts at 18 (app.py:41), and the range
  lemmas use 18 as the lowest age.
