/**
 * The daily-calorie estimate of OpenStudentFit (`calculate_tdee` in app.py):
 * basal metabolic rate by the Mifflin-St Jeor equation (Mifflin et al.,
 * 1990), scaled by an activity factor and rounded with Python 3's `round`.
 *
 * All arithmetic is exact. The user interface only ever passes integers for
 * weight (kg), height (cm) and age (years), so four times the metabolic rate
 * is an integer; it is kept in that form ("quarters"). The activity factors
 * are exact rationals.
 */
module Tdee {
  import opened Wrappers
  import opened Rounding

  /** Positive integers. */
  type Pos = x: int | x > 0 witness 1

  /** A non-negative rational number num/den. */
  datatype Rat = Rat(num: nat, den: Pos)

  /** The four keys of the activity-factor table, in the order the page lists them. */
  datatype Activity = Sedentary | LightlyActive | ModeratelyActive | VeryActive

  /** The key under which an activity level appears in the table. */
  function ActivityName(a: Activity): (name: string)
    ensures name in ActivityKeys
  {
    match a
    case Sedentary => "Sedentary"
    case LightlyActive => "Lightly Active"
    case ModeratelyActive => "Moderately Active"
    case VeryActive => "Very Active"
  }

  /** Position of an activity level from least to most active. */
  function Rank(a: Activity): nat
  {
    match a
    case Sedentary => 0
    case LightlyActive => 1
    case ModeratelyActive => 2
    case VeryActive => 3
  }

  /** The exact table keys; any other string is not a key. */
  const ActivityKeys: set<string> :=
    {"Sedentary", "Lightly Active", "Moderately Active", "Very Active"}

  /**
   * Looking an activity name up in the multiplier table. A name that is
   * not a key fails (in the source, a `KeyError`); there is no default.
   */
  function ParseActivity(name: string): (r: Option<Activity>)
    ensures r.Some? <==> name in ActivityKeys
    ensures r.Some? ==> ActivityName(r.value) == name
  {
    if name == "Sedentary" then Some(Sedentary)
    else if name == "Lightly Active" then Some(LightlyActive)
    else if name == "Moderately Active" then Some(ModeratelyActive)
    else if name == "Very Active" then Some(VeryActive)
    else None
  }

  /** The activity factor, as an exact fraction. */
  function Multiplier(a: Activity): (m: Rat)
    ensures m.den < m.num < 2 * m.den
  {
    match a
    case Sedentary => Rat(120, 100)
    case LightlyActive => Rat(1375, 1000)
    case ModeratelyActive => Rat(155, 100)
    case VeryActive => Rat(1725, 1000)
  }

  /**
   * The additive sex constant of the Mifflin-St Jeor equation. The source
   * compares the gender string with "Male" only: every other string,
   * not just "Female", takes the female constant.
   */
  function SexConstant(gender: string): (s: int)
    ensures s == 5 <==> gender == "Male"
    ensures s == -161 <==> gender != "Male"
  {
    if gender == "Male" then 5 else -161
  }

  /**
   * Four times the Mifflin-St Jeor basal metabolic rate, in kcal/day:
   * an integer for whole-number inputs, since only 6.25 * height has a
   * fractional part, and that part is a multiple of one quarter.
   */
  function BmrQuarters(weight: int, height: int, age: int, gender: string): (r: int)
    ensures r as real == 4.0 * (10.0 * weight as real + 6.25 * height as real
                                - 5.0 * age as real + SexConstant(gender) as real)
  {
    40 * weight + 25 * height - 20 * age + 4 * SexConstant(gender)
  }

  /**
   * The daily energy expenditure for a known activity level: the exact
   * product BMR * factor, rounded to the nearest integer with halves to
   * even. As a fraction that product is
   * (BmrQuarters * num) / (4 * den).
   */
  function TdeeOf(weight: int, height: int, age: int, gender: string, activity: Activity): (r: int)
    ensures IsRoundHalfEven(BmrQuarters(weight, height, age, gender) * Multiplier(activity).num,
                            4 * Multiplier(activity).den, r)
  {
    var m := Multiplier(activity);
    RoundHalfEven(BmrQuarters(weight, height, age, gender) * m.num, 4 * m.den)
  }

  /**
   * `calculate_tdee(weight, height, age, gender, activity)`: an activity
   * name outside the table gives None; otherwise the rounded estimate.
   */
  function CalculateTdee(weight: int, height: int, age: int, gender: string, activity: string): (r: Option<int>)
    ensures r.Some? <==> activity in ActivityKeys
    ensures r.Some? ==> IsRoundHalfEven(
      BmrQuarters(weight, height, age, gender) * Multiplier(ParseActivity(activity).value).num,
      4 * Multiplier(ParseActivity(activity).value).den, r.value)
  {
    match ParseActivity(activity)
    case None => None
    case Some(a) => Some(TdeeOf(weight, height, age, gender, a))
  }

  /** The input ranges of the page's number widgets; all of them are positive. */
  predicate InUiRange(weight: int, height: int, age: int)
    ensures InUiRange(weight, height, age) ==> 0 < weight && 0 < height && 0 < age
  {
    40 <= weight <= 200 && 120 <= height <= 230 && 18 <= age <= 100
  }

  // ---------------------------------------------------------------------
  // Properties

  /** Every table key parses back to its activity level. */
  lemma ActivityNameRoundTrip(a: Activity)
    ensures ParseActivity(ActivityName(a)) == Some(a)
  {
  }

  /** The factors grow strictly from Sedentary to Very Active. */
  lemma MultiplierIncreasing(a1: Activity, a2: Activity)
    requires Rank(a1) < Rank(a2)
    ensures Multiplier(a1).num * Multiplier(a2).den < Multiplier(a2).num * Multiplier(a1).den
  {
  }

  /** With the other inputs fixed, the "Male" BMR is exactly 166 above any other. */
  lemma MaleGap(weight: int, height: int, age: int, gender: string)
    requires gender != "Male"
    ensures BmrQuarters(weight, height, age, "Male") - BmrQuarters(weight, height, age, gender) == 4 * 166
  {
  }

  /** BMR is linear: +10 per kg, +6.25 per cm, -5 per year. */
  lemma BmrLinear(weight: int, height: int, age: int, gender: string, dw: int, dh: int, da: int)
    ensures BmrQuarters(weight + dw, height + dh, age + da, gender)
         == BmrQuarters(weight, height, age, gender) + 40 * dw + 25 * dh - 20 * da
  {
  }

  /**
   * Over the page's input ranges the BMR is at least 489. For each gender
   * string the lowest BMR of the range is attained: 489 for non-male
   * strings, 655 for "Male".
   */
  lemma BmrMinimumInRange(weight: int, height: int, age: int, gender: string)
    requires InUiRange(weight, height, age)
    ensures BmrQuarters(weight, height, age, gender) >= 4 * (650 + SexConstant(gender)) >= 4 * 489
    ensures exists w, h, a :: InUiRange(w, h, a) && BmrQuarters(w, h, a, gender) == 4 * (650 + SexConstant(gender))
  {
    // the lightest, shortest, oldest profile
    assert InUiRange(40, 120, 100);
    assert BmrQuarters(40, 120, 100, gender) == 4 * (650 + SexConstant(gender));
  }

  /** A non-negative BMR factor preserves a cross-multiplied inequality between two fractions. */
  lemma ScaleCross(b: int, n1: int, d1: int, n2: int, d2: int)
    requires b >= 0 && n1 * d2 <= n2 * d1
    ensures (b * n1) * (4 * d2) <= (b * n2) * (4 * d1)
  {
  }

  /**
   * For a fixed profile with positive BMR, the estimate never decreases
   * from Sedentary to Very Active; with negative BMR it never increases.
   */
  lemma TdeeMonotoneInActivity(weight: int, height: int, age: int, gender: string, a1: Activity, a2: Activity)
    requires Rank(a1) <= Rank(a2)
    ensures BmrQuarters(weight, height, age, gender) > 0 ==>
      TdeeOf(weight, height, age, gender, a1) <= TdeeOf(weight, height, age, gender, a2)
    ensures BmrQuarters(weight, height, age, gender) < 0 ==>
      TdeeOf(weight, height, age, gender, a1) >= TdeeOf(weight, height, age, gender, a2)
  {
    var b := BmrQuarters(weight, height, age, gender);
    var m1, m2 := Multiplier(a1), Multiplier(a2);
    if a1 != a2 {
      MultiplierIncreasing(a1, a2);
    }
    if b > 0 {
      ScaleCross(b, m1.num, m1.den, m2.num, m2.den);
      RoundHalfEvenMonotone(b * m1.num, 4 * m1.den, b * m2.num, 4 * m2.den);
    } else if b < 0 {
      ScaleCross(-b, m1.num, m1.den, m2.num, m2.den);
      assert (b * m2.num) * (4 * m1.den) == -((-b * m2.num) * (4 * m1.den));
      assert (b * m1.num) * (4 * m2.den) == -((-b * m1.num) * (4 * m2.den));
      RoundHalfEvenMonotone(b * m2.num, 4 * m2.den, b * m1.num, 4 * m1.den);
    }
  }

  /**
   * For a fixed activity level and gender, the estimate never decreases as
   * weight or height grows and never increases as age grows.
   */
  lemma TdeeMonotoneInProfile(w1: int, h1: int, a1: int, w2: int, h2: int, a2: int, gender: string, activity: Activity)
    requires w1 <= w2 && h1 <= h2 && a1 >= a2
    ensures TdeeOf(w1, h1, a1, gender, activity) <= TdeeOf(w2, h2, a2, gender, activity)
  {
    var m := Multiplier(activity);
    var b1, b2 := BmrQuarters(w1, h1, a1, gender), BmrQuarters(w2, h2, a2, gender);
    MulLe(b1, b2, m.num);
    RoundHalfEvenMonotoneNumerator(b1 * m.num, b2 * m.num, 4 * m.den);
  }

  /**
   * Over the page's input ranges the estimate is at least 587
   * (round(489 * 1.2)) for every activity level, so it is positive; the
   * lightest, shortest, oldest non-male sedentary profile attains it.
   */
  lemma TdeeMinimumInRange(weight: int, height: int, age: int, gender: string, activity: Activity)
    requires InUiRange(weight, height, age)
    ensures TdeeOf(weight, height, age, gender, activity) >= 587
    ensures exists w, h, a, g :: InUiRange(w, h, a) && TdeeOf(w, h, a, g, Sedentary) == 587
  {
    var b := BmrQuarters(weight, height, age, gender);
    BmrMinimumInRange(weight, height, age, gender);
    TdeeMonotoneInActivity(weight, height, age, gender, Sedentary, activity);
    MulLe(4 * 489, b, 120);
    RoundHalfEvenMonotoneNumerator(4 * 489 * 120, b * 120, 400);
    assert RoundHalfEven(4 * 489 * 120, 400) == 587;
    assert InUiRange(40, 120, 100) && TdeeOf(40, 120, 100, "Female", Sedentary) == 587;
  }

  /** A worked example: 70 kg, 175 cm, 20 years, "Male", sedentary. */
  lemma WorkedExampleTie()
    ensures BmrQuarters(70, 175, 20, "Male") == 4 * 1698 + 3
    ensures CalculateTdee(70, 175, 20, "Male", "Sedentary") == Some(2038)
  {
    // 1698.75 * 1.2 is exactly 2038.5, a tie; the even neighbour is 2038
    assert RoundHalfEven(6795 * 120, 400) == 2038;
  }

  /** A tie whose lower neighbour is odd rounds up: 1696.25 * 1.2 = 2035.5 gives 2036. */
  lemma WorkedExampleTieUp()
    ensures BmrQuarters(70, 173, 18, "Male") == 4 * 1696 + 1
    ensures CalculateTdee(70, 173, 18, "Male", "Sedentary") == Some(2036)
  {
    assert RoundHalfEven(6785 * 120, 400) == 2036;
  }

  /** An unknown activity name, or a key with different case, fails the lookup. */
  lemma UnknownActivityFails(weight: int, height: int, age: int, gender: string)
    ensures CalculateTdee(weight, height, age, gender, "unknown") == None
    ensures CalculateTdee(weight, height, age, gender, "sedentary") == None
  {
  }
}
