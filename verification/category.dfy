/** BMI categories (`getBmiCategory`) and the one-decimal rounding applied
    before a BMI is stored (`toFixed(1)` followed by `parseFloat`).

    A raw BMI is the exact value of the double that the formula produced,
    written as a `real`. A stored BMI is an integer number of tenths: the
    tracker keeps the double nearest to that decimal, and because the
    thresholds 18.5, 25 and 30 are themselves doubles, that double falls on
    the same side of every threshold as the exact decimal does. */
module BmiCategory {

  datatype Category = Underweight | Normal | Overweight | Obese

  /** The four fixed intervals; every boundary belongs to the higher one. */
  function Classify(bmi: real): (c: Category)
    ensures c == Underweight <==> bmi < 18.5
    ensures c == Normal <==> 18.5 <= bmi < 25.0
    ensures c == Overweight <==> 25.0 <= bmi < 30.0
    ensures c == Obese <==> 30.0 <= bmi
  {
    if bmi < 18.5 then Underweight
    else if bmi >= 18.5 && bmi < 25.0 then Normal
    else if bmi >= 25.0 && bmi < 30.0 then Overweight
    else Obese
  }

  /** Position of a category on the scale, lightest first. */
  function Rank(c: Category): nat
  {
    match c
    case Underweight => 0
    case Normal => 1
    case Overweight => 2
    case Obese => 3
  }

  /** A larger BMI never falls in a lighter category. */
  lemma ClassifyMonotone(a: real, b: real)
    requires a <= b
    ensures Rank(Classify(a)) <= Rank(Classify(b))
  {
  }

  /** `toFixed(1)`: the number of tenths nearest to `x`, the larger one
      when two are equally near. */
  function Round1(x: real): (tenths: int)
    ensures tenths as real - 0.5 <= x * 10.0 < tenths as real + 0.5
  {
    (x * 10.0 + 0.5).Floor
  }

  /** The category of a stored value given in tenths: the table colours a
      row by this, recomputed from the rounded BMI. */
  function ClassifyTenths(tenths: int): (c: Category)
    ensures c == Underweight <==> tenths < 185
    ensures c == Normal <==> 185 <= tenths < 250
    ensures c == Overweight <==> 250 <= tenths < 300
    ensures c == Obese <==> 300 <= tenths
  {
    Classify(tenths as real / 10.0)
  }

  /** Rounding crosses a threshold exactly when the raw value lies in the
      band of width 0.05 just below it. */
  lemma RoundReachesThreshold(x: real, t: int)
    ensures Round1(x) >= t <==> x * 10.0 + 0.5 >= t as real
  {
  }

  /** The category stored with an entry is computed from the raw BMI, but
      the colour of its table row from the rounded one. The two disagree
      exactly for raw values in [18.45, 18.5), [24.95, 25) and [29.95, 30),
      and then the colour is always the next heavier category. */
  lemma {:induction false} StoredAndDisplayedCategory(x: real)
    ensures Classify(x) != ClassifyTenths(Round1(x))
        <==> (18.45 <= x < 18.5 || 24.95 <= x < 25.0 || 29.95 <= x < 30.0)
    ensures Classify(x) != ClassifyTenths(Round1(x))
        ==> Rank(ClassifyTenths(Round1(x))) == Rank(Classify(x)) + 1
  {
    RoundReachesThreshold(x, 185);
    RoundReachesThreshold(x, 250);
    RoundReachesThreshold(x, 300);
  }

  /** A raw BMI of 18.47 is stored as 18.5 with category Underweight, and
      its row is coloured as Normal. */
  lemma MismatchExample()
    ensures Classify(18.47) == Underweight
    ensures Round1(18.47) == 185
    ensures ClassifyTenths(Round1(18.47)) == Normal
  {
    assert 18.47 * 10.0 + 0.5 == 185.2;
  }

  /** The double nearest 18.45 lies just below it, so it rounds down to
      18.4, and its label and colour agree. */
  lemma NearestDoubleBelowTie()
    ensures Round1(18.449999999999999289457264239899814128875732421875) == 184
    ensures Classify(18.449999999999999289457264239899814128875732421875)
         == ClassifyTenths(Round1(18.449999999999999289457264239899814128875732421875))
  {
  }

  /** 150 lb at 65 in: the imperial formula gives 150 / 65^2 * 703, about
      24.9586, which is labelled Normal, stored as 25.0 and coloured as
      Overweight. */
  lemma ImperialBoundaryExample()
    ensures Classify(150.0 / (65.0 * 65.0) * 703.0) == Normal
    ensures Round1(150.0 / (65.0 * 65.0) * 703.0) == 250
    ensures ClassifyTenths(Round1(150.0 / (65.0 * 65.0) * 703.0)) == Overweight
  {
    var x := 150.0 / (65.0 * 65.0) * 703.0;
    assert x == 105450.0 / 4225.0;
    assert 24.95 < x < 25.0;
    assert 250.0 <= x * 10.0 + 0.5 < 251.0;
  }
}
