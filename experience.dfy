/** The duration shown for each job on the portfolio's experience section (`convertDateFormat`
    in `Experience/index.js`), from the month count already rounded up. */
module Experience {
  import opened Strings

  /** JavaScript's `%`: the remainder takes the sign of the dividend. */
  function JsRem(a: int, b: int): (r: int)
    requires b > 0
    ensures a >= 0 ==> r == a % b
    ensures -b < r < b
  {
    if a >= 0 then a % b else -((-a) % b)
  }

  /** `convertDateFormat` once `Math.ceil` has been applied: whole years by floor division (the
      floor, as Dafny's division by a positive number is), the months left by `%`. */
  function DurationText(roundedMonths: int): (s: string)
  {
    var years := roundedMonths / 12;
    var remainingMonths := JsRem(roundedMonths, 12);
    if years < 1 then IntToString(remainingMonths) + " mos"
    else if remainingMonths <= 0 then IntToString(years) + " yrs"
    else IntToString(years) + " yrs " + IntToString(remainingMonths) + " mos"
  }

  /** The years and months split a month count exactly. */
  lemma SplitIsExact(m: nat)
    ensures (m / 12) * 12 + JsRem(m, 12) == m && 0 <= JsRem(m, 12) < 12
  {
  }

  /** Under a year: the months alone, `0 mos` included; whole years: the years alone; else both. */
  lemma DurationCases(m: nat)
    ensures m < 12 ==> DurationText(m) == NatToString(m) + " mos"
    ensures m >= 12 && m % 12 == 0 ==> DurationText(m) == NatToString(m / 12) + " yrs"
    ensures m >= 12 && m % 12 != 0 ==>
      DurationText(m) == NatToString(m / 12) + " yrs " + NatToString(m % 12) + " mos"
  {
  }

  /** The number in front of the unit reads back as the years, or as the months under a year. */
  lemma LeadingNumberReadsBack(m: nat)
    ensures var lead := if m < 12 then m else m / 12;
      var digits := NatToString(lead);
      digits <= DurationText(m) && DigitsValue(digits) == lead
      && DurationText(m)[|digits|] == ' '
  {
    var lead := if m < 12 then m else m / 12;
    DigitsValueOfNatToString(lead);
    DurationCases(m);
  }

  /** A negative count, from an end before the start, prints with a minus sign unless it is a
      whole number of years. */
  lemma NegativeExamples()
    ensures DurationText(-5) == "-5 mos"
    ensures DurationText(-12) == "0 mos"
  {
    assert -5 / 12 == -1;
    assert JsRem(-5, 12) == -5;
    assert NatToString(5) == "5";
    assert -12 / 12 == -1;
    assert JsRem(-12, 12) == 0;
    assert NatToString(0) == "0";
  }
}
