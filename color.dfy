/** Text formatting and colour decisions of the output package
    (internal/output/color.go). Colouring is modelled as a tag on the text
    rather than as terminal escape codes; the global `color.NoColor` is the
    parameter `noColor`. */
module OutputColor {
  import opened Decimal
  import opened DiffCompare

  datatype Colour = Red | Green | Yellow | Cyan | Bold | Dim

  /** A piece of output text, plain or printed in one colour. */
  datatype Painted = Plain(text: string) | Styled(colour: Colour, text: string)

  /** `c.Sprint(s)`: the text in colour `c`, or plain when colour is off. */
  function Sprint(c: Colour, s: string, noColor: bool): (p: Painted)
    ensures p.text == s
    ensures p.Styled? <==> !noColor
  {
    if noColor then Plain(s) else Styled(c, s)
  }

  /** `ColorizeChange`: red for an increase, green for a decrease, plain for
      no change or when colour is off; the text itself is never altered. */
  function ColorizeChange(change: real, formatted: string, noColor: bool): (p: Painted)
    ensures p.text == formatted
    ensures p.Plain? <==> noColor || change == 0.0
    ensures p.Styled? && p.colour == Red <==> !noColor && change > 0.0
    ensures p.Styled? && p.colour == Green <==> !noColor && change < 0.0
  {
    if noColor then Plain(formatted)
    else if change > 0.0 then Sprint(Red, formatted, noColor)
    else if change < 0.0 then Sprint(Green, formatted, noColor)
    else Plain(formatted)
  }

  /** `FormatCurrency`: "$" and the amount to two decimals, with "-" before
      the "$" for a negative amount. */
  function FormatCurrency(amount: real): string
  {
    if amount < 0.0 then "-$" + Fixed(-amount, 2) else "$" + Fixed(amount, 2)
  }

  /** `FormatPercent`: one decimal and a "%", with an explicit "+" for a
      value that is not negative. */
  function FormatPercent(pct: real): string
  {
    if pct >= 0.0 then "+" + Fixed(pct, 1) + "%" else Fixed(pct, 1) + "%"
  }

  /** `FormatChange`: "+$" and the change, or "-$" and its magnitude. */
  function FormatChange(change: real): string
  {
    if change >= 0.0 then "+$" + Fixed(change, 2) else "-$" + Fixed(-change, 2)
  }

  function ColorizePercent(pct: real, noColor: bool): (p: Painted)
    ensures p == ColorizeChange(pct, FormatPercent(pct), noColor)
    ensures p.text == FormatPercent(pct)
  {
    ColorizeChange(pct, FormatPercent(pct), noColor)
  }

  function ColorizeDiff(diff: real, noColor: bool): (p: Painted)
    ensures p == ColorizeChange(diff, FormatChange(diff), noColor)
    ensures p.text == FormatChange(diff)
  {
    ColorizeChange(diff, FormatChange(diff), noColor)
  }

  /** `FormatDiffFull`: a new item shows its increase and "(new)", a removed
      one its decrease and "(removed)" (new wins when both are set), any
      other the signed change and the signed percentage; coloured by the
      sign of the change. */
  function FormatDiffFull(diff: real, pct: real, isNew: bool, isRemoved: bool, noColor: bool): (p: Painted)
    ensures p == ColorizeChange(diff, p.text, noColor)
    ensures isNew ==> p.text == "+$" + Fixed(diff, 2) + " (new)"
    ensures !isNew && isRemoved ==> p.text == "-$" + Fixed(-diff, 2) + " (removed)"
    ensures !isNew && !isRemoved ==> p.text == FormatChange(diff) + " (" + FormatPercent(pct) + ")"
  {
    if isNew then ColorizeChange(diff, "+$" + Fixed(diff, 2) + " (new)", noColor)
    else if isRemoved then ColorizeChange(diff, "-$" + Fixed(-diff, 2) + " (removed)", noColor)
    else ColorizeChange(diff, FormatChange(diff) + " (" + FormatPercent(pct) + ")", noColor)
  }

  /** The value a fixed-point text without sign stands for. */
  ghost function ReadBack(s: string, places: nat): real
    requires AllDigits(Unpointed(s))
  {
    DigitsValue(Unpointed(s)) as real / Pow10(places) as real
  }

  /** Fixed-point rendering of a value that is not negative starts with a
      digit and reads back to within half a unit of the last place. */
  lemma Magnitude(x: real, places: nat)
    requires x >= 0.0
    ensures |Fixed(x, places)| >= 1 && Fixed(x, places)[0] != '-'
    ensures AllDigits(Unpointed(Fixed(x, places)))
    ensures x - 1.0 / (2.0 * Pow10(places) as real) <= ReadBack(Fixed(x, places), places) <= x + 1.0 / (2.0 * Pow10(places) as real)
  {
    FixedDigits(x, places);
    var v := DigitsValue(Unpointed(Fixed(x, places))) as real;
    DivideBounds(x, places, v);
  }

  /** Scaling the bounds of the rounded digits back by 10^places. */
  lemma DivideBounds(x: real, places: nat, v: real)
    requires x >= 0.0
    requires Shifted(x, places) - 1.0 / 2.0 <= v <= Shifted(x, places) + 1.0 / 2.0
    ensures x - 1.0 / (2.0 * Pow10(places) as real) <= v / Pow10(places) as real <= x + 1.0 / (2.0 * Pow10(places) as real)
  {
    var p := Pow10(places) as real;
    assert Shifted(x, places) == x * p;
    assert v / p == v * (1.0 / p);
    assert (x * p - 1.0 / 2.0) / p == x - 1.0 / (2.0 * p);
    assert (x * p + 1.0 / 2.0) / p == x + 1.0 / (2.0 * p);
  }

  /** Currency text round trip: it starts with "-$" exactly for a negative
      amount and with "$" otherwise, and the digits after it read back to
      the magnitude to within half a cent. */
  lemma CurrencyReadsBack(amount: real)
    ensures var s := FormatCurrency(amount);
            var k := if amount < 0.0 then 2 else 1;
            |s| > k && s[..k] == (if amount < 0.0 then "-$" else "$")
            && AllDigits(Unpointed(s[k..])) && Abs(amount) - 1.0 / 200.0 <= ReadBack(s[k..], 2) <= Abs(amount) + 1.0 / 200.0
  {
    var m := Abs(amount);
    Magnitude(m, 2);
    var s := FormatCurrency(amount);
    if amount < 0.0 {
      assert s == "-$" + Fixed(m, 2);
      assert s[2..] == Fixed(m, 2);
    } else {
      assert s == "$" + Fixed(m, 2);
      assert s[1..] == Fixed(m, 2);
    }
  }

  /** Change text round trip: "+$" exactly when the change is not negative,
      "-$" otherwise, then the magnitude to within half a cent. */
  lemma ChangeReadsBack(change: real)
    ensures var s := FormatChange(change);
            |s| > 2 && s[..2] == (if change >= 0.0 then "+$" else "-$")
            && AllDigits(Unpointed(s[2..])) && Abs(change) - 1.0 / 200.0 <= ReadBack(s[2..], 2) <= Abs(change) + 1.0 / 200.0
  {
    var m := Abs(change);
    Magnitude(m, 2);
    var s := FormatChange(change);
    assert s == (if change >= 0.0 then "+$" else "-$") + Fixed(m, 2);
    assert s[2..] == Fixed(m, 2);
  }

  /** Percent text round trip: a "+" exactly when the value is not negative
      and a "-" otherwise, then the magnitude to within half of the last
      decimal, then "%". */
  lemma PercentReadsBack(pct: real)
    ensures var s := FormatPercent(pct);
            |s| > 2 && s[0] == (if pct >= 0.0 then '+' else '-') && s[|s| - 1] == '%'
            && AllDigits(Unpointed(s[1..|s| - 1])) && Abs(pct) - 1.0 / 20.0 <= ReadBack(s[1..|s| - 1], 1) <= Abs(pct) + 1.0 / 20.0
  {
    var m := Abs(pct);
    Magnitude(m, 1);
    var f := Fixed(m, 1);
    var sign := if pct >= 0.0 then "+" else "-";
    if pct < 0.0 {
      FixedNegative(pct, 1);
    }
    assert FormatPercent(pct) == sign + f + "%";
    assert (sign + f + "%")[1..|sign + f + "%"| - 1] == f;
  }

  /** A negative value renders as "-" and its magnitude. */
  lemma FixedNegative(x: real, places: nat)
    requires x < 0.0
    ensures Fixed(x, places) == "-" + Fixed(-x, places)
  {
    var p := Pow10(places) as real;
    assert Shifted(x, places) == -x * p == Shifted(-x, places);
    var body := Scaled(RoundHalfEven(Shifted(x, places)), places);
    assert Fixed(-x, places) == "" + body == body;
  }

  /** For an item built by the comparison, the colour of its change text
      agrees with the sign it shows: red text starts with "+", green text
      with "-", and the flags select the suffix. */
  lemma ItemChangeColourMatchesSign(name: string, fromCost: real, toCost: real, noColor: bool)
    ensures var it := BuildItem(name, fromCost, toCost);
            var p := FormatDiffFull(it.diff, it.diffPct, it.isNew, it.isRemoved, noColor);
            |p.text| > 0
            && (p.Styled? && p.colour == Red ==> p.text[0] == '+')
            && (p.Styled? && p.colour == Green ==> p.text[0] == '-')
  {
  }

  /** A negative amount from the formatter's examples. */
  lemma CurrencyExample()
    ensures FormatCurrency(-1234.56) == "-$1234.56"
  {
    assert Shifted(1234.56, 2) == 123456.0;
    assert RoundHalfEven(123456.0) == 123456;
    assert Quot(123456, 100) == 1234 && Rem(123456, 100) == 56;
    assert NatToString(12) == "12";
    assert NatToString(123) == "123";
    assert NatToString(1234) == "1234";
    assert ZeroPad(56, 2) == "56";
  }
}
