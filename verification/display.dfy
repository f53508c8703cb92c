/** The display label of the battery widget: "ac" on mains power, "n/a"
    when the charge is unknown, otherwise the charge as a whole percentage. */
module Display {
  import opened PowerSource
  import Text
  import Nearest

  datatype Label = AcText | NotAvailable | Percent(percent: real)

  /** The label for a reading. The AC flag wins over whatever charge is held. */
  function DisplayLabel(r: Reading): (l: Label)
    ensures r.ac ==> l == AcText
    ensures !r.ac && r.charge.Unavailable? ==> l == NotAvailable
    ensures !r.ac && r.charge.Known? ==> l.Percent? && l.percent / 100.0 == r.charge.fraction
  {
    if r.ac then AcText
    else match r.charge
      case Unavailable => NotAvailable
      case Known(f) => Percent(f * 100.0)
  }

  /** Rounding to a whole number as the `.0f` format does: to the nearest
      integer, and on an exact half to the even neighbour. */
  function RoundHalfEven(x: real): (n: int)
    ensures x - 0.5 <= n as real <= x + 0.5
    ensures n as real == x - 0.5 || n as real == x + 0.5 ==> n % 2 == 0
  {
    var f := x.Floor;
    var d := x - f as real;
    if d < 0.5 then f
    else if d > 0.5 then f + 1
    else if f % 2 == 0 then f
    else f + 1
  }

  /** Rounding never reverses the order of two values. */
  lemma RoundMonotone(x: real, y: real)
    requires x <= y
    ensures RoundHalfEven(x) <= RoundHalfEven(y)
  {
    var m, n := RoundHalfEven(x), RoundHalfEven(y);
    assert x < y ==> m <= n;
  }

  /** The whole number shown for a percentage: the rounded magnitude; the sign is printed apart.
      The magnitude is `Nearest.Abs`, the absolute value the level search
      measures distances with, so both modules share one definition. */
  function Shown(p: real): (n: nat)
    ensures n as real - 0.5 <= Nearest.Abs(p) <= n as real + 0.5
    ensures n as real == Nearest.Abs(p) - 0.5 || n as real == Nearest.Abs(p) + 0.5 ==> n % 2 == 0
  {
    RoundHalfEven(Nearest.Abs(p))
  }

  /** The text of a label: a percentage is an optional minus sign, the
      decimal digits of the rounded magnitude and a percent sign. */
  function Render(l: Label): (s: string)
    ensures s != []
    ensures l.AcText? <==> s == "ac"
    ensures l.NotAvailable? <==> s == "n/a"
    ensures l.Percent? <==> s[|s| - 1] == '%'
  {
    match l
    case AcText => "ac"
    case NotAvailable => "n/a"
    case Percent(p) =>
      var s := (if p < 0.0 then "-" else "") + Text.Decimal(Shown(p)) + "%";
      assert s[|s| - 1] == '%' && "ac"[1] == 'c' && "n/a"[2] == 'a';
      s
  }

  /** A percentage between 0 and 100 renders as a numeral between 0 and 100
      followed by "%", and the numeral is within half a point of the percentage. */
  lemma PercentText(p: real)
    requires 0.0 <= p <= 100.0
    ensures var s := Render(Percent(p));
            && s == Text.Decimal(Shown(p)) + "%"
            && Text.AllDigits(s[..|s| - 1])
            && Text.Value(s[..|s| - 1]) == Shown(p)
            && Shown(p) <= 100
            && p - 0.5 <= Shown(p) as real <= p + 0.5
  {
    var s := Render(Percent(p));
    assert s[..|s| - 1] == Text.Decimal(Shown(p));
    Text.ValueOfDecimal(Shown(p));
  }

  /** A negative percentage, reachable from a negative capacity or charge
      count, renders as a minus sign, the rounded magnitude and "%". */
  lemma NegativePercentText(p: real)
    requires p < 0.0
    ensures var s := Render(Percent(p));
            && s == "-" + Text.Decimal(Shown(p)) + "%"
            && s[0] == '-'
            && Text.AllDigits(s[1..|s| - 1])
            && Text.Value(s[1..|s| - 1]) == Shown(p)
            && -p - 0.5 <= Shown(p) as real <= -p + 0.5
  {
    var s := Render(Percent(p));
    assert s[1..|s| - 1] == Text.Decimal(Shown(p));
    Text.ValueOfDecimal(Shown(p));
  }

  /** A higher non-negative percentage never shows a smaller number. */
  lemma ShownMonotone(p: real, q: real)
    requires 0.0 <= p <= q
    ensures Shown(p) <= Shown(q)
  {
    RoundMonotone(p, q);
  }

  /** The text is "ac" exactly when the reading is on mains power. */
  lemma AcTextIffOnAc(r: Reading)
    ensures Render(DisplayLabel(r)) == "ac" <==> r.ac
  {
  }
}
