/** The progress indicator (`updateProgress`): a fill bar whose width is the
    percentage and whose text is the rounded percentage, and a label that
    says "Ready to start!" at exactly 0, "Assessment complete!" at exactly
    100 and "Progress: <rounded>%" otherwise. */
module Progress {
  import Decimal

  type Positive = d: int | 0 < d witness 1

  /** A percentage as the exact rational `num / den`; every value the tutorial
      passes is a whole number or `100 * i / total`. */
  datatype Fraction = Fraction(num: int, den: Positive)

  function Whole(n: int): (p: Fraction)
    ensures p.num == n * p.den
  {
    Fraction(n, 1)
  }

  /** `percentage === 0` */
  predicate IsZero(p: Fraction) {
    p.num == 0
  }

  /** `percentage === 100` */
  predicate IsHundred(p: Fraction) {
    p.num == 100 * p.den
  }

  /** `Math.round`: the integer nearest to `p`, halves rounded up. */
  function Round(p: Fraction): (r: int)
    ensures 2 * p.den * r <= 2 * p.num + p.den < 2 * p.den * (r + 1)
  {
    (2 * p.num + p.den) / (2 * p.den)
  }

  /** Multiplying by a positive factor keeps a strict order, and so does cancelling it. */
  lemma CancelPositiveFactor(k: int, a: int, b: int)
    requires k > 0 && k * a < k * b
    ensures a < b
  {
    if a >= b {
      assert false;
    }
  }

  /** A larger value never rounds to a smaller integer. */
  lemma {:induction false} RoundMonotone(p: Fraction, q: Fraction)
    requires p.den == q.den && p.num <= q.num
    ensures Round(p) <= Round(q)
  {
    var r, s := Round(p), Round(q);
    CancelPositiveFactor(2 * p.den, r, s + 1);
  }

  /** Rounding a whole number gives it back. */
  lemma {:induction false} RoundWhole(n: int, d: Positive)
    ensures Round(Fraction(n * d, d)) == n
  {
    var r := Round(Fraction(n * d, d));
    assert 2 * (n * d) == 2 * d * n;
    assert 2 * d * n + d < 2 * d * (n + 1);
    CancelPositiveFactor(2 * d, r, n + 1);
    CancelPositiveFactor(2 * d, n, r + 1);
  }

  datatype Label = ReadyToStart | AssessmentComplete | Percent(rounded: int)

  /** The label `updateProgress` writes into the progress text. */
  function LabelFor(p: Fraction): (l: Label)
    ensures l == ReadyToStart <==> IsZero(p)
    ensures l == AssessmentComplete <==> IsHundred(p)
    ensures l.Percent? <==> !IsZero(p) && !IsHundred(p)
    ensures l.Percent? ==> l.rounded == Round(p)
  {
    if IsZero(p) then ReadyToStart
    else if IsHundred(p) then AssessmentComplete
    else Percent(Round(p))
  }

  /** The text written for a label: the two fixed messages appear exactly for
      their own labels, and a percentage reads "Progress: " followed by its
      rounded value and a percent sign. */
  function LabelText(l: Label): (t: string)
    ensures t == "Ready to start!" <==> l == ReadyToStart
    ensures t == "Assessment complete!" <==> l == AssessmentComplete
    ensures l.Percent? ==> |t| > 11 && t[..10] == "Progress: " && t[|t| - 1] == '%'
    ensures l.Percent? ==> t[10..|t| - 1] == Decimal.IntToString(l.rounded)
  {
    match l
    case ReadyToStart => "Ready to start!"
    case AssessmentComplete => "Assessment complete!"
    case Percent(r) =>
      var t := "Progress: " + Decimal.IntToString(r) + "%";
      assert t[|t| - 1] == '%' && t[10..|t| - 1] == Decimal.IntToString(r);
      t
  }

  /** What the indicator shows: the bar's width, the text in the bar and the label text. */
  datatype View = View(width: Fraction, fillText: string, text: string)

  function Render(p: Fraction): (v: View)
    ensures v.width == p
    ensures v.text == LabelText(LabelFor(p))
    ensures |v.fillText| >= 2 && v.fillText[|v.fillText| - 1] == '%'
    ensures v.fillText[..|v.fillText| - 1] == Decimal.IntToString(Round(p))
  {
    var t := Decimal.IntToString(Round(p));
    assert (t + "%")[..|t|] == t;
    View(p, t + "%", LabelText(LabelFor(p)))
  }

  /** Strictly between 0 and 100 the label shows the rounded value, which then
      lies in [0, 100]; it can read "Progress: 0%" or "Progress: 100%" for values
      within half a percent of either end. */
  lemma {:induction false} LabelBetweenEnds(p: Fraction)
    requires 0 <= p.num <= 100 * p.den && !IsZero(p) && !IsHundred(p)
    ensures LabelFor(p) == Percent(Round(p))
    ensures 0 <= Round(p) <= 100
  {
    RoundMonotone(Fraction(0, p.den), p);
    RoundMonotone(p, Fraction(100 * p.den, p.den));
    RoundWhole(0, p.den);
    RoundWhole(100, p.den);
  }

  /** The three labels are written differently, so the text identifies the case. */
  lemma LabelTextDistinct(a: Label, b: Label)
    ensures LabelText(a) == LabelText(b) <==> a == b
  {
    if a.Percent? && b.Percent? && LabelText(a) == LabelText(b) {
      var x := LabelText(a);
      assert Decimal.IntToString(a.rounded) == x[10..|x| - 1] == Decimal.IntToString(b.rounded);
    }
    if a.Percent? && !b.Percent? {
      assert LabelText(a)[0] == 'P';
    }
    if b.Percent? && !a.Percent? {
      assert LabelText(b)[0] == 'P';
    }
  }
}
