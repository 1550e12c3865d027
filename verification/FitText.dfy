/** The search for the largest font size at which a text fits its box. */
module FitText {

  /** What fits at a size fits at every smaller size. */
  ghost predicate Shrinks(fits: int -> bool) {
    forall small: int, large: int :: small <= large && fits(large) ==> fits(small)
  }

  /** The largest size in [low, high] that fits, or `low` when none does. */
  ghost predicate IsLargestFitting(size: int, low: int, high: int, fits: int -> bool) {
    && low <= size <= high
    && (forall s: int :: low <= s <= high && fits(s) ==> s <= size)
    && (fits(size) || (size == low && forall s: int :: low <= s <= high ==> !fits(s)))
  }

  function Max(a: int, b: int): int { if a < b then b else a }

  function UpperBound(minFontSize: int, maxFontSize: real): int { Max(minFontSize, maxFontSize.Floor) }

  /** Whatever `fits` answers, the result is a size that fits while the next does not, an end of the
      range, or the minimum that was seen not to fit. */
  method FittingSize(minFontSize: int, maxFontSize: real, fits: int -> bool) returns (best: int)
    ensures minFontSize <= best <= UpperBound(minFontSize, maxFontSize)
    ensures if fits(best) then best == UpperBound(minFontSize, maxFontSize) || !fits(best + 1)
            else best == minFontSize
    ensures Shrinks(fits) ==> IsLargestFitting(best, minFontSize, UpperBound(minFontSize, maxFontSize), fits)
  {
    var upperBound := Max(minFontSize, maxFontSize.Floor);
    var low, high := minFontSize, upperBound;
    best := low;
    while low <= high
      invariant minFontSize <= low <= high + 1 && high <= upperBound
      invariant high == upperBound || !fits(high + 1)
      invariant if low == minFontSize then best == low else best == low - 1 && fits(best)
      decreases high - low
    {
      var candidate := (low + high) / 2;
      if fits(candidate) {
        best := candidate;
        low := candidate + 1;
      } else {
        high := candidate - 1;
      }
    }
    if Shrinks(fits) && best < upperBound {
      forall s: int | best < s <= upperBound ensures !fits(s) {
        assert fits(s) ==> fits(best + 1) && fits(best);
      }
    }
  }

  // ----- The correction for a single rendered line

  /** `size` scaled down to the width, when the rendered line is more than half a pixel too wide. */
  function Corrected(minFontSize: int, size: int, width: real, rendered: real): int
    requires width > 0.0
  {
    if rendered > width + 0.5 then Max(minFontSize, (size as real * (width / rendered)).Floor) else size
  }

  /** The largest size whose measured text fits, corrected once when it is to be a single line. */
  method FitFontSize(minFontSize: int, maxFontSize: real, singleLine: bool, width: real,
                     fits: int -> bool, rendered: int -> real)
    returns (size: int, searched: int)
    requires width > 0.0
    ensures 0 <= minFontSize ==> minFontSize <= size <= searched
    ensures Shrinks(fits) ==> IsLargestFitting(searched, minFontSize, UpperBound(minFontSize, maxFontSize), fits)
    ensures !singleLine || rendered(searched) <= width + 0.5 ==> size == searched
    ensures singleLine && rendered(searched) > width + 0.5 ==>
              var scaled := searched as real * (width / rendered(searched));
              && size >= minFontSize && scaled < size as real + 1.0
              && (size > minFontSize ==> size as real <= scaled)
    ensures singleLine ==> size == Corrected(minFontSize, searched, width, rendered(searched))
  {
    searched := FittingSize(minFontSize, maxFontSize, fits);
    size := searched;
    if singleLine {
      if 0 <= minFontSize {
        CorrectionStaysInRange(minFontSize, searched, width, rendered(searched));
      }
      size := Corrected(minFontSize, searched, width, rendered(searched));
    }
  }

  lemma Times(k: real, a: real, b: real)
    requires k >= 0.0 && a <= b
    ensures k * a <= k * b
  {
  }

  lemma StrictlyTimes(k: real, a: real, b: real)
    requires k > 0.0 && a < b
    ensures k * a < k * b
  {
  }

  lemma ShareOf(width: real, rendered: real)
    requires 0.0 < width && 0.0 < rendered
    ensures (width / rendered) * rendered == width && width / rendered > 0.0
    ensures width < rendered ==> width / rendered < 1.0
  {
    var share := width / rendered;
    assert share * rendered == width;
    if share >= 1.0 {
      Times(rendered, 1.0, share);
      assert rendered <= width;
    } else if share <= 0.0 {
      Times(rendered, share, 0.0);
    }
  }

  lemma Scaled(size: int, width: real, rendered: real)
    requires 0 <= size && 0.0 < width < rendered
    ensures 0 <= (size as real * (width / rendered)).Floor <= size
  {
    ShareOf(width, rendered);
    Times(size as real, 0.0, width / rendered);
    Times(size as real, width / rendered, 1.0);
  }

  /** The correction never grows the text and never goes below the minimum. */
  lemma CorrectionStaysInRange(minFontSize: int, size: int, width: real, rendered: real)
    requires 0 <= minFontSize <= size && width > 0.0
    ensures minFontSize <= Corrected(minFontSize, size, width, rendered) <= size
  {
    if rendered > width + 0.5 {
      Scaled(size, width, rendered);
    }
  }

  function Exact(size: int, width: real, rendered: real): real
    requires rendered != 0.0
  {
    size as real * (width / rendered)
  }

  lemma ExactSizeFits(size: int, width: real, perSize: real, rendered: real)
    requires width > 0.0 && rendered > 0.0 && rendered == perSize * size as real
    ensures perSize * Exact(size, width, rendered) == width
  {
    ShareOf(width, rendered);
    var share := width / rendered;
    MulAssoc(perSize, size as real, share);
  }

  lemma MulAssoc(a: real, b: real, c: real)
    ensures a * (b * c) == (a * b) * c
  {
  }

  lemma AtMost(perSize: real, part: real, exact: real, width: real)
    requires perSize > 0.0 && part <= exact && perSize * exact == width
    ensures perSize * part <= width
  {
    Times(perSize, part, exact);
  }

  lemma MoreThan(perSize: real, next: real, exact: real, width: real)
    requires perSize > 0.0 && exact < next && perSize * exact == width
    ensures perSize * next > width
  {
    StrictlyTimes(perSize, exact, next);
  }

  lemma FloorFits(minFontSize: int, exact: real, width: real, perSize: real)
    requires perSize > 0.0 && perSize * exact == width
    ensures var c := Max(minFontSize, exact.Floor);
            && (c == minFontSize || perSize * c as real <= width)
            && perSize * (c + 1) as real > width
  {
    var c := Max(minFontSize, exact.Floor);
    if c as real <= exact {
      AtMost(perSize, c as real, exact, width);
    }
    MoreThan(perSize, (c + 1) as real, exact, width);
  }

  /** Where the rendered width is proportional to the size, one correction is enough unless it stops
      at the minimum, and it gives up less than one whole size. */
  lemma OneCorrectionIsEnough(minFontSize: int, size: int, width: real, perSize: real, rendered: real)
    requires width > 0.0 && perSize > 0.0
    requires rendered == perSize * size as real && rendered > width + 0.5
    ensures var c := Corrected(minFontSize, size, width, rendered);
            && (c == minFontSize || perSize * c as real <= width)
            && perSize * (c + 1) as real > width
  {
    ExactSizeFits(size, width, perSize, rendered);
    FloorFits(minFontSize, Exact(size, width, rendered), width, perSize);
  }
}
