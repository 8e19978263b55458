/**
 * The responsive font-size search of `generateBadge`: starting at 34px, the
 * name is measured and the size lowered one pixel at a time while the text is
 * wider than 520px and the size is still above 16px.
 *
 * The browser's `measureText` is a parameter: `width(name, size)` is the
 * measured width of `name` set in bold Arial at `size` pixels. Nothing is
 * assumed about it, so every property below holds for any font metrics.
 */
module FontFit {

  const MaxFontSize: int := 34
  const MinFontSize: int := 16
  /** The widest the name may be drawn, in pixels. */
  const MaxTextWidth: real := 520.0

  /**
   * `size` is the size the search settles on: it is in range, the name fits at
   * it (or it is the smallest size), and the name is too wide at every larger
   * size. In other words, it is the largest size in [16, 34] at which the name
   * fits, or 16 when there is none.
   */
  ghost predicate IsChosenSize(name: string, width: (string, int) -> real, size: int) {
    && MinFontSize <= size <= MaxFontSize
    && (width(name, size) <= MaxTextWidth || size == MinFontSize)
    && forall larger :: size < larger <= MaxFontSize ==> width(name, larger) > MaxTextWidth
  }

  /**
   * The `while` loop of `generateBadge`. Returns the chosen size, the width last
   * measured (the one the text is drawn with) and how many times the size was
   * lowered.
   */
  method FitFontSize(name: string, width: (string, int) -> real)
    returns (fontSize: int, textWidth: real, decrements: nat)
    ensures IsChosenSize(name, width, fontSize)
    ensures textWidth == width(name, fontSize)
    ensures decrements == MaxFontSize - fontSize <= MaxFontSize - MinFontSize
  {
    fontSize := MaxFontSize;
    textWidth := width(name, fontSize);
    decrements := 0;
    while textWidth > MaxTextWidth && fontSize > MinFontSize
      invariant MinFontSize <= fontSize <= MaxFontSize
      invariant textWidth == width(name, fontSize)
      invariant decrements == MaxFontSize - fontSize
      invariant forall larger :: fontSize < larger <= MaxFontSize ==> width(name, larger) > MaxTextWidth
      decreases fontSize
    {
      fontSize := fontSize - 1;
      textWidth := width(name, fontSize);
      decrements := decrements + 1;
    }
  }

  /** The chosen size is determined by the measurements alone: there is exactly one. */
  lemma ChosenSizeUnique(name: string, width: (string, int) -> real, s1: int, s2: int)
    requires IsChosenSize(name, width, s1) && IsChosenSize(name, width, s2)
    ensures s1 == s2
  {
  }

  /** A name that fits at 34px is drawn at 34px: nothing is measured twice. */
  lemma FitsAtLargest(name: string, width: (string, int) -> real, size: int)
    requires width(name, MaxFontSize) <= MaxTextWidth
    requires IsChosenSize(name, width, size)
    ensures size == MaxFontSize
  {
  }

  /**
   * A width of exactly 520px counts as fitting: the loop compares with `>`, so
   * a size whose width equals the limit is kept.
   */
  lemma ExactWidthFits(name: string, width: (string, int) -> real, size: int, chosen: int)
    requires MinFontSize <= size <= MaxFontSize && width(name, size) == MaxTextWidth
    requires IsChosenSize(name, width, chosen)
    ensures size <= chosen
  {
  }

  /**
   * The chosen size is the largest size in [16, 34] at which the name fits;
   * when it fits at none of them, it is 16.
   */
  lemma ChosenIsLargestFit(name: string, width: (string, int) -> real, chosen: int)
    requires IsChosenSize(name, width, chosen)
    ensures (exists s :: MinFontSize <= s <= MaxFontSize && width(name, s) <= MaxTextWidth) ==>
              width(name, chosen) <= MaxTextWidth
    ensures (forall s :: MinFontSize <= s <= MaxFontSize ==> width(name, s) > MaxTextWidth) ==>
              chosen == MinFontSize
  {
  }
}
