/** The search for the largest font size at which all lines fit a box. */
module Fit {
  import opened Prelude
  import opened Strings
  import opened Wrap

  datatype Reason = NoReason | CellTooSmall | TooLong

  datatype FitResult = FitResult(lines: seq<string>, fontSize: int, overflow: bool, reason: Reason, usedHeight: int)

  datatype Box = Box(w: int, h: int)

  /**
   `widths(size)` measures text at a font size and `height(size, n)` is the height of `n` lines at that size;
   `maxLines` is absent when the number of lines is not limited.
   */
  datatype Typography = Typography(
    widths: int -> Width, height: (int, nat) -> int, maxSize: int, minSize: int, padX: int, padY: int,
    maxLines: Option<int>)

  /** `round(x)`: to the nearest integer, ties to even. */
  function Round(x: real): int {
    var below := x.Floor;
    var part := x - below as real;
    if part < 0.5 then below
    else if part > 0.5 then below + 1
    else if below % 2 == 0 then below else below + 1
  }

  function ExactHeight(lineGap: real, size: int, n: nat): real { size as real * lineGap * n as real }

  /** The height the application uses: lines `lineGap` font sizes apart, rounded once. */
  function RoundedHeight(lineGap: real): (int, nat) -> int {
    (size: int, n: nat) => Round(ExactHeight(lineGap, size, n))
  }

  /** The lines that hold something, trimmed. */
  function Cleaned(lines: seq<string>): seq<string> {
    if lines == [] then [] else Line(Strip(lines[0])) + Cleaned(lines[1..])
  }

  function WrapAll(lines: seq<string>, w: Width, max: real): seq<string> {
    if lines == [] then [] else Wrapped(lines[0], w, max) + WrapAll(lines[1..], w, max)
  }

  function AvailableWidth(box: Box, ty: Typography): int { box.w - 2 * ty.padX }
  function AvailableHeight(box: Box, ty: Typography): int { box.h - 2 * ty.padY }

  function LinesAt(lines: seq<string>, box: Box, ty: Typography, size: int): seq<string> {
    WrapAll(lines, ty.widths(size), AvailableWidth(box, ty) as real)
  }

  function HeightAt(lines: seq<string>, box: Box, ty: Typography, size: int): int {
    ty.height(size, |LinesAt(lines, box, ty, size)|)
  }

  /** At this size the wrapped lines keep to the height and to the number of lines. */
  predicate FitsAt(lines: seq<string>, box: Box, ty: Typography, size: int) {
    && HeightAt(lines, box, ty, size) <= AvailableHeight(box, ty)
    && (ty.maxLines.Some? ==> |LinesAt(lines, box, ty, size)| <= ty.maxLines.value)
  }

  predicate BoxTooSmall(box: Box, ty: Typography) {
    AvailableWidth(box, ty) <= 4 || AvailableHeight(box, ty) <= 4
  }

  /** The text wrapped at `size`. */
  function AttemptAt(lines: seq<string>, box: Box, ty: Typography, size: int): FitResult {
    FitResult(LinesAt(lines, box, ty, size), size, false, NoReason, HeightAt(lines, box, ty, size))
  }

  lemma {:induction false} WrapAllAppend(lines: seq<string>, last: string, w: Width, max: real)
    ensures WrapAll(lines + [last], w, max) == WrapAll(lines, w, max) + Wrapped(last, w, max)
  {
    hide Wrapped;
    if lines == [] {
      assert lines + [last] == [last];
    } else {
      assert (lines + [last])[1..] == lines[1..] + [last];
      WrapAllAppend(lines[1..], last, w, max);
      ConcatAssoc(Wrapped(lines[0], w, max), WrapAll(lines[1..], w, max), Wrapped(last, w, max));
    }
  }

  lemma {:induction false} CleanedAppend(lines: seq<string>, last: string)
    ensures Cleaned(lines + [last]) == Cleaned(lines) + Line(Strip(last))
  {
    if lines == [] {
      assert lines + [last] == [last];
    } else {
      assert (lines + [last])[1..] == lines[1..] + [last];
      CleanedAppend(lines[1..], last);
    }
  }

  method Clean(source: seq<string>) returns (lines: seq<string>)
    ensures lines == Cleaned(source)
  {
    lines := [];
    for i := 0 to |source|
      invariant lines == Cleaned(source[..i])
    {
      assert source[..i + 1] == source[..i] + [source[i]];
      CleanedAppend(source[..i], source[i]);
      if source[i] != "" && Strip(source[i]) != "" {
        lines := lines + [Strip(source[i])];
      }
    }
    assert source[..|source|] == source;
  }

  method WrapLines(lines: seq<string>, w: Width, max: real) returns (wrapped: seq<string>)
    ensures wrapped == WrapAll(lines, w, max)
  {
    wrapped := [];
    for i := 0 to |lines|
      invariant wrapped == WrapAll(lines[..i], w, max)
    {
      assert lines[..i + 1] == lines[..i] + [lines[i]];
      WrapAllAppend(lines[..i], lines[i], w, max);
      var more := WrapLine(lines[i], w, max);
      wrapped := wrapped + more;
    }
    assert lines[..|lines|] == lines;
  }

  /** Wraps everything at one size and says whether the result fits. */
  method TryAt(lines: seq<string>, box: Box, ty: Typography, size: int) returns (r: FitResult, fits: bool)
    ensures r == AttemptAt(lines, box, ty, size)
    ensures fits == FitsAt(lines, box, ty, size)
  {
    var wrapped := WrapLines(lines, ty.widths(size), AvailableWidth(box, ty) as real);
    var used := ty.height(size, |wrapped|);
    var tooMany := ty.maxLines.Some? && |wrapped| > ty.maxLines.value;
    r := FitResult(wrapped, size, false, NoReason, used);
    fits := used <= AvailableHeight(box, ty) && !tooMany;
  }

  /** No size from `low` to `high` fits. */
  ghost predicate NoneFits(fits: int -> bool, low: int, high: int) {
    forall size :: low <= size <= high ==> !fits(size)
  }

  /** The search from `size` down when every larger size has failed and `last` is the latest attempt. */
  function Search(attempt: int -> FitResult, fits: int -> bool, low: int, size: int, last: FitResult): FitResult
    decreases size - low
  {
    if size < low then last.(overflow := true, reason := TooLong)
    else if fits(size) then attempt(size)
    else Search(attempt, fits, low, size - 1, attempt(size))
  }

  lemma {:induction false} SearchFindsLargest(
    attempt: int -> FitResult, fits: int -> bool, low: int, size: int, last: FitResult)
    requires forall s :: !attempt(s).overflow && attempt(s).fontSize == s
    ensures var r := Search(attempt, fits, low, size, last);
            && (r.overflow <==> NoneFits(fits, low, size))
            && (!r.overflow ==> low <= r.fontSize <= size && fits(r.fontSize) && r == attempt(r.fontSize)
                                && NoneFits(fits, r.fontSize + 1, size))
            && (r.overflow ==> r == (if size < low then last else attempt(low)).(overflow := true, reason := TooLong))
    decreases size - low
  {
    if size >= low && !fits(size) {
      SearchFindsLargest(attempt, fits, low, size - 1, attempt(size));
    }
  }

  function Attempts(lines: seq<string>, box: Box, ty: Typography): int -> FitResult {
    s => AttemptAt(lines, box, ty, s)
  }

  function Fitting(lines: seq<string>, box: Box, ty: Typography): int -> bool {
    s => FitsAt(lines, box, ty, s)
  }

  /** Tries the sizes from the largest down. */
  method SearchSize(lines: seq<string>, box: Box, ty: Typography) returns (r: FitResult)
    ensures r == Search(Attempts(lines, box, ty), Fitting(lines, box, ty), ty.minSize, ty.maxSize,
                        FitResult(lines, ty.minSize, true, TooLong, 0))
  {
    hide AttemptAt, FitsAt;
    var last := FitResult(lines, ty.minSize, true, TooLong, 0);
    ghost var attempt, ok := Attempts(lines, box, ty), Fitting(lines, box, ty);
    ghost var start := Search(attempt, ok, ty.minSize, ty.maxSize, last);
    var size := ty.maxSize;
    while size >= ty.minSize
      invariant start == Search(attempt, ok, ty.minSize, size, last)
      decreases size - ty.minSize
    {
      var fits;
      last, fits := TryAt(lines, box, ty, size);
      if fits {
        return last;
      }
      size := size - 1;
    }
    r := last.(overflow := true, reason := TooLong);
  }

  /** `r` is the attempt at the largest size that fits, or an overflow at the smallest size when none fits. */
  ghost predicate IsLargestFit(r: FitResult, lines: seq<string>, box: Box, ty: Typography) {
    && (r.overflow <==> NoneFits(Fitting(lines, box, ty), ty.minSize, ty.maxSize))
    && (!r.overflow ==>
          && ty.minSize <= r.fontSize <= ty.maxSize && r == AttemptAt(lines, box, ty, r.fontSize)
          && FitsAt(lines, box, ty, r.fontSize) && NoneFits(Fitting(lines, box, ty), r.fontSize + 1, ty.maxSize))
    && (r.overflow ==>
          && r.reason == TooLong && r.fontSize == ty.minSize
          && r.lines == if ty.minSize <= ty.maxSize then LinesAt(lines, box, ty, ty.minSize) else lines)
  }

  lemma SearchIsLargestFit(lines: seq<string>, box: Box, ty: Typography)
    ensures IsLargestFit(
              Search(Attempts(lines, box, ty), Fitting(lines, box, ty), ty.minSize, ty.maxSize,
                     FitResult(lines, ty.minSize, true, TooLong, 0)), lines, box, ty)
  {
    var attempt, fits := Attempts(lines, box, ty), Fitting(lines, box, ty);
    var none := FitResult(lines, ty.minSize, true, TooLong, 0);
    SearchFindsLargest(attempt, fits, ty.minSize, ty.maxSize, none);
  }

  /** `r` is the text wrapped for the box at one size: inside the padding, except for single characters that are too wide. */
  predicate LiesInBox(r: FitResult, lines: seq<string>, box: Box, ty: Typography) {
    && r.lines == WrapAll(lines, ty.widths(r.fontSize), (box.w - 2 * ty.padX) as real)
    && r.usedHeight == ty.height(r.fontSize, |r.lines|) && r.usedHeight + 2 * ty.padY <= box.h
    && (ty.maxLines.Some? ==> |r.lines| <= ty.maxLines.value)
    && forall l <- r.lines :: l != "" && (|l| == 1 || ty.widths(r.fontSize)(l) + (2 * ty.padX) as real <= box.w as real)
  }

  /** At this size the text is too high for the box or has too many lines. */
  predicate TooLarge(lines: seq<string>, box: Box, ty: Typography, size: int) {
    var n := |WrapAll(lines, ty.widths(size), (box.w - 2 * ty.padX) as real)|;
    ty.height(size, n) + 2 * ty.padY > box.h || (ty.maxLines.Some? && n > ty.maxLines.value)
  }

  lemma FitsMean(lines: seq<string>, box: Box, ty: Typography, size: int)
    ensures FitsAt(lines, box, ty, size) <==> !TooLarge(lines, box, ty, size)
    ensures FitsAt(lines, box, ty, size) ==> LiesInBox(AttemptAt(lines, box, ty, size), lines, box, ty)
  {
    var w, max := ty.widths(size), (box.w - 2 * ty.padX) as real;
    WrapAllLines(lines, w, max);
    hide WrapAll;
    forall l | l in WrapAll(lines, w, max)
      ensures l != "" && (|l| == 1 || w(l) + (2 * ty.padX) as real <= box.w as real)
    {
      InsidePadding(w(l), box.w, ty.padX);
    }
  }

  lemma InsidePadding(width: real, total: int, pad: int)
    ensures width <= (total - 2 * pad) as real <==> width + (2 * pad) as real <= total as real
  {}

  lemma LargestFitMeans(r: FitResult, lines: seq<string>, box: Box, ty: Typography)
    requires IsLargestFit(r, lines, box, ty)
    ensures r.overflow <==> forall size :: ty.minSize <= size <= ty.maxSize ==> TooLarge(lines, box, ty, size)
    ensures !r.overflow ==>
              && ty.minSize <= r.fontSize <= ty.maxSize && LiesInBox(r, lines, box, ty)
              && forall size :: r.fontSize < size <= ty.maxSize ==> TooLarge(lines, box, ty, size)
  {
    forall size ensures Fitting(lines, box, ty)(size) <==> !TooLarge(lines, box, ty, size) {
      FitsMean(lines, box, ty, size);
    }
    if !r.overflow {
      FitsMean(lines, box, ty, r.fontSize);
    }
    hide TooLarge, LiesInBox, FitsAt, AttemptAt;
  }

  /**
   `fit_text`: overflow is reported exactly when there is text and either the box is too small or no size fits.
   Otherwise the text is wrapped at the largest size that fits; after an overflow, at the smallest size.
   */
  method FitText(source: seq<string>, box: Box, ty: Typography) returns (r: FitResult)
    ensures var lines := Cleaned(source);
            if lines == [] then !r.overflow && r.lines == [] && r.fontSize == ty.maxSize
            else if BoxTooSmall(box, ty) then
              r.overflow && r.lines == lines && r.fontSize == ty.minSize && r.reason == CellTooSmall
            else IsLargestFit(r, lines, box, ty)
    ensures var lines := Cleaned(source);
            r.overflow <==>
              && lines != []
              && (|| box.w - 2 * ty.padX <= 4 || box.h - 2 * ty.padY <= 4
                  || forall size :: ty.minSize <= size <= ty.maxSize ==> TooLarge(lines, box, ty, size))
    ensures !r.overflow && Cleaned(source) != [] ==>
              && ty.minSize <= r.fontSize <= ty.maxSize && LiesInBox(r, Cleaned(source), box, ty)
              && forall size :: r.fontSize < size <= ty.maxSize ==> TooLarge(Cleaned(source), box, ty, size)
  {
    hide TooLarge, LiesInBox;
    var lines := Clean(source);
    if lines == [] {
      return FitResult([], ty.maxSize, false, NoReason, 0);
    }
    if AvailableWidth(box, ty) <= 4 || AvailableHeight(box, ty) <= 4 {
      return FitResult(lines, ty.minSize, true, CellTooSmall, 0);
    }
    r := SearchSize(lines, box, ty);
    SearchIsLargestFit(lines, box, ty);
    LargestFitMeans(r, lines, box, ty);
  }

  lemma {:induction false} WrapAllLines(lines: seq<string>, w: Width, max: real)
    ensures forall l <- WrapAll(lines, w, max) :: GoodLine(l, w, max)
  {
    if lines != [] {
      WrappedLines(lines[0], w, max);
      WrapAllLines(lines[1..], w, max);
    }
  }

  lemma {:induction false} WrapAllContent(lines: seq<string>, w: Width, max: real)
    ensures InkOf(WrapAll(lines, w, max)) == InkOf(lines)
  {
    if lines == [] {
      assert WrapAll(lines, w, max) == lines;
    } else {
      WrappedContent(lines[0], w, max);
      WrapAllContent(lines[1..], w, max);
      InkOfConcat(Wrapped(lines[0], w, max), WrapAll(lines[1..], w, max));
      InkOfCons(lines);
    }
  }

  lemma {:induction false} CleanedContent(source: seq<string>)
    ensures InkOf(Cleaned(source)) == InkOf(source)
    ensures forall l <- Cleaned(source) :: l != "" && Trimmed(l)
  {
    hide Strip, Ink;
    if source == [] {
      assert Cleaned(source) == source;
    } else {
      CleanedContent(source[1..]);
      InkOfConcat(Line(Strip(source[0])), Cleaned(source[1..]));
      InkOfLine(Strip(source[0]));
      InkStrip(source[0]);
      InkOfCons(source);
    }
  }

  /** Whatever size is chosen, the wrapped text keeps all its ink in order, and no line is wider than the box allows. */
  lemma FittedTextKept(source: seq<string>, box: Box, ty: Typography, size: int)
    ensures InkOf(LinesAt(Cleaned(source), box, ty, size)) == InkOf(source)
    ensures forall l <- LinesAt(Cleaned(source), box, ty, size) ::
              GoodLine(l, ty.widths(size), AvailableWidth(box, ty) as real)
  {
    CleanedContent(source);
    WrapAllContent(Cleaned(source), ty.widths(size), AvailableWidth(box, ty) as real);
    WrapAllLines(Cleaned(source), ty.widths(size), AvailableWidth(box, ty) as real);
  }

  // ---------------------------------------------------------------- the height the application uses

  /** Rounding moves a height by half a pixel at most. */
  lemma RoundIsNearest(x: real)
    ensures Round(x) as real - 0.5 <= x <= Round(x) as real + 0.5
    ensures x == Round(x) as real - 0.5 || x == Round(x) as real + 0.5 ==> Round(x) % 2 == 0
  {}

  /** With the rounded height, lines that fit are in truth at most half a pixel higher than the box allows. */
  lemma FittedHeight(lines: seq<string>, box: Box, ty: Typography, lineGap: real, size: int)
    requires ty.height == RoundedHeight(lineGap) && FitsAt(lines, box, ty, size)
    ensures ExactHeight(lineGap, size, |LinesAt(lines, box, ty, size)|) <= AvailableHeight(box, ty) as real + 0.5
  {
    hide LinesAt, ExactHeight, Round;
    RoundIsNearest(ExactHeight(lineGap, size, |LinesAt(lines, box, ty, size)|));
  }
}
