// Fitting a photo of any shape to a `w` by `h` panel: crop it when the shapes
// are close, letterbox it on black when they are not. Sizes are worked out in
// floating point: every operation on reals is followed by a rounding.
module PhotoFit {
  import opened Arithmetic
  import opened Wrappers
  import opened RenderedImages
  import PanelRotation

  const ASPECT_TOLERANCE: real := 0.25

  /** Sides of a panel and of a photo for which the results below are stated. */
  const LONGEST_PANEL_SIDE: nat := 8192
  const LONGEST_PHOTO_SIDE: nat := 0x1_0000_0000

  datatype Treatment = Crop | ContainOnBlack

  datatype Rgb = Rgb(r: Byte, g: Byte, b: Byte)

  const BLACK := Rgb(0, 0, 0)

  datatype FitError = ZeroDimension

  // Rounding.

  type Rounding = real -> real

  /** Half a unit in the last place of a number with 24 significant bits. */
  const EPSILON: real := 1.0 / 16777216.0

  /** The unit the bounds below are counted in: twice that. */
  const UNIT: real := 1.0 / 8388608.0

  /** Bounds far outside of which no value arises, and no rounding under- or overflows. */
  const SMALLEST: real := 1.0 / 1152921504606846976.0
  const LARGEST: real := 79228162514264337593543950336.0

  /** What rounding in single precision, or in any wider one, does: zero stays zero,
      order is kept, and the relative error is at most `EPSILON`. */
  ghost predicate IsAccurate(fl: Rounding) {
    && fl(0.0) == 0.0
    && (forall x, y :: 0.0 <= x <= y <= LARGEST ==> fl(x) <= fl(y))
    && (forall x :: SMALLEST <= x <= LARGEST ==> x - x * EPSILON <= fl(x) <= x + x * EPSILON)
  }

  const EXACT: Rounding := (x: real) => x

  /** `y` is `x`, but for `k` roundings at most. */
  predicate Within(y: real, x: real, k: nat) {
    x - k as real * UNIT * x <= y <= x + k as real * UNIT * x
  }

  lemma RoundedIsWithin(fl: Rounding, y: real, x: real, k: nat)
    requires IsAccurate(fl) && Within(y, x, k) && k <= 8
    requires SMALLEST <= y <= LARGEST && x > 0.0
    ensures Within(fl(y), x, k + 1)
  {
    var z := fl(y);
    assert y - y * EPSILON <= z <= y + y * EPSILON;
    match k
    case 0 =>
    case 1 =>
    case 2 =>
    case 3 =>
    case 4 =>
    case 5 =>
    case 6 =>
    case 7 =>
    case 8 =>
  }

  lemma PositiveProduct(a: real, b: real)
    requires a > 0.0 && b > 0.0
    ensures a * b > 0.0
  {
  }

  lemma ProductKeepsOrder(a: real, b: real, c: real)
    requires a <= b && c >= 0.0
    ensures a * c <= b * c
  {
    assert (b - a) * c >= 0.0;
  }

  lemma CancelFactor(a: real, b: real, c: real)
    requires c > 0.0 && a * c <= b * c
    ensures a <= b
  {
    if a > b {
      PositiveProduct(a - b, c);
    }
  }

  lemma QuotientAtMost(n: real, d: real, c: real)
    requires d > 0.0 && n <= c * d
    ensures n / d <= c
  {
    var q := n / d;
    assert q * d == n;
    CancelFactor(q, c, d);
  }

  lemma QuotientAtLeast(n: real, d: real, c: real)
    requires d > 0.0 && n >= c * d
    ensures n / d >= c
  {
    var q := n / d;
    assert q * d == n;
    CancelFactor(c, q, d);
  }

  /** Multiplying both by the same keeps how near they are. */
  lemma TimesIsWithin(y: real, x: real, k: nat, c: real)
    requires Within(y, x, k) && c > 0.0
    ensures Within(y * c, x * c, k)
  {
    var slack := k as real * UNIT * x;
    ProductKeepsOrder(x - slack, y, c);
    ProductKeepsOrder(y, x + slack, c);
    assert slack * c == k as real * UNIT * (x * c);
    assert (x - slack) * c == x * c - slack * c;
    assert (x + slack) * c == x * c + slack * c;
  }

  /** The quotient of two whole numbers, each rounded first. */
  lemma QuotientIsWithin(y: real, x: real, v: real, u: real)
    requires x > 0.0 && u > 0.0 && v > 0.0
    requires Within(y, x, 1) && Within(v, u, 1)
    ensures Within(y / v, x / u, 3)
  {
    var r := x / u;
    PositiveQuotient(x, u);
    var vr := v * r;
    DivisorBounds(v, u, r, x, vr);
    NearlyDistributes(r, v, vr);
    NearlyAround(x, vr);
    QuotientAtLeast(y, v, r - 3.0 * UNIT * r);
    QuotientAtMost(y, v, r + 3.0 * UNIT * r);
  }

  lemma DivisorBounds(v: real, u: real, r: real, x: real, vr: real)
    requires Within(v, u, 1) && u > 0.0 && r > 0.0 && r == x / u && vr == v * r
    ensures x - UNIT * x <= vr <= x + UNIT * x
  {
    ProductKeepsOrder(v, u + UNIT * u, r);
    ProductKeepsOrder(u - UNIT * u, v, r);
    assert u * r == x;
    assert (u + UNIT * u) * r == x + UNIT * x;
    assert (u - UNIT * u) * r == x - UNIT * x;
  }

  lemma NearlyDistributes(r: real, v: real, vr: real)
    requires vr == v * r
    ensures (r - 3.0 * UNIT * r) * v == vr - 3.0 * UNIT * vr
    ensures (r + 3.0 * UNIT * r) * v == vr + 3.0 * UNIT * vr
  {
  }

  lemma NearlyAround(x: real, vr: real)
    requires x > 0.0 && x - UNIT * x <= vr <= x + UNIT * x
    ensures vr - 3.0 * UNIT * vr <= x - UNIT * x
    ensures x + UNIT * x <= vr + 3.0 * UNIT * vr
  {
  }

  lemma PositiveQuotient(x: real, u: real)
    requires x > 0.0 && u > 0.0
    ensures x / u > 0.0
  {
  }

  // The sizes.

  /** A whole number as a floating-point one. */
  function Float(fl: Rounding, n: nat): real {
    fl(n as real)
  }

  predicate IsSide(n: nat) {
    0 < n <= LONGEST_PHOTO_SIDE
  }

  lemma FloatIsWithin(fl: Rounding, n: nat)
    requires IsAccurate(fl) && IsSide(n)
    ensures Within(Float(fl, n), n as real, 1)
    ensures 0.5 <= Float(fl, n) <= 8589934592.0
  {
    RoundedIsWithin(fl, n as real, n as real, 0);
  }

  lemma QuotientInRange(a: real, b: real)
    requires 0.5 <= a <= 8589934592.0 && 0.5 <= b <= 8589934592.0
    ensures 1.0 / 17179869184.0 <= a / b <= 17179869184.0
  {
    QuotientAtLeast(a, b, 1.0 / 17179869184.0);
    QuotientAtMost(a, b, 17179869184.0);
  }

  function Ratio(fl: Rounding, a: nat, b: nat): (r: real)
    requires IsAccurate(fl) && IsSide(a) && IsSide(b)
    ensures 0.0 < r <= 34359738368.0
  {
    FloatIsWithin(fl, a);
    FloatIsWithin(fl, b);
    QuotientInRange(Float(fl, a), Float(fl, b));
    SmallRounding(fl, Float(fl, a) / Float(fl, b));
    fl(Float(fl, a) / Float(fl, b))
  }

  lemma RatioIsWithin(fl: Rounding, a: nat, b: nat)
    requires IsAccurate(fl) && IsSide(a) && IsSide(b)
    ensures Within(Ratio(fl, a, b), a as real / b as real, 4)
  {
    FloatIsWithin(fl, a);
    FloatIsWithin(fl, b);
    QuotientInRange(Float(fl, a), Float(fl, b));
    QuotientIsWithin(Float(fl, a), a as real, Float(fl, b), b as real);
    QuotientIsPositive(a, b);
    RatioIs(fl, a, b);
    hide IsAccurate, Within, Float, Ratio;
    RoundedIsWithin(fl, Float(fl, a) / Float(fl, b), a as real / b as real, 3);
  }

  lemma QuotientIsPositive(a: nat, b: nat)
    requires a > 0 && b > 0
    ensures a as real / b as real > 0.0
  {
  }

  lemma SmallRounding(fl: Rounding, x: real)
    requires IsAccurate(fl) && SMALLEST <= x <= 17179869184.0
    ensures 0.0 < fl(x) <= 34359738368.0 && Within(fl(x), x, 1)
  {
    RoundedIsWithin(fl, x, x, 0);
  }

  function Abs(x: real): real {
    if x < 0.0 then -x else x
  }

  /** Whether two shapes are close. Rounding treats a negative difference as a positive one. */
  function ChooseTreatment(fl: Rounding, srcW: nat, srcH: nat, w: nat, h: nat): Treatment
    requires IsAccurate(fl) && IsSide(srcW) && IsSide(srcH) && IsSide(w) && IsSide(h)
  {
    var srcAspect, targetAspect := Ratio(fl, srcW, srcH), Ratio(fl, w, h);
    if fl(fl(Abs(srcAspect - targetAspect)) / targetAspect) <= ASPECT_TOLERANCE then Crop else ContainOnBlack
  }

  function Scale(fl: Rounding, t: Treatment, srcW: nat, srcH: nat, w: nat, h: nat): real
    requires IsAccurate(fl) && IsSide(srcW) && IsSide(srcH) && IsSide(w) && IsSide(h)
  {
    var across, down := Ratio(fl, w, srcW), Ratio(fl, h, srcH);
    match t
    case Crop => if across >= down then across else down
    case ContainOnBlack => if across <= down then across else down
  }

  function Stretch(fl: Rounding, length: nat, scale: real): real {
    fl(Float(fl, length) * scale)
  }

  /** The nearest whole number, halves rounded up, and never less than one. */
  function WholePixels(length: real): nat {
    var rounded := (length + 0.5).Floor;
    if rounded < 1 then 1 else rounded
  }

  /** Rust's division: toward zero. */
  function HalveTowardZero(n: int): int {
    if n >= 0 then n / 2 else -(-n / 2)
  }

  /** A photo scaled to `sw` by `sh`, with its corner at (`ox`, `oy`) of the panel. */
  datatype Placement = Placement(w: nat, h: nat, sw: nat, sh: nat, ox: int, oy: int)

  function Place(fl: Rounding, srcW: nat, srcH: nat, w: nat, h: nat): Placement
    requires IsAccurate(fl) && IsSide(srcW) && IsSide(srcH) && IsSide(w) && IsSide(h)
  {
    var scale := Scale(fl, ChooseTreatment(fl, srcW, srcH, w, h), srcW, srcH, w, h);
    var sw, sh := WholePixels(Stretch(fl, srcW, scale)), WholePixels(Stretch(fl, srcH, scale));
    Placement(w, h, sw, sh, HalveTowardZero(w - sw), HalveTowardZero(h - sh))
  }

  /** A photo and a panel of sizes that arise. */
  predicate Fits(srcW: nat, srcH: nat, w: nat, h: nat) {
    IsSide(srcW) && IsSide(srcH) && 0 < w <= LONGEST_PANEL_SIDE && 0 < h <= LONGEST_PANEL_SIDE
  }

  predicate Covered(p: Placement, x: nat, y: nat) {
    0 <= x - p.ox < p.sw && 0 <= y - p.oy < p.sh
  }

  lemma ScaledIsWithin(q: real, r: real, a: real, t: real)
    requires Within(q, r, 1) && a > 0.0 && r == t / a
    ensures Within(a * q, t, 1)
  {
    TimesIsWithin(q, r, 1, a);
    assert r * a == t && q * a == a * q;
  }

  lemma TimesBack(fl: Rounding, a: real, t: real, x: real, q: real, p: real)
    requires IsAccurate(fl) && 0.5 <= a <= 8589934592.0 && 0.5 <= t <= 8589934592.0
    requires Within(t, x, 1) && 1.0 <= x <= 8192.0 && q == fl(t / a) && p == a * q
    ensures Within(fl(p), x, 4)
  {
    hide IsAccurate, Within;
    QuotientInRange(t, a);
    SmallRounding(fl, t / a);
    ScaledIsWithin(q, t / a, a, t);
    RoundProduct(fl, p, t, x);
  }

  lemma RoundProduct(fl: Rounding, p: real, t: real, x: real)
    requires IsAccurate(fl) && Within(p, t, 1) && Within(t, x, 1) && 1.0 <= x <= 8192.0
    ensures Within(fl(p), x, 4)
  {
    TwoRoundings(p, t, x);
    RoundedIsWithin(fl, p, x, 3);
  }

  /** Scaling by the ratio of target to length gives the target back, nearly. */
  lemma StretchedBack(fl: Rounding, length: nat, target: nat)
    requires IsAccurate(fl) && IsSide(length) && 0 < target <= LONGEST_PANEL_SIDE
    ensures Within(Stretch(fl, length, Ratio(fl, target, length)), target as real, 4)
  {
    hide IsAccurate, Within, Float, Ratio, Stretch;
    FloatIsWithin(fl, length);
    FloatIsWithin(fl, target);
    RatioIs(fl, target, length);
    var p := Float(fl, length) * Ratio(fl, target, length);
    TimesBack(fl, Float(fl, length), Float(fl, target), target as real, Ratio(fl, target, length), p);
    StretchIs(fl, length, Ratio(fl, target, length), p);
  }

  lemma RatioIs(fl: Rounding, a: nat, b: nat)
    requires IsAccurate(fl) && IsSide(a) && IsSide(b)
    ensures Float(fl, b) != 0.0 && Ratio(fl, a, b) == fl(Float(fl, a) / Float(fl, b))
  {
    FloatIsWithin(fl, b);
    hide IsAccurate, Within;
  }

  lemma StretchIs(fl: Rounding, length: nat, scale: real, p: real)
    requires p == Float(fl, length) * scale
    ensures Stretch(fl, length, scale) == fl(p)
  {
  }

  lemma TwoRoundings(y: real, t: real, x: real)
    requires Within(y, t, 1) && Within(t, x, 1) && 1.0 <= x <= 8192.0
    ensures Within(y, x, 3) && SMALLEST <= y <= LARGEST
  {
    assert 0.5 <= t <= 8193.0;
    assert 0.25 <= y <= 8194.0;
  }

  lemma LongerScaleIsLonger(fl: Rounding, length: nat, a: real, b: real)
    requires IsAccurate(fl) && IsSide(length) && 0.0 < a <= b <= 34359738368.0
    ensures Stretch(fl, length, a) <= Stretch(fl, length, b)
  {
    hide IsAccurate, Within, Float, Stretch;
    FloatIsWithin(fl, length);
    var p, q := Float(fl, length) * a, Float(fl, length) * b;
    ProductsInOrder(Float(fl, length), a, b, p, q);
    StretchIs(fl, length, a, p);
    StretchIs(fl, length, b, q);
    KeepsOrder(fl, p, q);
  }

  lemma KeepsOrder(fl: Rounding, x: real, y: real)
    requires IsAccurate(fl) && 0.0 <= x <= y <= LARGEST
    ensures fl(x) <= fl(y)
  {
  }

  lemma ProductsInOrder(l: real, a: real, b: real, p: real, q: real)
    requires 0.5 <= l <= 8589934592.0 && 0.0 < a <= b <= 34359738368.0
    requires p == l * a && q == l * b
    ensures 0.0 <= p <= q <= LARGEST
  {
    Commutes(l, a);
    Commutes(l, b);
    ProductKeepsOrder(a, b, l);
    assert p <= q;
    PositiveProduct(l, a);
    assert 0.0 <= p;
    ProductKeepsOrder(l, 8589934592.0, b);
    assert q <= 8589934592.0 * b;
  }

  lemma Commutes(a: real, b: real)
    ensures a * b == b * a
  {
  }

  lemma WholePixelsOf(target: nat, length: real)
    requires 1 <= target <= LONGEST_PANEL_SIDE
    ensures Within(length, target as real, 4) ==> WholePixels(length) == target
    ensures length >= target as real - 0.25 ==> WholePixels(length) >= target
    ensures length <= target as real + 0.25 ==> WholePixels(length) <= target
  {
  }

  lemma NearlyTarget(target: nat, length: real)
    requires 1 <= target <= LONGEST_PANEL_SIDE && Within(length, target as real, 4)
    ensures target as real - 0.25 <= length <= target as real + 0.25
  {
  }

  /** One side of the photo, stretched by one of the two ratios or by more or less. */
  lemma SideFollows(fl: Rounding, length: nat, target: nat, scale: real)
    requires IsAccurate(fl) && IsSide(length) && 0 < target <= LONGEST_PANEL_SIDE
    requires 0.0 < scale <= 34359738368.0
    ensures var side := WholePixels(Stretch(fl, length, scale));
      && (scale == Ratio(fl, target, length) ==> side == target)
      && (scale >= Ratio(fl, target, length) ==> side >= target)
      && (scale <= Ratio(fl, target, length) ==> side <= target)
  {
    var ratio := Ratio(fl, target, length);
    StretchedBack(fl, length, target);
    NearlyTarget(target, Stretch(fl, length, ratio));
    WholePixelsOf(target, Stretch(fl, length, ratio));
    WholePixelsOf(target, Stretch(fl, length, scale));
    hide Stretch, Ratio, WholePixels, Within, IsAccurate;
    if scale >= ratio {
      LongerScaleIsLonger(fl, length, ratio, scale);
    } else {
      LongerScaleIsLonger(fl, length, scale, ratio);
    }
  }

  /** A crop covers the panel and exactly fills it one way; a letterboxed photo
      fits inside it and exactly fills it one way: whatever the rounding does. */
  lemma SizesFollowTreatment(fl: Rounding, srcW: nat, srcH: nat, w: nat, h: nat)
    requires IsAccurate(fl) && Fits(srcW, srcH, w, h)
    ensures var p := Place(fl, srcW, srcH, w, h);
      && (p.sw == w || p.sh == h)
      && match ChooseTreatment(fl, srcW, srcH, w, h)
         case Crop => p.sw >= w && p.sh >= h
         case ContainOnBlack => p.sw <= w && p.sh <= h
  {
    hide WholePixels, ChooseTreatment, Stretch, IsAccurate, HalveTowardZero, Ratio;
    var scale := Scale(fl, ChooseTreatment(fl, srcW, srcH, w, h), srcW, srcH, w, h);
    SideFollows(fl, srcW, w, scale);
    SideFollows(fl, srcH, h, scale);
  }

  /** `before` and `after` are what is left over on two opposite sides, or cut off there:
      equal, but for an odd pixel on the far side. */
  predicate Centred(before: int, after: int) {
    if before + after >= 0 then before == after || before + 1 == after else before == after || before - 1 == after
  }

  /** The photo is centred: what is left over, or cut off, on opposite sides differs by at
      most one pixel, and that one is on the right or at the bottom. */
  lemma PhotoIsCentred(fl: Rounding, srcW: nat, srcH: nat, w: nat, h: nat)
    requires IsAccurate(fl) && Fits(srcW, srcH, w, h)
    ensures var p := Place(fl, srcW, srcH, w, h);
      Centred(p.ox, w - p.sw - p.ox) && Centred(p.oy, h - p.sh - p.oy)
  {
    hide Scale, ChooseTreatment, WholePixels, Ratio, IsAccurate;
  }

  /** A crop shows the photo on every pixel of the panel. */
  lemma CropLeavesNoBlack(fl: Rounding, srcW: nat, srcH: nat, w: nat, h: nat)
    requires IsAccurate(fl) && Fits(srcW, srcH, w, h)
    requires ChooseTreatment(fl, srcW, srcH, w, h) == Crop
    ensures forall x: nat, y: nat :: x < w && y < h ==> Covered(Place(fl, srcW, srcH, w, h), x, y)
  {
    SizesFollowTreatment(fl, srcW, srcH, w, h);
    hide Scale, ChooseTreatment, WholePixels, Ratio, IsAccurate;
  }

  /** The place in the scaled photo that panel pixel `k` shows, if it shows any. */
  function SourceOf(p: Placement, k: nat): (r: Option<nat>)
    requires p.w > 0
    ensures r.Some? ==> r.value < p.sw * p.sh
  {
    var x, y := k % p.w, k / p.w;
    if !Covered(p, x, y) then None
    else
      PanelRotation.IndexInRange(y - p.oy, x - p.ox, p.sw, p.sh);
      Some((y - p.oy) * p.sw + (x - p.ox))
  }

  /** A letterboxed photo is shown whole: each pixel of the scaled photo is shown by
      exactly one pixel of the panel. */
  lemma ContainShowsEveryPixelOnce(fl: Rounding, srcW: nat, srcH: nat, w: nat, h: nat, j: nat) returns (k: nat)
    requires IsAccurate(fl) && Fits(srcW, srcH, w, h)
    requires ChooseTreatment(fl, srcW, srcH, w, h) == ContainOnBlack
    requires var p := Place(fl, srcW, srcH, w, h); j < p.sw * p.sh
    ensures k < w * h
    ensures forall k': nat :: k' < w * h ==> (SourceOf(Place(fl, srcW, srcH, w, h), k') == Some(j) <==> k' == k)
  {
    SizesFollowTreatment(fl, srcW, srcH, w, h);
    var p := Place(fl, srcW, srcH, w, h);
    OffsetsLeaveRoom(w, p.sw);
    OffsetsLeaveRoom(h, p.sh);
    hide Place, ChooseTreatment, IsAccurate, HalveTowardZero;
    k := PixelThatShows(p, j);
    forall k': nat | k' < w * h
      ensures SourceOf(p, k') == Some(j) <==> k' == k
    {
      OnlyOneShows(p, j, k, k');
    }
  }

  lemma OffsetsLeaveRoom(side: nat, scaled: nat)
    requires scaled <= side
    ensures 0 <= HalveTowardZero(side - scaled) && HalveTowardZero(side - scaled) + scaled <= side
  {
  }

  ghost predicate Inside(p: Placement) {
    0 <= p.ox && p.ox + p.sw <= p.w && 0 <= p.oy && p.oy + p.sh <= p.h && p.w > 0
  }

  lemma PixelThatShows(p: Placement, j: nat) returns (k: nat)
    requires Inside(p) && j < p.sw * p.sh
    ensures k < p.w * p.h && p.sw > 0
    ensures k == (j / p.sw + p.oy) * p.w + (j % p.sw + p.ox)
    ensures SourceOf(p, k) == Some(j)
  {
    PanelRotation.SidesArePositive(j, p.sw, p.sh);
    PanelRotation.IndexSplits(j, p.sw, p.sh);
    k := PixelAt(p, j % p.sw, j / p.sw);
  }

  lemma PixelAt(p: Placement, col: nat, row: nat) returns (k: nat)
    requires Inside(p) && col < p.sw && row < p.sh
    ensures k < p.w * p.h && k == (row + p.oy) * p.w + (col + p.ox)
    ensures SourceOf(p, k) == Some(row * p.sw + col)
  {
    var x, y := col + p.ox, row + p.oy;
    k := y * p.w + x;
    PanelRotation.IndexInRange(y, x, p.w, p.h);
    PanelRotation.IndexJoins(y, x, p.w);
    hide SourceOf;
    ShownThere(p, k, x, y);
  }

  lemma ShownThere(p: Placement, k: nat, x: nat, y: nat)
    requires p.w > 0 && k / p.w == y && k % p.w == x && Covered(p, x, y)
    ensures SourceOf(p, k) == Some((y - p.oy) * p.sw + (x - p.ox))
  {
  }

  lemma OnlyOneShows(p: Placement, j: nat, k: nat, k': nat)
    requires Inside(p) && j < p.sw * p.sh && p.sw > 0
    requires k == (j / p.sw + p.oy) * p.w + (j % p.sw + p.ox) && SourceOf(p, k) == Some(j)
    ensures SourceOf(p, k') == Some(j) <==> k' == k
  {
    if SourceOf(p, k') == Some(j) {
      var x, y := k' % p.w, k' / p.w;
      PanelRotation.IndexJoins(y - p.oy, x - p.ox, p.sw);
      assert k' == y * p.w + x;
    }
  }

  // How close shapes must be, and what a crop costs.

  /** Shapes this near the limit of a quarter may go either way in floating point:
      one part in this many. */
  const MARGIN: real := 1.0 / 262144.0

  lemma CloseEnough(fl: Rounding, s: real, t: real, x: real)
    requires IsAccurate(fl) && 0.0 < s <= 34359738368.0 && 0.0 < t <= 34359738368.0
    requires x > 0.0 && Within(t, x, 4) && 1.0 / 17179869184.0 <= x <= 17179869184.0
    requires x * (0.75 + MARGIN) - 4.0 * UNIT * (0.75 + MARGIN) * x <= s
    requires s <= x * (1.25 - MARGIN) + 4.0 * UNIT * (1.25 - MARGIN) * x
    ensures fl(fl(Abs(s - t)) / t) <= ASPECT_TOLERANCE
  {
    CloseBy(s, t, x);
    CloseLimit(t, x);
    hide IsAccurate, Within, Abs;
    var d := fl(Abs(s - t));
    CloseRounded(fl, Abs(s - t), x, d);
    CloseQuotient(fl, d, t);
  }

  lemma CloseBy(s: real, t: real, x: real)
    requires x > 0.0 && Within(t, x, 4)
    requires x * (0.75 + MARGIN) - 4.0 * UNIT * (0.75 + MARGIN) * x <= s
    requires s <= x * (1.25 - MARGIN) + 4.0 * UNIT * (1.25 - MARGIN) * x
    ensures 0.0 <= Abs(s - t) <= (0.25 - MARGIN + 10.0 * UNIT) * x
  {
  }

  lemma CloseLimit(t: real, x: real)
    requires Within(t, x, 4) && x > 0.0
    ensures (0.25 - MARGIN + 12.0 * UNIT) * x <= (0.25 - MARGIN + 16.0 * UNIT) * t
  {
  }

  lemma CloseRounded(fl: Rounding, distance: real, x: real, d: real)
    requires IsAccurate(fl) && 1.0 / 17179869184.0 <= x <= 17179869184.0
    requires 0.0 <= distance <= (0.25 - MARGIN + 10.0 * UNIT) * x && d == fl(distance)
    ensures 0.0 <= d <= (0.25 - MARGIN + 12.0 * UNIT) * x
  {
    var most := (0.25 - MARGIN + 10.0 * UNIT) * x;
    SmallRounding(fl, most);
    assert fl(0.0) == 0.0;
    hide IsAccurate;
    KeepsOrder(fl, distance, most);
    KeepsOrder(fl, 0.0, distance);
  }

  lemma CloseQuotient(fl: Rounding, d: real, t: real)
    requires IsAccurate(fl) && t > 0.0 && 0.0 <= d <= (0.25 - MARGIN + 16.0 * UNIT) * t
    ensures fl(d / t) <= 0.25
  {
    hide IsAccurate;
    var limit := 0.25 - MARGIN + 16.0 * UNIT;
    QuotientAtMost(d, t, limit);
    QuotientNotNegative(d, t);
    SmallRounding(fl, limit);
    KeepsOrder(fl, d / t, limit);
  }

  lemma QuotientNotNegative(d: real, t: real)
    requires d >= 0.0 && t > 0.0
    ensures d / t >= 0.0
  {
  }

  lemma TooFar(fl: Rounding, s: real, t: real, x: real)
    requires IsAccurate(fl) && 0.0 < s <= 34359738368.0 && 0.0 < t <= 34359738368.0
    requires x > 0.0 && Within(t, x, 4) && 1.0 / 17179869184.0 <= x <= 17179869184.0
    requires || s < (0.75 - MARGIN) * x + 4.0 * UNIT * (0.75 - MARGIN) * x
             || s > (1.25 + MARGIN) * x - 4.0 * UNIT * (1.25 + MARGIN) * x
    ensures fl(fl(Abs(s - t)) / t) > ASPECT_TOLERANCE
  {
    Apart(s, t, x);
    FarEnough(t, x);
    hide IsAccurate, Within, Abs;
    var d := fl(Abs(s - t));
    FarRounded(fl, Abs(s - t), x, d);
    FarQuotient(fl, d, t);
  }

  lemma FarRounded(fl: Rounding, distance: real, x: real, d: real)
    requires IsAccurate(fl) && 1.0 / 17179869184.0 <= x <= 17179869184.0
    requires (0.25 + MARGIN - 10.0 * UNIT) * x <= distance <= 68719476736.0 && d == fl(distance)
    ensures (0.25 + MARGIN - 12.0 * UNIT) * x <= d <= 137438953472.0
  {
    var least := (0.25 + MARGIN - 10.0 * UNIT) * x;
    SmallRounding(fl, least);
    RoundedIsWithin(fl, 68719476736.0, 68719476736.0, 0);
    hide IsAccurate;
    KeepsOrder(fl, least, distance);
    KeepsOrder(fl, distance, 68719476736.0);
  }

  lemma FarEnough(t: real, x: real)
    requires Within(t, x, 4) && x >= 1.0 / 17179869184.0
    ensures (0.25 + MARGIN - 16.0 * UNIT) * t <= (0.25 + MARGIN - 12.0 * UNIT) * x
    ensures 1.0 / 34359738368.0 <= t
  {
  }

  lemma FarQuotient(fl: Rounding, d: real, t: real)
    requires IsAccurate(fl) && 1.0 / 34359738368.0 <= t
    requires (0.25 + MARGIN - 16.0 * UNIT) * t <= d <= 137438953472.0
    ensures fl(d / t) > 0.25
  {
    hide IsAccurate;
    var limit := 0.25 + MARGIN - 16.0 * UNIT;
    QuotientAtLeast(d, t, limit);
    QuotientAtMost(d, t, 4722366482869645213696.0);
    SmallRounding(fl, limit);
    KeepsOrder(fl, limit, d / t);
  }

  lemma Apart(s: real, t: real, x: real)
    requires 0.0 < s <= 34359738368.0 && 0.0 < t <= 34359738368.0
    requires x > 0.0 && Within(t, x, 4)
    requires || s < (0.75 - MARGIN) * x + 4.0 * UNIT * (0.75 - MARGIN) * x
             || s > (1.25 + MARGIN) * x - 4.0 * UNIT * (1.25 + MARGIN) * x
    ensures Abs(s - t) >= (0.25 + MARGIN - 10.0 * UNIT) * x
    ensures 0.0 <= Abs(s - t) <= 68719476736.0
  {
  }

  const LOW_IN: real := 196609.0 / 262144.0
  const HIGH_IN: real := 327679.0 / 262144.0
  const LOW_OUT: real := 196607.0 / 262144.0
  const HIGH_OUT: real := 327681.0 / 262144.0

  lemma ShapeBounds(s: real, shape: real, panel: real)
    requires Within(s, shape, 4) && shape > 0.0 && panel > 0.0
    ensures LOW_IN * panel <= shape <= HIGH_IN * panel ==>
      && panel * (0.75 + MARGIN) - 4.0 * UNIT * (0.75 + MARGIN) * panel <= s
      && s <= panel * (1.25 - MARGIN) + 4.0 * UNIT * (1.25 - MARGIN) * panel
    ensures shape < LOW_OUT * panel ==> s < (0.75 - MARGIN) * panel + 4.0 * UNIT * (0.75 - MARGIN) * panel
    ensures shape > HIGH_OUT * panel ==> s > (1.25 + MARGIN) * panel - 4.0 * UNIT * (1.25 + MARGIN) * panel
  {
  }

  /** Shapes clearly within a quarter of each other are cropped, and clearly further
      apart are not. */
  lemma TreatmentByShape(fl: Rounding, srcW: nat, srcH: nat, w: nat, h: nat, shape: real, panel: real)
    requires IsAccurate(fl) && IsSide(srcW) && IsSide(srcH) && IsSide(w) && IsSide(h)
    requires shape == srcW as real / srcH as real && panel == w as real / h as real
    ensures LOW_IN * panel <= shape <= HIGH_IN * panel ==> ChooseTreatment(fl, srcW, srcH, w, h) == Crop
    ensures shape < LOW_OUT * panel || shape > HIGH_OUT * panel ==>
      ChooseTreatment(fl, srcW, srcH, w, h) == ContainOnBlack
  {
    var s, t := Ratio(fl, srcW, srcH), Ratio(fl, w, h);
    RatioIsWithin(fl, srcW, srcH);
    RatioIsWithin(fl, w, h);
    QuotientIsPositive(srcW, srcH);
    QuotientIsPositive(w, h);
    QuotientInRange(w as real, h as real);
    ShapeBounds(s, shape, panel);
    hide IsAccurate, Ratio, Abs, Within;
    if LOW_IN * panel <= shape <= HIGH_IN * panel {
      CloseEnough(fl, s, t, panel);
    }
    if shape < LOW_OUT * panel || shape > HIGH_OUT * panel {
      TooFar(fl, s, t, panel);
    }
  }

  lemma CrossMultiply(a: real, b: real, c: real, d: real)
    requires b > 0.0 && d > 0.0
    ensures a / b <= c / d <==> a * d <= c * b
  {
    assert a * d == (a / b) * (b * d);
    assert c * b == (c / d) * (b * d);
    var q := c / d - a / b;
    assert q * (b * d) == c * b - a * d;
    assert b * d > 0.0;
    if q < 0.0 {
      assert q * (b * d) < 0.0;
    } else {
      assert q * (b * d) >= 0.0;
    }
  }

  lemma RatioCompares(m: nat, a: nat, b: nat, n: nat, c: nat, d: nat)
    requires b > 0 && d > 0
    ensures m as real * (a as real / b as real) <= n as real * (c as real / d as real)
       <==> m * (a * d) <= n * (c * b)
  {
    var x, y := m as real * a as real, n as real * c as real;
    CrossMultiply(x, b as real, y, d as real);
    ScaleQuotient(m, a, b);
    ScaleQuotient(n, c, d);
    TripleProduct(m, a, d);
    TripleProduct(n, c, b);
  }

  lemma ScaleQuotient(m: nat, a: nat, b: nat)
    requires b > 0
    ensures (m as real * a as real) / b as real == m as real * (a as real / b as real)
  {
  }

  lemma TripleProduct(m: nat, a: nat, d: nat)
    ensures (m as real * a as real) * d as real == (m * (a * d)) as real
  {
    ProductAsReal(a, d);
    ProductAsReal(m, a * d);
    assert (m as real * a as real) * d as real == m as real * (a as real * d as real);
  }

  lemma ProductAsReal(a: nat, b: nat)
    ensures a as real * b as real == (a * b) as real
  {
  }

  /** A limit on the shape, in whole numbers. */
  lemma ShapeCompares(m: nat, limit: real, srcW: nat, srcH: nat, w: nat, h: nat, shape: real, panel: real)
    requires srcH > 0 && h > 0 && limit == m as real / 262144.0
    requires shape == srcW as real / srcH as real && panel == w as real / h as real
    ensures limit * panel <= shape <==> m * (w * srcH) <= 262144 * (srcW * h)
    ensures shape <= limit * panel <==> 262144 * (srcW * h) <= m * (w * srcH)
  {
    RatioCompares(m, w, h, 262144, srcW, srcH);
    RatioCompares(262144, srcW, srcH, m, w, h);
    assert m as real * panel == 262144.0 * (limit * panel);
  }

  /** In whole numbers, and whatever the rounding does: a photo is cropped if its shape
      is within a quarter of the panel's by one part in 262144, and only if it is no
      further out than that. */
  lemma CropMeansWithinAQuarter(fl: Rounding, srcW: nat, srcH: nat, w: nat, h: nat)
    requires IsAccurate(fl) && IsSide(srcW) && IsSide(srcH) && IsSide(w) && IsSide(h)
    ensures 196609 * (w * srcH) <= 262144 * (srcW * h) <= 327679 * (w * srcH) ==>
      ChooseTreatment(fl, srcW, srcH, w, h) == Crop
    ensures ChooseTreatment(fl, srcW, srcH, w, h) == Crop ==>
      196607 * (w * srcH) <= 262144 * (srcW * h) <= 327681 * (w * srcH)
  {
    hide ChooseTreatment, IsAccurate;
    var shape, panel := srcW as real / srcH as real, w as real / h as real;
    TreatmentByShape(fl, srcW, srcH, w, h, shape, panel);
    ShapeCompares(196609, LOW_IN, srcW, srcH, w, h, shape, panel);
    ShapeCompares(327679, HIGH_IN, srcW, srcH, w, h, shape, panel);
    ShapeCompares(196607, LOW_OUT, srcW, srcH, w, h, shape, panel);
    ShapeCompares(327681, HIGH_OUT, srcW, srcH, w, h, shape, panel);
  }

  lemma ExactIsAccurate()
    ensures IsAccurate(EXACT)
  {
  }

  /** Without rounding the limit is a quarter exactly. */
  lemma ExactCropMeansWithinAQuarter(srcW: nat, srcH: nat, w: nat, h: nat)
    requires IsSide(srcW) && IsSide(srcH) && IsSide(w) && IsSide(h)
    ensures IsAccurate(EXACT)
    ensures ChooseTreatment(EXACT, srcW, srcH, w, h) == Crop
       <==> 3 * (w * srcH) <= 4 * (srcW * h) <= 5 * (w * srcH)
  {
    hide IsAccurate, Abs, ChooseTreatment;
    ExactIsAccurate();
    QuotientIsPositive(w, h);
    ExactTreatment(srcW, srcH, w, h);
    CloseMeans(srcW as real / srcH as real, w as real / h as real);
    RatioCompares(3, w, h, 4, srcW, srcH);
    RatioCompares(4, srcW, srcH, 5, w, h);
  }

  lemma ExactTreatment(srcW: nat, srcH: nat, w: nat, h: nat)
    requires IsSide(srcW) && IsSide(srcH) && IsSide(w) && IsSide(h) && IsAccurate(EXACT)
    requires w as real / h as real > 0.0
    ensures var s, t := srcW as real / srcH as real, w as real / h as real;
      ChooseTreatment(EXACT, srcW, srcH, w, h) == Crop <==> Abs(s - t) / t <= ASPECT_TOLERANCE
  {
    hide IsAccurate, Abs;
    assert Ratio(EXACT, srcW, srcH) == srcW as real / srcH as real;
    assert Ratio(EXACT, w, h) == w as real / h as real;
  }

  lemma CloseMeans(s: real, t: real)
    requires t > 0.0
    ensures Abs(s - t) / t <= ASPECT_TOLERANCE <==> 3.0 * t <= 4.0 * s <= 5.0 * t
  {
    var d := Abs(s - t);
    if d <= 0.25 * t {
      QuotientAtMost(d, t, 0.25);
    } else {
      QuotientAbove(d, t, 0.25);
    }
  }

  lemma QuotientAbove(n: real, d: real, c: real)
    requires d > 0.0 && n > c * d
    ensures n / d > c
  {
    var q := n / d;
    assert q * d == n;
    if q <= c {
      ProductKeepsOrder(q, c, d);
    }
  }

  /** A side stretched by a ratio, if that would bring it to `limit` at most. */
  lemma StretchAtMost(fl: Rounding, length: nat, a: nat, b: nat, limit: real)
    requires IsAccurate(fl) && IsSide(length) && IsSide(a) && IsSide(b)
    requires 1.0 <= limit <= 16384.0 && (length * a) as real <= limit * b as real
    ensures Stretch(fl, length, Ratio(fl, a, b)) <= limit + 8.0 * UNIT * limit
  {
    hide IsAccurate, Within, Float, Ratio, Stretch;
    FloatIsWithin(fl, length);
    RatioIsWithin(fl, a, b);
    QuotientIsPositive(a, b);
    UnroundedAtMost(length, a, b, limit);
    var p := Float(fl, length) * Ratio(fl, a, b);
    StretchIs(fl, length, Ratio(fl, a, b), p);
    ProductRounds(fl, Float(fl, length), length as real, Ratio(fl, a, b), a as real / b as real, limit, p);
  }

  lemma ProductRounds(fl: Rounding, l: real, n: real, r: real, x: real, limit: real, p: real)
    requires IsAccurate(fl) && 1.0 <= limit <= 16384.0
    requires l > 0.0 && r > 0.0 && x > 0.0 && n > 0.0
    requires Within(l, n, 1) && Within(r, x, 4) && n * x <= limit
    requires p == l * r
    ensures fl(p) <= limit + 8.0 * UNIT * limit
  {
    hide IsAccurate, Within;
    ProductAtMost(l, n, r, x, limit);
    PositiveProduct(l, r);
    var most := limit + 6.0 * UNIT * limit;
    KeepsOrder(fl, p, most);
    SmallRounding(fl, most);
    RoundedAtMost(fl(most), limit);
  }

  lemma RoundedAtMost(y: real, limit: real)
    requires 1.0 <= limit <= 16384.0 && Within(y, limit + 6.0 * UNIT * limit, 1)
    ensures y <= limit + 8.0 * UNIT * limit
  {
  }

  lemma UnroundedAtMost(length: nat, a: nat, b: nat, limit: real)
    requires b > 0 && (length * a) as real <= limit * b as real
    ensures length as real * (a as real / b as real) <= limit
  {
    ProductAsReal(length, a);
    QuotientAtMost((length * a) as real, b as real, limit);
    assert (length as real * a as real) / b as real == length as real * (a as real / b as real);
  }

  lemma ProductAtMost(l: real, n: real, r: real, x: real, limit: real)
    requires l > 0.0 && r > 0.0 && x > 0.0 && n > 0.0 && limit > 0.0
    requires Within(l, n, 1) && Within(r, x, 4) && n * x <= limit
    ensures l * r <= limit + 6.0 * UNIT * limit
  {
    var nx := n * x;
    ProductKeepsOrder(l, n + UNIT * n, r);
    var nr := n * r;
    assert (n + UNIT * n) * r == nr + UNIT * nr;
    ProductKeepsOrder(r, x + 4.0 * UNIT * x, n);
    assert r * n == nr && (x + 4.0 * UNIT * x) * n == nx + 4.0 * UNIT * nx;
    assert nr <= nx + 4.0 * UNIT * nx;
    assert l * r <= nr + UNIT * nr;
    LimitsAdd(l * r, nr, nx, limit);
  }

  lemma LimitsAdd(lr: real, nr: real, nx: real, limit: real)
    requires lr <= nr + UNIT * nr && nr <= nx + 4.0 * UNIT * nx && nx <= limit && limit > 0.0
    ensures lr <= limit + 6.0 * UNIT * limit
  {
  }

  /** A crop never throws away more than a quarter of the photo's height or a
      fifth of its width, give or take a rounded pixel. */
  lemma CropLosesLittle(fl: Rounding, srcW: nat, srcH: nat, w: nat, h: nat)
    requires IsAccurate(fl) && Fits(srcW, srcH, w, h)
    requires ChooseTreatment(fl, srcW, srcH, w, h) == Crop
    ensures var p := Place(fl, srcW, srcH, w, h); 4 * p.sw <= 5 * w + 2 && 6 * p.sh <= 8 * h + 3
  {
    CropMeansWithinAQuarter(fl, srcW, srcH, w, h);
    hide ChooseTreatment, WholePixels, HalveTowardZero, IsAccurate, Ratio, Stretch, Within;
    var across, down := Ratio(fl, w, srcW), Ratio(fl, h, srcH);
    if across >= down {
      SideFollows(fl, srcW, w, across);
      HeightAtMost(fl, srcW, srcH, w, h);
    } else {
      SideFollows(fl, srcH, h, down);
      WidthAtMost(fl, srcW, srcH, w, h);
    }
  }

  lemma HeightAtMost(fl: Rounding, srcW: nat, srcH: nat, w: nat, h: nat)
    requires IsAccurate(fl) && Fits(srcW, srcH, w, h) && 196607 * (w * srcH) <= 262144 * (srcW * h)
    ensures 6 * WholePixels(Stretch(fl, srcH, Ratio(fl, w, srcW))) <= 8 * h + 3
  {
    var limit := 262144.0 / 196607.0 * h as real;
    ProductAsReal(srcW, h);
    assert srcH * w == w * srcH;
    var real1 := (srcW * h) as real;
    assert (srcH * w) as real <= 262144.0 / 196607.0 * real1;
    assert real1 == h as real * srcW as real;
    assert 262144.0 / 196607.0 * real1 == limit * srcW as real;
    StretchAtMost(fl, srcH, w, srcW, limit);
    hide IsAccurate, Ratio, Stretch;
    WholeHeight(Stretch(fl, srcH, Ratio(fl, w, srcW)), h);
  }

  lemma WholeHeight(z: real, h: nat)
    requires 0 < h <= LONGEST_PANEL_SIDE
    requires var limit := 262144.0 / 196607.0 * h as real; z <= limit + 8.0 * UNIT * limit
    ensures 6 * WholePixels(z) <= 8 * h + 3
  {
  }

  lemma WidthAtMost(fl: Rounding, srcW: nat, srcH: nat, w: nat, h: nat)
    requires IsAccurate(fl) && Fits(srcW, srcH, w, h) && 262144 * (srcW * h) <= 327681 * (w * srcH)
    ensures 4 * WholePixels(Stretch(fl, srcW, Ratio(fl, h, srcH))) <= 5 * w + 2
  {
    var limit := 327681.0 / 262144.0 * w as real;
    ProductAsReal(w, srcH);
    var real1 := (w * srcH) as real;
    assert (srcW * h) as real <= 327681.0 / 262144.0 * real1;
    assert real1 == w as real * srcH as real;
    assert 327681.0 / 262144.0 * real1 == limit * srcH as real;
    StretchAtMost(fl, srcW, h, srcH, limit);
    hide IsAccurate, Ratio, Stretch;
    WholeWidth(Stretch(fl, srcW, Ratio(fl, h, srcH)), w);
  }

  lemma WholeWidth(z: real, w: nat)
    requires 0 < w <= LONGEST_PANEL_SIDE
    requires var limit := 327681.0 / 262144.0 * w as real; z <= limit + 8.0 * UNIT * limit
    ensures 4 * WholePixels(z) <= 5 * w + 2
  {
  }

  // Drawing.

  /** The colour of panel pixel `k`, counting along rows. */
  function ColourAt(p: Placement, scaled: seq<Rgb>, k: nat): Rgb
    requires |scaled| == p.sw * p.sh && k < p.w * p.h && p.w > 0
  {
    match SourceOf(p, k)
    case None => BLACK
    case Some(j) => scaled[j]
  }

  predicate Drawn(k: nat, w: nat, y: nat, x: nat)
    requires w > 0
  {
    k / w < y || (k / w == y && k % w < x)
  }

  lemma DrawnGrows(k: nat, w: nat, h: nat, y: nat, x: nat)
    requires w > 0 && x < w
    ensures Drawn(k, w, y, x + 1) <==> Drawn(k, w, y, x) || k == y * w + x
    ensures (y * w + x) / w == y && (y * w + x) % w == x && !Drawn(y * w + x, w, y, x)
  {
    QuotientIsUnique(y * w + x, w, y, x);
    assert k == (k / w) * w + k % w;
  }

  lemma RowIsDrawn(k: nat, w: nat, h: nat, y: nat)
    requires w > 0 && k < w * h
    ensures Drawn(k, w, y + 1, 0) <==> Drawn(k, w, y, w)
    ensures Drawn(k, w, h, 0) && !Drawn(k, w, 0, 0)
  {
    PanelRotation.IndexSplits(k, w, h);
  }

  function TripletAt(bytes: seq<Byte>, k: nat): Rgb
    requires 3 * k + 2 < |bytes|
  {
    Rgb(bytes[3 * k], bytes[3 * k + 1], bytes[3 * k + 2])
  }

  ghost predicate DrawnSoFar(bytes: seq<Byte>, p: Placement, scaled: seq<Rgb>, y: nat, x: nat)
    requires |scaled| == p.sw * p.sh && p.w > 0 && |bytes| == p.w * p.h * 3
  {
    forall k: nat :: k < p.w * p.h ==>
      TripletAt(bytes, k) == if Drawn(k, p.w, y, x) then ColourAt(p, scaled, k) else BLACK
  }

  lemma DrawOne(before: seq<Byte>, after: seq<Byte>, p: Placement, scaled: seq<Rgb>, y: nat, x: nat, colour: Rgb)
    requires |scaled| == p.sw * p.sh && p.w > 0 && |before| == |after| == p.w * p.h * 3
    requires x < p.w && y < p.h && y * p.w + x < p.w * p.h
    requires DrawnSoFar(before, p, scaled, y, x)
    requires var k := y * p.w + x;
      after == before[3 * k := colour.r][3 * k + 1 := colour.g][3 * k + 2 := colour.b]
    requires colour == ColourAt(p, scaled, y * p.w + x)
    ensures DrawnSoFar(after, p, scaled, y, x + 1)
  {
    hide ColourAt, Drawn;
    forall k: nat | k < p.w * p.h
      ensures TripletAt(after, k) == if Drawn(k, p.w, y, x + 1) then ColourAt(p, scaled, k) else BLACK
    {
      DrawnGrows(k, p.w, p.h, y, x);
      assert k != y * p.w + x ==> TripletAt(after, k) == TripletAt(before, k);
    }
  }

  lemma SkipOne(bytes: seq<Byte>, p: Placement, scaled: seq<Rgb>, y: nat, x: nat)
    requires |scaled| == p.sw * p.sh && p.w > 0 && |bytes| == p.w * p.h * 3
    requires x < p.w && y < p.h && !Covered(p, x, y)
    requires DrawnSoFar(bytes, p, scaled, y, x)
    ensures DrawnSoFar(bytes, p, scaled, y, x + 1)
  {
    hide Drawn;
    forall k: nat | k < p.w * p.h
      ensures TripletAt(bytes, k) == if Drawn(k, p.w, y, x + 1) then ColourAt(p, scaled, k) else BLACK
    {
      DrawnGrows(k, p.w, p.h, y, x);
    }
  }

  lemma RowDone(bytes: seq<Byte>, p: Placement, scaled: seq<Rgb>, y: nat)
    requires |scaled| == p.sw * p.sh && p.w > 0 && |bytes| == p.w * p.h * 3 && y < p.h
    requires DrawnSoFar(bytes, p, scaled, y, p.w)
    ensures DrawnSoFar(bytes, p, scaled, y + 1, 0)
  {
    hide Drawn, ColourAt;
    forall k: nat | k < p.w * p.h
      ensures TripletAt(bytes, k) == if Drawn(k, p.w, y + 1, 0) then ColourAt(p, scaled, k) else BLACK
    {
      RowIsDrawn(k, p.w, p.h, y);
    }
  }

  lemma SkipRow(bytes: seq<Byte>, p: Placement, scaled: seq<Rgb>, y: nat)
    requires |scaled| == p.sw * p.sh && p.w > 0 && |bytes| == p.w * p.h * 3 && y < p.h
    requires !(0 <= y - p.oy < p.sh) && DrawnSoFar(bytes, p, scaled, y, 0)
    ensures DrawnSoFar(bytes, p, scaled, y + 1, 0)
  {
    forall k: nat | k < p.w * p.h
      ensures TripletAt(bytes, k) == if Drawn(k, p.w, y + 1, 0) then ColourAt(p, scaled, k) else BLACK
    {
      assert Drawn(k, p.w, y + 1, 0) && !Drawn(k, p.w, y, 0) ==> k / p.w == y;
    }
  }

  method SetTriplet(canvas: array<Byte>, k: nat, colour: Rgb)
    requires 3 * k + 2 < canvas.Length
    modifies canvas
    ensures canvas[..] == old(canvas[..])[3 * k := colour.r][3 * k + 1 := colour.g][3 * k + 2 := colour.b]
  {
    var base := k * 3;
    canvas[base] := colour.r;
    canvas[base + 1] := colour.g;
    canvas[base + 2] := colour.b;
  }

  /** One step of the copy loop: panel pixel (x, y), if the photo covers it. */
  method CopyPixel(canvas: array<Byte>, p: Placement, scaled: seq<Rgb>, y: nat, x: nat)
    requires |scaled| == p.sw * p.sh && p.w > 0 && canvas.Length == p.w * p.h * 3 && x < p.w && y < p.h
    requires 0 <= y - p.oy < p.sh
    requires DrawnSoFar(canvas[..], p, scaled, y, x)
    modifies canvas
    ensures DrawnSoFar(canvas[..], p, scaled, y, x + 1)
  {
    hide Drawn, ColourAt, TripletAt, DrawnSoFar, SourceOf;
    var srcX, srcY := x - p.ox, y - p.oy;
    if srcX < 0 || srcX >= p.sw {
      SkipOne(canvas[..], p, scaled, y, x);
      return;
    }
    ColourHere(p, scaled, x, y);
    var px := scaled[srcY * p.sw + srcX];
    ghost var before := canvas[..];
    SetTriplet(canvas, y * p.w + x, px);
    DrawOne(before, canvas[..], p, scaled, y, x, px);
  }

  /** The copy loop: a black canvas with the scaled photo laid over it. */
  method Compose(p: Placement, scaled: seq<Rgb>) returns (canvas: array<Byte>)
    requires |scaled| == p.sw * p.sh && p.w > 0
    ensures canvas.Length == p.w * p.h * 3
    ensures forall k: nat :: k < p.w * p.h ==> TripletAt(canvas[..], k) == ColourAt(p, scaled, k)
  {
    hide Drawn, ColourAt, TripletAt, DrawnSoFar, SourceOf;
    canvas := new Byte[p.w * p.h * 3](_ => 0);
    NothingDrawn(canvas[..], p, scaled);
    for y := 0 to p.h
      invariant DrawnSoFar(canvas[..], p, scaled, y, 0)
    {
      var srcY := y - p.oy;
      if srcY < 0 || srcY >= p.sh {
        SkipRow(canvas[..], p, scaled, y);
        continue;
      }
      for x := 0 to p.w
        invariant DrawnSoFar(canvas[..], p, scaled, y, x)
      {
        CopyPixel(canvas, p, scaled, y, x);
      }
      RowDone(canvas[..], p, scaled, y);
    }
    AllDrawn(canvas[..], p, scaled);
  }

  lemma ColourHere(p: Placement, scaled: seq<Rgb>, x: nat, y: nat)
    requires |scaled| == p.sw * p.sh && x < p.w && y < p.h && Covered(p, x, y)
    ensures y * p.w + x < p.w * p.h && (y - p.oy) * p.sw + (x - p.ox) < |scaled|
    ensures 0 <= (y - p.oy) * p.sw + (x - p.ox)
    ensures ColourAt(p, scaled, y * p.w + x) == scaled[(y - p.oy) * p.sw + (x - p.ox)]
  {
    PanelRotation.IndexInRange(y, x, p.w, p.h);
    PanelRotation.IndexInRange(y - p.oy, x - p.ox, p.sw, p.sh);
    PanelRotation.IndexJoins(y, x, p.w);
    ShownThere(p, y * p.w + x, x, y);
    hide SourceOf;
  }

  lemma NothingDrawn(bytes: seq<Byte>, p: Placement, scaled: seq<Rgb>)
    requires |scaled| == p.sw * p.sh && p.w > 0 && |bytes| == p.w * p.h * 3
    requires forall i :: 0 <= i < |bytes| ==> bytes[i] == 0
    ensures DrawnSoFar(bytes, p, scaled, 0, 0)
  {
    forall k: nat | k < p.w * p.h
      ensures !Drawn(k, p.w, 0, 0)
    {
      RowIsDrawn(k, p.w, p.h, 0);
    }
  }

  lemma AllDrawn(bytes: seq<Byte>, p: Placement, scaled: seq<Rgb>)
    requires |scaled| == p.sw * p.sh && p.w > 0 && |bytes| == p.w * p.h * 3
    requires DrawnSoFar(bytes, p, scaled, p.h, 0)
    ensures forall k: nat :: k < p.w * p.h ==> TripletAt(bytes, k) == ColourAt(p, scaled, k)
  {
    forall k: nat | k < p.w * p.h
      ensures Drawn(k, p.w, p.h, 0)
    {
      RowIsDrawn(k, p.w, p.h, 0);
    }
  }

  lemma {:induction false} PackAllAt(bytes: seq<Byte>, k: nat)
    requires 3 * k + 2 < |bytes|
    ensures k < |PackAll(bytes)|
    ensures PackAll(bytes)[k] == PackTriplet(bytes[3 * k], bytes[3 * k + 1], bytes[3 * k + 2])
    decreases k
  {
    hide PackTriplet;
    if k > 0 {
      PackAllAt(bytes[3..], k - 1);
    }
  }

  /** Scale, place and pack a photo. `resample` is the image library's scaler. */
  method FitToPanel(fl: Rounding, srcW: nat, srcH: nat, w: nat, h: nat, resample: (nat, nat) -> seq<Rgb>)
    returns (r: Result<(RenderedImage, Treatment), FitError>)
    requires IsAccurate(fl) && srcW <= LONGEST_PHOTO_SIDE && srcH <= LONGEST_PHOTO_SIDE && IsSide(w) && IsSide(h)
    requires forall a: nat, b: nat :: |resample(a, b)| == a * b
    ensures r.Failure? <==> srcW == 0 || srcH == 0
    ensures r.Success? ==>
      var (image, treatment) := r.value;
      var p := Place(fl, srcW, srcH, w, h);
      && treatment == ChooseTreatment(fl, srcW, srcH, w, h)
      && image.width == w && image.height == h && image.id == None && |image.rgb565| == w * h
      && forall k: nat :: k < w * h ==>
           var colour := ColourAt(p, resample(p.sw, p.sh), k);
           image.rgb565[k] == PackTriplet(colour.r, colour.g, colour.b)
  {
    if srcW == 0 || srcH == 0 {
      return Failure(ZeroDimension);
    }
    var p := Place(fl, srcW, srcH, w, h);
    var scaled := resample(p.sw, p.sh);
    hide Place, IsAccurate, ColourAt, PackTriplet, PackAll;
    var canvas := Compose(p, scaled);
    PackedLength(canvas[..]);
    forall k: nat | k < w * h
      ensures var colour := ColourAt(p, scaled, k);
        PackAll(canvas[..])[k] == PackTriplet(colour.r, colour.g, colour.b)
    {
      PackAllAt(canvas[..], k);
      assert TripletAt(canvas[..], k) == ColourAt(p, scaled, k);
    }
    var image := FromRgb8(w, h, canvas[..]);
    return Success((image.value, ChooseTreatment(fl, srcW, srcH, w, h)));
  }
}
