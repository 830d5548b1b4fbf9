// Scale-plan geometry: given an input size, a size constraint and an
// aspect-ratio mode, compute the output canvas and, for padding modes, the
// centred region of the canvas the resized image occupies.
//
// The source computes the scale factor in `f64` and rounds with
// `f64::round`; here the factor is an exact fraction and rounding is
// exact round-half-up of that fraction.

module Presets {
  import opened Common
  import opened Arith

  datatype Size = Size(w: nat, h: nat)

  /** A BGRA/RGBA colour, `[u8; 4]`. */
  type Rgba = s: seq<byte> | |s| == 4 witness [0, 0, 0, 0]

  datatype AspectMode = Preserve | Distort | Pad(bgRgba: Rgba)

  datatype ScaleTarget = MaxLongSide(maxSide: nat) | Exact(box: Size)

  /** `(x, y, w, h)` of the destination region inside the canvas. */
  datatype Roi = Roi(x: nat, y: nat, w: nat, h: nat)

  datatype ScalePlan = ScalePlan(input: Size, target: ScaleTarget, aspect: AspectMode, out: Size, dstRoi: Option<Roi>)

  datatype TokenPreset = P2_56Long640 | P4Long640 | P6_9Long512 | P9Long640 | P10_24Long640

  /** `a / b` rounded to the nearest integer, halves up (`f64::round` of a
      non-negative quotient). */
  function RoundDiv(a: nat, b: nat): nat
    requires b > 0
  {
    (2 * a + b) / (2 * b)
  }

  /** `RoundDiv` is the nearest integer: within half a unit of `a / b`. */
  lemma RoundDivNearest(a: nat, b: nat)
    requires b > 0
    ensures 2 * a - b < 2 * b * RoundDiv(a, b) <= 2 * a + b
  {
    var r := RoundDiv(a, b);
    var m := (2 * a + b) % (2 * b);
    assert 2 * a + b == r * (2 * b) + m;
    assert 2 * b * r == r * (2 * b);
  }

  lemma RoundDivLe(a: nat, b: nat, k: nat)
    requires b > 0 && a <= k * b
    ensures RoundDiv(a, b) <= k
  {
    assert 2 * a + b < (2 * b) * (k + 1);
    DivLtBound(2 * a + b, 2 * b, k + 1);
  }

  lemma RoundDivExact(k: nat, b: nat)
    requires b > 0
    ensures RoundDiv(k * b, b) == k
  {
    assert 2 * (k * b) + b == k * (2 * b) + b;
    DivModUnique(2 * (k * b) + b, 2 * b, k, b);
  }

  /** The box a target describes: `max x max` or the exact size. */
  function TargetBox(t: ScaleTarget): Size
  {
    match t
    case MaxLongSide(m) => Size(m, m)
    case Exact(b) => b
  }

  /** `fit_preserve`: scale so the longer side is at most `maxLong`, never
      up, each side at least 1. */
  function FitPreserve(input: Size, maxLong: nat): (r: Size)
    ensures r.w >= 1 && r.h >= 1
  {
    var long := Max(input.w, input.h);
    if long <= maxLong then
      Size(Max(input.w, 1), Max(input.h, 1))
    else
      Size(Max(RoundDiv(input.w * maxLong, long), 1), Max(RoundDiv(input.h * maxLong, long), 1))
  }

  /** The scale factor `fit_within` uses, as a fraction `(num, den)`: the
      smallest of `bw / w` (when `w > 0`), `bh / h` (when `h > 0`) and 1. A
      zero input side drops its ratio out, as `f64::min` does with the
      infinite or NaN quotient. */
  function WithinScale(input: Size, box: Size): (s: (nat, nat))
    ensures s.1 > 0
    ensures s == (1, 1) || (input.w > 0 && s == (box.w, input.w)) || (input.h > 0 && s == (box.h, input.h))
  {
    var s1 := if input.w > 0 && box.w < input.w then (box.w, input.w) else (1, 1);
    if input.h > 0 && box.h * s1.1 < s1.0 * input.h then (box.h, input.h) else s1
  }

  /** The chosen factor is at most 1 and at most each applicable ratio. */
  lemma WithinScaleIsMin(input: Size, box: Size)
    ensures var s := WithinScale(input, box);
      && s.0 <= s.1
      && (input.w > 0 ==> s.0 * input.w <= box.w * s.1)
      && (input.h > 0 ==> s.0 * input.h <= box.h * s.1)
  {
    var w, h, bw, bh := input.w, input.h, box.w, box.h;
    var s1 := if w > 0 && bw < w then (bw, w) else (1, 1);
    if h > 0 && bh * s1.1 < s1.0 * h {
      if s1 == (1, 1) {
        if w > 0 {
          MulLeMono(bh, h, w);
          MulLeMono(w, bw, h);
        }
      } else {
        if bh >= h {
          MulLeMono(h, bh, w);
          MulLtMono(bw, w, h);
        }
      }
    }
  }

  /** `fit_within`: the largest size with the input's proportions that fits
      the box, never up, each side at least 1. */
  function FitWithin(input: Size, box: Size): (r: Size)
    ensures r.w >= 1 && r.h >= 1
  {
    var s := WithinScale(input, box);
    Size(Max(RoundDiv(input.w * s.0, s.1), 1), Max(RoundDiv(input.h * s.0, s.1), 1))
  }

  /** Padding needs a non-degenerate canvas: with a zero side the source
      subtracts the region from the canvas in `u32` and underflows. */
  predicate PadAllowed(target: ScaleTarget, aspect: AspectMode)
  {
    aspect.Pad? ==> TargetBox(target).w >= 1 && TargetBox(target).h >= 1
  }

  /** `((out.w - rw) / 2, (out.h - rh) / 2, rw, rh)` */
  function Centred(out: Size, inner: Size): Roi
    requires inner.w <= out.w && inner.h <= out.h
  {
    Roi((out.w - inner.w) / 2, (out.h - inner.h) / 2, inner.w, inner.h)
  }

  lemma FitPreserveBounds(input: Size, maxLong: nat)
    ensures FitPreserve(input, maxLong).w <= Max(input.w, 1)
    ensures FitPreserve(input, maxLong).h <= Max(input.h, 1)
    ensures maxLong >= 1 ==> FitPreserve(input, maxLong).w <= maxLong && FitPreserve(input, maxLong).h <= maxLong
  {
    var long := Max(input.w, input.h);
    if long > maxLong {
      FitSideBound(input.w, long, maxLong);
      FitSideBound(input.h, long, maxLong);
    }
  }

  /** A side no longer than the long side, scaled by `maxLong / long < 1`,
      stays within both itself and `maxLong`. */
  lemma FitSideBound(x: nat, long: nat, maxLong: nat)
    requires x <= long && maxLong < long
    ensures RoundDiv(x * maxLong, long) <= x
    ensures RoundDiv(x * maxLong, long) <= maxLong
  {
    MulLeMono(x, long, maxLong);
    assert x * maxLong <= maxLong * long;
    RoundDivLe(x * maxLong, long, maxLong);
    MulLeMono(maxLong, long, x);
    RoundDivLe(x * maxLong, long, x);
  }

  /** One side scaled by `num / den`: no larger than the side (or 1), and
      within the box side whenever the factor respects that side's ratio. */
  lemma ScaledSideBounds(x: nat, num: nat, den: nat, b: nat)
    requires den > 0 && num <= den
    requires x > 0 ==> num * x <= b * den
    ensures RoundDiv(x * num, den) <= x
    ensures x > 0 ==> RoundDiv(x * num, den) <= b
  {
    MulLeMono(num, den, x);
    RoundDivLe(x * num, den, x);
    if x > 0 {
      RoundDivLe(x * num, den, b);
    }
  }

  lemma FitWithinBounds(input: Size, box: Size)
    ensures FitWithin(input, box).w <= Max(input.w, 1)
    ensures FitWithin(input, box).h <= Max(input.h, 1)
    ensures box.w >= 1 ==> FitWithin(input, box).w <= box.w
    ensures box.h >= 1 ==> FitWithin(input, box).h <= box.h
  {
    var s := WithinScale(input, box);
    WithinScaleIsMin(input, box);
    ScaledSideBounds(input.w, s.0, s.1, box.w);
    ScaledSideBounds(input.h, s.0, s.1, box.h);
  }

  /** `build_plan` */
  function BuildPlan(input: Size, target: ScaleTarget, aspect: AspectMode): (p: ScalePlan)
    requires PadAllowed(target, aspect)
    ensures p.input == input && p.target == target && p.aspect == aspect
    ensures p.dstRoi.Some? <==> aspect.Pad?
    ensures !aspect.Preserve? ==> p.out == TargetBox(target)
    ensures p.dstRoi.Some? ==>
              && p.dstRoi.value.x + p.dstRoi.value.w <= p.out.w
              && p.dstRoi.value.y + p.dstRoi.value.h <= p.out.h
              && p.dstRoi.value.w >= 1 && p.dstRoi.value.h >= 1
  {
    match (target, aspect)
    case (MaxLongSide(m), Preserve) =>
      ScalePlan(input, target, aspect, FitPreserve(input, m), None)
    case (MaxLongSide(m), Distort) =>
      ScalePlan(input, target, aspect, Size(m, m), None)
    case (MaxLongSide(m), Pad(_)) =>
      var inner := FitPreserve(input, m);
      FitPreserveBounds(input, m);
      ScalePlan(input, target, aspect, Size(m, m), Some(Centred(Size(m, m), inner)))
    case (Exact(box), Distort) =>
      ScalePlan(input, target, aspect, box, None)
    case (Exact(box), Preserve) =>
      ScalePlan(input, target, aspect, FitWithin(input, box), None)
    case (Exact(box), Pad(_)) =>
      var inner := FitWithin(input, box);
      FitWithinBounds(input, box);
      ScalePlan(input, target, aspect, box, Some(Centred(box, inner)))
  }

  /** `TokenPreset::to_target` */
  function ToTarget(p: TokenPreset): (t: ScaleTarget)
    ensures t.MaxLongSide?
    ensures t.maxSide == 512 <==> p == P6_9Long512
    ensures t.maxSide == 512 || t.maxSide == 640
  {
    match p
    case P6_9Long512 => MaxLongSide(512)
    case _ => MaxLongSide(640)
  }

  // ---------------------------------------------------------------------
  // Properties of the plans

  /** MaxLongSide + Preserve: no region, both sides at least 1, the longer
      side within the limit, and neither side grows. */
  lemma PreservePlanBounds(input: Size, maxSide: nat)
    requires maxSide >= 1
    ensures var p := BuildPlan(input, MaxLongSide(maxSide), Preserve);
      && p.dstRoi == None
      && 1 <= p.out.w <= maxSide && 1 <= p.out.h <= maxSide
      && p.out.w <= Max(input.w, 1) && p.out.h <= Max(input.h, 1)
  {
    FitPreserveBounds(input, maxSide);
  }

  /** An input that already fits is passed through unchanged. */
  lemma NoUpscale(input: Size, maxSide: nat)
    requires input.w >= 1 && input.h >= 1 && Max(input.w, input.h) <= maxSide
    ensures BuildPlan(input, MaxLongSide(maxSide), Preserve).out == input
  {
  }

  /** An input that is too large has its longer side brought exactly to
      the limit, and the other side is the nearest integer (halves up) to
      its proportional length, floored at 1: one common factor. */
  lemma PreserveCommonFactor(input: Size, maxSide: nat)
    requires Max(input.w, input.h) > maxSide
    ensures var out := BuildPlan(input, MaxLongSide(maxSide), Preserve).out;
      var long := Max(input.w, input.h);
      && (input.w >= input.h ==> out.w == Max(maxSide, 1))
      && (input.h >= input.w ==> out.h == Max(maxSide, 1))
      && (out.w == 1 || 2 * (input.w * maxSide) - long < 2 * long * out.w <= 2 * (input.w * maxSide) + long)
      && (out.h == 1 || 2 * (input.h * maxSide) - long < 2 * long * out.h <= 2 * (input.h * maxSide) + long)
  {
    var long := Max(input.w, input.h);
    LongSideExact(input.w, maxSide, long);
    LongSideExact(input.h, maxSide, long);
    RoundDivNearest(input.w * maxSide, long);
    RoundDivNearest(input.h * maxSide, long);
  }

  /** The longer side scaled by `m / long` is exactly `m`. */
  lemma LongSideExact(side: nat, m: nat, long: nat)
    requires long > 0
    ensures side == long ==> RoundDiv(side * m, long) == m
  {
    if side == long {
      assert side * m == m * long;
      RoundDivExact(m, long);
    }
  }

  /** Values pinned by the scaling-processor tests. */
  lemma ScalingExamples()
    ensures BuildPlan(Size(1920, 1080), ToTarget(P4Long640), Preserve).out == Size(640, 360)
    ensures BuildPlan(Size(1024, 768), ToTarget(P4Long640), Preserve).out == Size(640, 480)
    ensures BuildPlan(Size(1920, 1080), ToTarget(P6_9Long512), Preserve).out == Size(512, 288)
  {
    assert RoundDiv(1920 * 640, 1920) == 640;
    assert RoundDiv(1080 * 640, 1920) == 360;
    assert RoundDiv(1024 * 640, 1024) == 640;
    assert RoundDiv(768 * 640, 1024) == 480;
    assert RoundDiv(1920 * 512, 1920) == 512;
    assert RoundDiv(1080 * 512, 1920) == 288;
  }

  /** Distort yields exactly the target box and no region. */
  lemma DistortIsTarget(input: Size, target: ScaleTarget)
    ensures BuildPlan(input, target, Distort).out == TargetBox(target)
    ensures BuildPlan(input, target, Distort).dstRoi == None
  {
  }

  /** Pad yields the whole target canvas and a region inside it, centred:
      the left and right margins (and the top and bottom ones) differ by
      at most one pixel, the extra pixel going right/bottom. */
  lemma PadCentred(input: Size, target: ScaleTarget, bg: Rgba)
    requires PadAllowed(target, Pad(bg))
    ensures var p := BuildPlan(input, target, Pad(bg));
      var roi := p.dstRoi.value;
      && p.out == TargetBox(target)
      && roi.x + roi.w <= p.out.w && roi.y + roi.h <= p.out.h
      && 0 <= (p.out.w - (roi.x + roi.w)) - roi.x <= 1
      && 0 <= (p.out.h - (roi.y + roi.h)) - roi.y <= 1
  {
  }

  /** The padded region is the Preserve result for the same constraint. */
  lemma PadRegionIsPreserved(input: Size, maxSide: nat, box: Size, bg: Rgba)
    requires maxSide >= 1 && box.w >= 1 && box.h >= 1
    ensures var roi := BuildPlan(input, MaxLongSide(maxSide), Pad(bg)).dstRoi.value;
      Size(roi.w, roi.h) == BuildPlan(input, MaxLongSide(maxSide), Preserve).out
    ensures var roi := BuildPlan(input, Exact(box), Pad(bg)).dstRoi.value;
      Size(roi.w, roi.h) == BuildPlan(input, Exact(box), Preserve).out
  {
  }

  /** Exact + Preserve fits the box, never grows the input, keeps both
      sides at least 1, and the binding side fills the box exactly. */
  lemma FitWithinPlan(input: Size, box: Size)
    requires box.w >= 1 && box.h >= 1
    ensures var out := BuildPlan(input, Exact(box), Preserve).out;
      && 1 <= out.w <= box.w && 1 <= out.h <= box.h
      && out.w <= Max(input.w, 1) && out.h <= Max(input.h, 1)
      && (input.w > box.w && box.w * input.h <= box.h * input.w ==> out.w == box.w)
      && (input.h > box.h && box.h * input.w <= box.w * input.h ==> out.h == box.h)
  {
    FitWithinBounds(input, box);
    var s := WithinScale(input, box);
    if input.w > box.w && box.w * input.h <= box.h * input.w {
      BindingWidth(input, box);
      ScaledExact(input.w, s.0, s.1, box.w);
    }
    if input.h > box.h && box.h * input.w <= box.w * input.h {
      BindingHeight(input, box);
      ScaledExact(input.h, s.0, s.1, box.h);
    }
  }

  /** When the width ratio is the smallest, the factor equals it. */
  lemma BindingWidth(input: Size, box: Size)
    requires input.w > box.w && box.w * input.h <= box.h * input.w
    ensures WithinScale(input, box).0 * input.w == box.w * WithinScale(input, box).1
  {
    assert WithinScale(input, box) == (box.w, input.w);
  }

  /** When the height ratio is the smallest, the factor equals it. */
  lemma BindingHeight(input: Size, box: Size)
    requires input.h > box.h && box.h * input.w <= box.w * input.h
    ensures WithinScale(input, box).0 * input.h == box.h * WithinScale(input, box).1
  {
    var s1 := if input.w > 0 && box.w < input.w then (box.w, input.w) else (1, 1);
    if s1 == (box.w, input.w) && !(box.h * input.w < box.w * input.h) {
      assert WithinScale(input, box) == (box.w, input.w);
      assert box.w * input.h == box.h * input.w;
    }
  }

  /** A side scaled by exactly `b / x` lands on `b`. */
  lemma ScaledExact(x: nat, num: nat, den: nat, b: nat)
    requires den > 0 && num * x == b * den
    ensures RoundDiv(x * num, den) == b
  {
    assert x * num == b * den;
    RoundDivExact(b, den);
  }
}
