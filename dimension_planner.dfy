/**
 * The dimension planner of resizeImage: scale the picture by the larger of
 * the two per-axis factors that would bring an axis one pixel past its
 * target, then round each axis up on its own. Arithmetic is exact here
 * (rationals), where the browser uses double-precision floats.
 */
module DimensionPlanner {

  const TargetWidth: nat := 2880
  const TargetHeight: nat := 2304

  datatype Dimensions = Dimensions(width: int, height: int)

  /** Smallest integer not below x (Math.ceil on exact rationals). */
  function Ceil(x: real): (c: int)
    ensures c as real - 1.0 < x <= c as real
  {
    -((-x).Floor)
  }

  /** Integer ceiling of a / b. */
  function CeilDiv(a: nat, b: nat): (c: nat)
    requires b > 0
    ensures (c - 1) * b < a <= c * b
  {
    (a + b - 1) / b
  }

  /** Per-axis scale factor that takes `original` to exactly target + 1. */
  function AxisScale(target: nat, original: nat): real
    requires original > 0
  {
    (target + 1) as real / original as real
  }

  /** The dimensions resizeImage gives the canvas for a picture of w by h pixels. */
  function Plan(w: nat, h: nat): (d: Dimensions)
    requires w > 0 && h > 0
    ensures d.width > TargetWidth as int && d.height > TargetHeight as int
  {
    var sw := AxisScale(TargetWidth, w);
    var sh := AxisScale(TargetHeight, h);
    var scale := if sw >= sh then sw else sh;
    ScaledAboveTarget(w, TargetWidth, sw, scale);
    ScaledAboveTarget(h, TargetHeight, sh, scale);
    Dimensions(Ceil(w as real * scale), Ceil(h as real * scale))
  }

  /** Scaling an axis by at least its own factor takes it to at least target + 1. */
  lemma ScaledAboveTarget(original: nat, target: nat, factor: real, scale: real)
    requires original > 0
    requires factor == AxisScale(target, original) && scale >= factor
    ensures original as real * scale >= (target + 1) as real
  {
    assert original as real * factor == (target + 1) as real;
  }

  /** Comparing a quotient with y is comparing the dividend with y times the divisor. */
  lemma QuotientBounds(a: real, b: real, y: real)
    requires b > 0.0
    ensures y < a / b <==> y * b < a
    ensures y <= a / b <==> y * b <= a
  {
    assert (a / b) * b == a;
  }

  /** Math.ceil of an exact quotient is the integer ceiling division. */
  lemma CeilOfQuotient(a: nat, b: nat)
    requires b > 0
    ensures Ceil(a as real / b as real) == CeilDiv(a, b)
  {
    var c := CeilDiv(a, b);
    var x := a as real / b as real;
    assert ((c - 1) * b) as real < a as real;
    assert (c - 1) as real * b as real < a as real;
    QuotientBounds(a as real, b as real, (c - 1) as real);
    QuotientBounds(a as real, b as real, c as real);
    assert a as real <= (c * b) as real;
    assert (c - 1) as real < x <= c as real;
  }

  /** The width factor is the larger exactly when 2881 * h >= 2305 * w. */
  lemma FactorOrder(w: nat, h: nat)
    requires w > 0 && h > 0
    ensures AxisScale(TargetWidth, w) >= AxisScale(TargetHeight, h)
        <==> (TargetWidth + 1) * h >= (TargetHeight + 1) * w
  {
    var sw := AxisScale(TargetWidth, w);
    var sh := AxisScale(TargetHeight, h);
    var p := (w * h) as real;
    assert sw * p == (2881 * h) as real by {
      assert sw * w as real == 2881.0;
    }
    assert sh * p == (2305 * w) as real by {
      assert sh * h as real == 2305.0;
    }
    assert sw >= sh <==> sw * p >= sh * p;
  }

  /** Scaling an axis by another axis's factor gives an exact quotient. */
  lemma ScaledByOther(original: nat, target: nat, other: nat)
    requires original > 0 && other > 0
    ensures other as real * AxisScale(target, original)
         == ((target + 1) * other) as real / original as real
  {
  }

  /**
   * When the width factor is the larger, the width lands exactly on
   * 2880 + 1 and the height is the scaled height rounded up.
   */
  lemma PlanWidthDriven(w: nat, h: nat)
    requires w > 0 && h > 0
    requires (TargetWidth + 1) * h >= (TargetHeight + 1) * w
    ensures Plan(w, h) == Dimensions(TargetWidth + 1, CeilDiv((TargetWidth + 1) * h, w))
  {
    FactorOrder(w, h);
    assert w as real * AxisScale(TargetWidth, w) == 2881.0;
    ScaledByOther(w, TargetWidth, h);
    CeilOfQuotient((TargetWidth + 1) * h, w);
  }

  /**
   * When the height factor is at least as large, the height lands exactly
   * on 2304 + 1 and the width is the scaled width rounded up. On a tie the
   * two factors are equal, so the plan is the same whichever one is taken.
   */
  lemma PlanHeightDriven(w: nat, h: nat)
    requires w > 0 && h > 0
    requires (TargetWidth + 1) * h <= (TargetHeight + 1) * w
    ensures Plan(w, h) == Dimensions(CeilDiv((TargetHeight + 1) * w, h), TargetHeight + 1)
  {
    var sw := AxisScale(TargetWidth, w);
    var sh := AxisScale(TargetHeight, h);
    FactorOrder(w, h);
    assert h as real * sh == 2305.0;
    ScaledByOther(h, TargetHeight, w);
    CeilOfQuotient((TargetHeight + 1) * w, h);
    if sw >= sh {
      // a tie: both factors are equal, so the width factor gives the same plan
      assert sw == sh;
    }
  }

  /**
   * The axis with the larger factor lands exactly on target + 1; the other
   * axis is the scaled length rounded up. When the factors tie (2881 * h ==
   * 2305 * w) both descriptions agree.
   */
  lemma PlanClosedForm(w: nat, h: nat)
    requires w > 0 && h > 0
    ensures (TargetWidth + 1) * h >= (TargetHeight + 1) * w ==>
      Plan(w, h) == Dimensions(TargetWidth + 1, CeilDiv((TargetWidth + 1) * h, w))
    ensures (TargetWidth + 1) * h <= (TargetHeight + 1) * w ==>
      Plan(w, h) == Dimensions(CeilDiv((TargetHeight + 1) * w, h), TargetHeight + 1)
  {
    if (TargetWidth + 1) * h >= (TargetHeight + 1) * w {
      PlanWidthDriven(w, h);
    }
    if (TargetWidth + 1) * h <= (TargetHeight + 1) * w {
      PlanHeightDriven(w, h);
    }
  }

  /** A 3840 by 2160 picture is driven by its height and planned at 4098 by 2305. */
  lemma PlanUltraHd()
    ensures Plan(3840, 2160) == Dimensions(4098, 2305)
  {
    PlanHeightDriven(3840, 2160);
  }
}
