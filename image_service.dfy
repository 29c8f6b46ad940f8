/**
 * resizeImage as a whole: plan the canvas, get a drawing context, search
 * for the best JPEG quality within the byte ceiling, and resolve with the
 * record of the resized picture. Also the 16:9 guard the page applies
 * before it asks for a resize.
 */
module ImageService {
  import opened Types
  import DimensionPlanner
  import QualitySearch

  /**
   * The page's aspect guard: the picture is accepted when its width over its
   * height is within 1/100 of 16/9 (exact rationals here). The guard only
   * rejects when the distance is provably over 1/100, so a zero height lets
   * 0 by 0 through (0/0 is NaN, and every comparison with NaN is false) and
   * stops any wider picture (w/0 is Infinity).
   */
  predicate AspectAccepted(w: nat, h: nat) {
    if h == 0 then w == 0
    else
      var ratio := w as real / h as real;
      -1.0 / 100.0 <= ratio - 16.0 / 9.0 <= 1.0 / 100.0
  }

  /**
   * The guard in integers: 16/9 - 1/100 = 1591/900 and 16/9 + 1/100 =
   * 1609/900. The same inequalities also describe the zero-height case.
   */
  lemma AspectAcceptedInIntegers(w: nat, h: nat)
    ensures AspectAccepted(w, h) <==> 1591 * h <= 900 * w <= 1609 * h
  {
    if h == 0 {
      return;
    }
    var ratio := w as real / h as real;
    assert ratio * h as real == w as real;
    DimensionPlanner.QuotientBounds(w as real, h as real, 1591.0 / 900.0);
    assert 1591.0 / 900.0 <= ratio <==> 1591.0 * h as real <= 900.0 * w as real;
    assert ratio <= 1609.0 / 900.0 <==> 900.0 * w as real <= 1609.0 * h as real by {
      DimensionPlanner.QuotientBounds(w as real, h as real, 1609.0 / 900.0);
    }
  }

  /**
   * Every accepted picture is driven by its height: the canvas is 2305
   * pixels high and between 4075 and 4121 pixels wide.
   */
  lemma AcceptedPlan(w: nat, h: nat)
    requires w > 0 && h > 0 && AspectAccepted(w, h)
    ensures DimensionPlanner.Plan(w, h).height == DimensionPlanner.TargetHeight + 1
    ensures 4075 <= DimensionPlanner.Plan(w, h).width <= 4121
  {
    AspectAcceptedInIntegers(w, h);
    DimensionPlanner.PlanHeightDriven(w, h);
    var c := DimensionPlanner.CeilDiv(2305 * w, h);
    assert 1591 * 2305 * h <= 900 * 2305 * w <= 1609 * 2305 * h;
    assert 900 * (c - 1) * h < 900 * 2305 * w <= 900 * c * h;
    assert 900 * 4074 < 1591 * 2305 < 900 * 4075;
    assert 900 * 4120 < 1609 * 2305 < 900 * 4121;
    assert 4074 * h < c * h && (c - 1) * h < 4121 * h;
    ProductOrder(4074, c, h);
    ProductOrder(c - 1, 4121, h);
  }

  /** Dividing both sides of a strict inequality by the same positive factor. */
  lemma ProductOrder(a: int, b: int, h: nat)
    requires h > 0 && a * h < b * h
    ensures a < b
  {
    assert (b - a) * h > 0;
  }

  /**
   * resizeImage on a decoded picture of w by h pixels. `contextAvailable`
   * says whether the canvas handed out a 2d context, and `encode` is the
   * canvas's JPEG encoder after the picture was drawn at the planned size.
   * `probes` records the qualities the encoder was asked for.
   *
   * A picture with a zero side has no plan: its factors divide by zero and
   * the canvas is given NaN or Infinity for a side, which leaves it with no
   * pixels. The encoder delivers no blob for such a canvas, so the first
   * call, at quality 1, rejects the resize.
   */
  method ResizeImage(name: string, w: nat, h: nat, contextAvailable: bool, encode: QualitySearch.Encoder)
    returns (r: Result<ImageFile, Error>, ghost probes: seq<nat>)
    ensures !contextAvailable ==> r == Failure(ContextUnavailable) && probes == []
    ensures contextAvailable && (w == 0 || h == 0) ==>
      r == Failure(EncodeFailed) && probes == [QualitySearch.Scale]
    ensures contextAvailable && w > 0 && h > 0 ==>
      probes == QualitySearch.SearchProbes(encode) && |probes| <= 12
    ensures r.Success? <==> contextAvailable && w > 0 && h > 0 && QualitySearch.Search(encode).Success?
    ensures contextAvailable && w > 0 && h > 0 && r.Failure? ==> r.error == QualitySearch.Search(encode).error
    ensures r.Success? ==>
      w > 0 && h > 0 &&
      r.value.name == name &&
      r.value.width as int == DimensionPlanner.Plan(w, h).width &&
      r.value.height as int == DimensionPlanner.Plan(w, h).height &&
      r.value.size == QualitySearch.Search(encode).value.size
    ensures r.Success? ==>
      r.value.size <= QualitySearch.MaxBytes &&
      r.value.width > DimensionPlanner.TargetWidth && r.value.height > DimensionPlanner.TargetHeight
  {
    if !contextAvailable {
      return Failure(ContextUnavailable), [];
    }
    if w == 0 || h == 0 {
      // the canvas has no pixels, so the encoder's callback gets no blob
      return Failure(EncodeFailed), [QualitySearch.Scale];
    }
    var planned := DimensionPlanner.Plan(w, h);
    var found;
    found, probes := QualitySearch.SearchQuality(encode);
    if found.Failure? {
      return Failure(found.error), probes;
    }
    r := Success(ImageFile(name, planned.width as nat, planned.height as nat, found.value.size));
  }
}
