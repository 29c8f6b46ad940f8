/**
 * The quality search of resizeImage: encode at full quality, and if that
 * is over the byte ceiling bisect the JPEG quality ten times, keeping the
 * last candidate that fits; if none fitted, make one last attempt at
 * quality 0.5.
 *
 * Every quality the search can ask for is a multiple of 1/1024 (ten
 * halvings of [0, 1]), so a quality is written here as its numerator q,
 * standing for q / 1024, and all arithmetic is exact.
 *
 * The browser's encoder (canvas.toBlob behind getBlobFromCanvas) is an
 * oracle: a function from a quality numerator to the byte size of the blob
 * it produces, or None when the callback delivers no blob.
 */
module QualitySearch {
  import opened Types

  /** Denominator of every quality: q stands for q / Scale. */
  const Scale: nat := 1024
  /** Quality 0.5, the first bisection midpoint and the fallback quality. */
  const HalfQuality: nat := 512
  /** The byte ceiling in MiB, as the rejection message reports it. */
  const MaxMiB: nat := 5
  /** The byte ceiling, 5 MiB = 5 * 1024 * 1024 bytes. */
  const MaxBytes: nat := 5_242_880
  /** Number of bisection steps. */
  const Iterations: nat := 10

  /** Encoding of one fixed canvas, by quality numerator: the blob's size, or None. */
  type Encoder = nat -> Option<nat>

  /** A blob the search may keep: the quality it was encoded at and its size. */
  datatype Candidate = Candidate(quality: nat, size: nat)

  /** The bisection's variables: the interval [low, high] and the best blob so far. */
  datatype Bisection = Bisection(low: nat, high: nat, best: Option<Candidate>)

  /** The interval before the first bisection step, with no blob kept. */
  const Start: Bisection := Bisection(0, Scale, None)

  function Pow2(n: nat): (p: nat)
    ensures p >= 1
  {
    if n == 0 then 1 else 2 * Pow2(n - 1)
  }

  predicate Fits(size: nat) { size <= MaxBytes }

  /** The encoder delivers a blob at q and that blob is over the ceiling. */
  predicate Over(encode: Encoder, q: nat) {
    encode(q).Some? && !Fits(encode(q).value)
  }

  /** The encoder delivers a blob at q and that blob is within the ceiling. */
  predicate FitsAt(encode: Encoder, q: nat) {
    encode(q).Some? && Fits(encode(q).value)
  }

  function Mid(b: Bisection): nat { (b.low + b.high) / 2 }

  /** One bisection step, given the size of the blob encoded at the midpoint. */
  function Narrow(b: Bisection, size: nat): Bisection {
    if Fits(size) then Bisection(Mid(b), b.high, Some(Candidate(Mid(b), size)))
    else Bisection(b.low, Mid(b), b.best)
  }

  /**
   * The bisection variables after i rounds of the loop, or the rejection
   * that ended the search: a missing blob rejects at once.
   */
  function Rounds(encode: Encoder, i: nat): Result<Bisection, Error> {
    if i == 0 then Success(Start)
    else match Rounds(encode, i - 1)
      case Failure(e) => Failure(e)
      case Success(b) =>
        match encode(Mid(b))
        case None => Failure(EncodeFailed)
        case Some(size) => Success(Narrow(b, size))
  }

  /**
   * The qualities asked for, in order, once quality 1 was over and i rounds
   * have run: quality 1, then the midpoint of every round that was reached.
   */
  function Probed(encode: Encoder, i: nat): seq<nat> {
    if i == 0 then [Scale]
    else match Rounds(encode, i - 1)
      case Failure(_) => Probed(encode, i - 1)
      case Success(b) => Probed(encode, i - 1) + [Mid(b)]
  }

  /** The fallback attempt at quality 0.5. */
  function Fallback(encode: Encoder): Result<Candidate, Error> {
    match encode(HalfQuality)
    case None => Failure(EncodeFailed)
    case Some(size) =>
      if Fits(size) then Success(Candidate(HalfQuality, size))
      else Failure(CompressionFailed(MaxMiB))
  }

  /** The outcome of the whole search. */
  function Search(encode: Encoder): Result<Candidate, Error> {
    match encode(Scale)
    case None => Failure(EncodeFailed)
    case Some(size) =>
      if Fits(size) then Success(Candidate(Scale, size))
      else match Rounds(encode, Iterations)
        case Failure(e) => Failure(e)
        case Success(b) => if b.best.Some? then Success(b.best.value) else Fallback(encode)
  }

  /** Every quality the whole search asks the encoder for, in order. */
  function SearchProbes(encode: Encoder): seq<nat> {
    if Over(encode, Scale) then Probed(encode, Iterations) + FallbackProbes(encode) else [Scale]
  }

  /** The fallback probe, asked for only when the bisection kept no blob. */
  function FallbackProbes(encode: Encoder): seq<nat> {
    match Rounds(encode, Iterations)
    case Success(b) => if b.best.None? then [HalfQuality] else []
    case Failure(_) => []
  }

  // ---------------------------------------------------------------------
  // The bisection on its own
  // ---------------------------------------------------------------------

  /**
   * What holds of the bisection variables after i of the ten rounds, once
   * quality 1 was over the ceiling: the interval is a sub-interval of
   * [0, 1] of width 2^-i, high is a quality whose blob was over, and low is
   * 0 with nothing kept, or a quality whose blob fitted and is kept.
   */
  ghost predicate Invariant(encode: Encoder, b: Bisection, i: nat) {
    i <= Iterations &&
    b.low < b.high <= Scale &&
    b.high - b.low == Pow2(Iterations - i) &&
    Over(encode, b.high) &&
    match b.best
    case None => b.low == 0
    case Some(c) => 0 < b.low && c.quality == b.low && encode(b.low) == Some(c.size) && Fits(c.size)
  }

  lemma StartInvariant(encode: Encoder)
    requires Over(encode, Scale)
    ensures Invariant(encode, Start, 0)
  {
    assert Pow2(10) == 1024 by {
      assert Pow2(5) == 32;
    }
  }

  /** Before the last round the interval is at least 2/1024 wide, so the midpoint is exact and strictly inside. */
  lemma MidInside(encode: Encoder, b: Bisection, i: nat)
    requires Invariant(encode, b, i) && i < Iterations
    ensures b.low < Mid(b) < b.high
    ensures Mid(b) * 2 == b.low + b.high
  {
    assert Pow2(Iterations - i) == 2 * Pow2(Iterations - (i + 1));
  }

  /** One round keeps the invariant. */
  lemma NarrowKeepsInvariant(encode: Encoder, b: Bisection, i: nat)
    requires Invariant(encode, b, i) && i < Iterations
    requires encode(Mid(b)).Some?
    ensures Invariant(encode, Narrow(b, encode(Mid(b)).value), i + 1)
  {
    MidInside(encode, b, i);
    assert Pow2(Iterations - i) == 2 * Pow2(Iterations - (i + 1));
  }

  /** Every state the rounds reach keeps the invariant. */
  lemma {:induction false} RoundsKeepInvariant(encode: Encoder, i: nat)
    requires Over(encode, Scale) && i <= Iterations
    ensures Rounds(encode, i).Success? ==> Invariant(encode, Rounds(encode, i).value, i)
  {
    if i == 0 {
      StartInvariant(encode);
    } else {
      RoundsKeepInvariant(encode, i - 1);
      var r := Rounds(encode, i - 1);
      if r.Success? && encode(Mid(r.value)).Some? {
        NarrowKeepsInvariant(encode, r.value, i - 1);
      }
    }
  }

  /**
   * The shape of the probe sequence: quality 1 first, then one probe per
   * round, all answered, while the rounds go on; otherwise the probes stop
   * at the first quality the encoder gives no blob for, and the search
   * rejects with EncodeFailed.
   */
  lemma {:induction false} ProbedShape(encode: Encoder, i: nat)
    ensures var r, p := Rounds(encode, i), Probed(encode, i);
      1 <= |p| && p[0] == Scale &&
      (r.Success? ==> |p| == i + 1 && forall j :: 1 <= j < |p| ==> encode(p[j]).Some?) &&
      (r.Failure? ==> r.error == EncodeFailed && 2 <= |p| <= i + 1 && encode(p[|p| - 1]).None? &&
                      forall j :: 1 <= j < |p| - 1 ==> encode(p[j]).Some?)
  {
    if i > 0 {
      ProbedShape(encode, i - 1);
    }
  }

  /** After a rejection, later rounds change neither the outcome nor the probes. */
  lemma {:induction false} FailureStops(encode: Encoder, i: nat, j: nat)
    requires i <= j && Rounds(encode, i).Failure?
    ensures Rounds(encode, j) == Rounds(encode, i) && Probed(encode, j) == Probed(encode, i)
    decreases j
  {
    if i < j {
      FailureStops(encode, i, j - 1);
    }
  }

  /** Quality 0.5 is the first bisection probe. */
  lemma {:induction false} FirstProbeIsHalf(encode: Encoder, i: nat)
    requires i >= 1
    ensures |Probed(encode, i)| >= 2 && Probed(encode, i)[1] == HalfQuality
  {
    if i > 1 {
      FirstProbeIsHalf(encode, i - 1);
    }
  }

  /**
   * Once quality 1 was over, every bisection probe lies strictly inside
   * (0, 1), the fitting probes are at most the current low, the kept blob
   * is one of the probes, and with nothing kept no probe fitted.
   */
  lemma {:induction false} RoundsKeepHighestFit(encode: Encoder, i: nat)
    requires Over(encode, Scale) && i <= Iterations
    ensures var p := Probed(encode, i);
      forall j :: 1 <= j < |p| ==> 0 < p[j] < Scale
    ensures Rounds(encode, i).Success? ==>
      var b, p := Rounds(encode, i).value, Probed(encode, i);
      (forall q :: q in p && FitsAt(encode, q) ==> q <= b.low) &&
      (b.best.Some? ==> b.best.value.quality in p) &&
      (b.best.None? ==> forall q :: q in p ==> Over(encode, q))
  {
    if i > 0 {
      RoundsKeepHighestFit(encode, i - 1);
      var r := Rounds(encode, i - 1);
      if r.Success? {
        var b := r.value;
        RoundsKeepInvariant(encode, i - 1);
        MidInside(encode, b, i - 1);
        var p := Probed(encode, i);
        assert p == Probed(encode, i - 1) + [Mid(b)];
      }
    }
  }

  /**
   * What the ten rounds establish once quality 1 was over, when no blob
   * went missing: the final interval [low, low + 1/1024] keeps the
   * invariant, the fitting probes are at most low, the kept blob is one of
   * the probes, and with nothing kept no probe fitted.
   */
  lemma BisectionOutcome(encode: Encoder)
    requires Over(encode, Scale) && Rounds(encode, Iterations).Success?
    ensures var b, p := Rounds(encode, Iterations).value, Probed(encode, Iterations);
      Invariant(encode, b, Iterations) && b.high == b.low + 1 &&
      (forall q :: q in p && FitsAt(encode, q) ==> q <= b.low) &&
      (b.best.Some? ==> b.best.value.quality in p) &&
      (b.best.None? ==> forall q :: q in p ==> Over(encode, q))
  {
    RoundsKeepInvariant(encode, Iterations);
    RoundsKeepHighestFit(encode, Iterations);
  }

  // ---------------------------------------------------------------------
  // The whole search
  // ---------------------------------------------------------------------

  /**
   * A resolved search keeps a blob the encoder really produced at one of
   * the probed qualities, that quality is in (0, 1], and the blob is within
   * the ceiling.
   */
  lemma SearchWithinBudget(encode: Encoder)
    requires Search(encode).Success?
    ensures var c := Search(encode).value;
      Fits(c.size) && encode(c.quality) == Some(c.size) &&
      0 < c.quality <= Scale && c.quality in SearchProbes(encode)
  {
    if Over(encode, Scale) {
      var b := Rounds(encode, Iterations).value;
      BisectionOutcome(encode);
      if b.best.None? {
        assert SearchProbes(encode) == Probed(encode, Iterations) + [HalfQuality];
      }
    }
  }

  /** If the blob at quality 1 fits, it is the result and no other quality is asked for. */
  lemma SearchShortCircuit(encode: Encoder)
    requires FitsAt(encode, Scale)
    ensures Search(encode) == Success(Candidate(Scale, encode(Scale).value))
    ensures SearchProbes(encode) == [Scale]
  {
  }

  /**
   * The first bisection probe is quality 0.5, the fallback quality, so with
   * a deterministic encoder the fallback is only reached when 0.5 is
   * already known to be over, and it then always rejects.
   */
  lemma FallbackAlwaysRejects(encode: Encoder)
    requires Over(encode, Scale)
    requires Rounds(encode, Iterations).Success? && Rounds(encode, Iterations).value.best.None?
    ensures Search(encode) == Failure(CompressionFailed(MaxMiB))
  {
    assert Search(encode) == Fallback(encode);
    HalfWasOver(encode);
  }

  /** Quality 0.5 was the first bisection probe, and with nothing kept it was over. */
  lemma HalfWasOver(encode: Encoder)
    requires Over(encode, Scale)
    requires Rounds(encode, Iterations).Success? && Rounds(encode, Iterations).value.best.None?
    ensures Over(encode, HalfQuality)
  {
    var p := Probed(encode, Iterations);
    BisectionOutcome(encode);
    FirstProbeIsHalf(encode, Iterations);
    assert HalfQuality in p;
  }

  /**
   * The calls to the encoder: quality 1 first, quality 0.5 second when
   * quality 1 is over, and never more than twelve.
   */
  lemma SearchCallCount(encode: Encoder)
    ensures var p := SearchProbes(encode);
      1 <= |p| <= 12 && p[0] == Scale &&
      (Over(encode, Scale) ==> |p| >= 2 && p[1] == HalfQuality)
  {
    ProbedShape(encode, Iterations);
    if Over(encode, Scale) {
      FirstProbeIsHalf(encode, Iterations);
    }
  }

  /**
   * Once quality 1 is over: exactly eleven calls when the bisection keeps a
   * blob, and exactly twelve when the search rejects because even the
   * fallback is over the ceiling.
   */
  lemma SearchCallCountExact(encode: Encoder)
    requires Over(encode, Scale)
    ensures Search(encode).Success? ==> |SearchProbes(encode)| == 11
    ensures Search(encode).Failure? && Search(encode).error.CompressionFailed? ==>
      |SearchProbes(encode)| == 12
  {
    ProbedShape(encode, Iterations);
    var r := Rounds(encode, Iterations);
    if r.Success? && r.value.best.None? {
      FallbackAlwaysRejects(encode);
    }
  }

  /** The search rejects only for a missing blob or for a fallback blob over the ceiling. */
  lemma SearchErrorKinds(encode: Encoder)
    ensures Search(encode).Failure? ==>
      Search(encode).error == EncodeFailed || Search(encode).error == CompressionFailed(MaxMiB)
  {
    ProbedShape(encode, Iterations);
  }

  /**
   * A missing blob rejects the whole search at once: the search fails with
   * EncodeFailed exactly when the last quality asked for gave no blob, and
   * every earlier call gave one.
   */
  lemma SearchAbortsOnMissingBlob(encode: Encoder)
    ensures var p := SearchProbes(encode);
      (Search(encode) == Failure(EncodeFailed) <==> encode(p[|p| - 1]).None?) &&
      forall j :: 0 <= j < |p| - 1 ==> encode(p[j]).Some?
  {
    ProbedShape(encode, Iterations);
    var p := SearchProbes(encode);
    if Over(encode, Scale) {
      var bp := Probed(encode, Iterations);
      assert p == bp + FallbackProbes(encode);
      forall j | 0 <= j < |p| - 1
        ensures encode(p[j]).Some?
      {
        if j < |bp| {
          assert p[j] == bp[j];
        }
      }
    }
  }

  /** Larger quality never gives a smaller blob (on the qualities in [0, 1]). */
  ghost predicate Monotone(encode: Encoder) {
    forall q1: nat, q2: nat :: q1 <= q2 <= Scale && encode(q1).Some? && encode(q2).Some? ==>
      encode(q1).value <= encode(q2).value
  }

  /**
   * With an encoder whose size grows with quality, the search finds the
   * best quality to within 1/1024: no quality above the kept one fits, and
   * a rejection means no quality of at least 1/1024 fits.
   */
  lemma SearchOptimalWhenMonotone(encode: Encoder)
    requires Monotone(encode)
    ensures Search(encode).Success? ==>
      forall q :: Search(encode).value.quality < q <= Scale ==> !FitsAt(encode, q)
    ensures Search(encode).Failure? && Search(encode).error.CompressionFailed? ==>
      forall q :: 1 <= q <= Scale ==> !FitsAt(encode, q)
  {
    if Over(encode, Scale) && Rounds(encode, Iterations).Success? {
      BisectionOutcome(encode);
      var b := Rounds(encode, Iterations).value;
      forall q | b.high <= q <= Scale
        ensures !FitsAt(encode, q)
      {
        assert Over(encode, b.high);
      }
      if b.best.None? {
        FallbackAlwaysRejects(encode);
      }
    }
  }

  /** Integer division by a positive constant keeps the order of its dividends. */
  lemma ScaledSizeMonotone(q1: nat, q2: nat)
    requires q1 <= q2
    ensures q1 * 10_000_000 / Scale <= q2 * 10_000_000 / Scale
  {
    assert q1 * 10_000_000 <= q2 * 10_000_000;
  }

  /**
   * An encoder whose blob is quality * 10,000,000 bytes: the largest quality
   * within 5 MiB is 536/1024 (5,234,375 bytes; 537/1024 gives 5,244,140),
   * and that is the one the search keeps.
   */
  lemma SearchLinearEncoder(encode: Encoder)
    requires forall q: nat :: encode(q) == Some(q * 10_000_000 / Scale)
    ensures Search(encode) == Success(Candidate(536, 5_234_375))
  {
    assert Monotone(encode) by {
      forall q1: nat, q2: nat | q1 <= q2 {
        ScaledSizeMonotone(q1, q2);
      }
    }
    assert encode(536) == Some(5_234_375) && FitsAt(encode, 536);
    assert encode(537) == Some(5_244_140) && Over(encode, 537);
    SearchOptimalWhenMonotone(encode);
    SearchAbortsOnMissingBlob(encode);
    var p := SearchProbes(encode);
    assert encode(p[|p| - 1]).Some?;
    SearchErrorKinds(encode);
    assert Search(encode).Success?;
    SearchWithinBudget(encode);
    var c := Search(encode).value;
    assert c.quality >= 536;
    assert c.quality <= 536;
    assert c.size == 5_234_375;
  }

  // ---------------------------------------------------------------------
  // The search as the service runs it
  // ---------------------------------------------------------------------

  /** One round, from the state i rounds reach. */
  lemma RoundsStep(encode: Encoder, i: nat, b: Bisection)
    requires Rounds(encode, i) == Success(b)
    ensures Probed(encode, i + 1) == Probed(encode, i) + [Mid(b)]
    ensures encode(Mid(b)).None? ==> Rounds(encode, i + 1) == Failure(EncodeFailed)
    ensures encode(Mid(b)).Some? ==> Rounds(encode, i + 1) == Success(Narrow(b, encode(Mid(b)).value))
  {
  }

  /** The search's outcome and calls once the ten rounds have ended in state b. */
  lemma SearchAfterRounds(encode: Encoder, b: Bisection)
    requires Over(encode, Scale) && Rounds(encode, Iterations) == Success(b)
    ensures b.best.Some? ==>
      Search(encode) == Success(b.best.value) && SearchProbes(encode) == Probed(encode, Iterations)
    ensures b.best.None? ==>
      Search(encode) == Fallback(encode) && SearchProbes(encode) == Probed(encode, Iterations) + [HalfQuality]
  {
  }

  /**
   * The ten bisection rounds of resizeImage, step by step: `low`, `high`
   * and `best` are updated in place, each encoder call answered before the
   * next is made. `probes` records the qualities asked for, starting with
   * the call at full quality the caller has already made.
   */
  method Bisect(encode: Encoder) returns (outcome: Result<Bisection, Error>, ghost probes: seq<nat>)
    requires Over(encode, Scale)
    ensures outcome == Rounds(encode, Iterations) && probes == Probed(encode, Iterations)
    ensures outcome.Success? ==> Invariant(encode, outcome.value, Iterations)
  {
    probes := [Scale];
    var low, high := 0, Scale;
    var best: Option<Candidate> := None;
    StartInvariant(encode);
    for i := 0 to Iterations
      invariant Invariant(encode, Bisection(low, high, best), i)
      invariant Rounds(encode, i) == Success(Bisection(low, high, best))
      invariant probes == Probed(encode, i)
    {
      ghost var before := Bisection(low, high, best);
      var mid := (low + high) / 2;
      assert mid == Mid(before) && low < mid < high by {
        MidInside(encode, before, i);
      }
      var blob := encode(mid);
      probes := probes + [mid];
      if blob.None? {
        assert Rounds(encode, Iterations) == Failure(EncodeFailed) && Probed(encode, Iterations) == probes by {
          RoundsStep(encode, i, before);
          FailureStops(encode, i + 1, Iterations);
        }
        return Failure(EncodeFailed), probes;
      }
      if Fits(blob.value) {
        best := Some(Candidate(mid, blob.value));
        low := mid;
      } else {
        high := mid;
      }
      assert Rounds(encode, i + 1) == Success(Bisection(low, high, best)) && Probed(encode, i + 1) == probes by {
        RoundsStep(encode, i, before);
      }
      assert Invariant(encode, Bisection(low, high, best), i + 1) by {
        NarrowKeepsInvariant(encode, before, i);
      }
    }
    outcome := Success(Bisection(low, high, best));
  }

  /**
   * The quality search of resizeImage: full quality first, then the
   * bisection rounds, then the fallback at 0.5. The outcome and the calls
   * are those of Search and SearchProbes, so the lemmas above apply to it.
   */
  method SearchQuality(encode: Encoder) returns (r: Result<Candidate, Error>, ghost probes: seq<nat>)
    ensures r == Search(encode) && probes == SearchProbes(encode)
    ensures r.Success? ==> Fits(r.value.size) && encode(r.value.quality) == Some(r.value.size)
    ensures 1 <= |probes| <= 12
    ensures r == Failure(EncodeFailed) <==> encode(probes[|probes| - 1]).None?
  {
    SearchCallCount(encode);
    SearchAbortsOnMissingBlob(encode);
    if Search(encode).Success? {
      SearchWithinBudget(encode);
    }
    var initial := encode(Scale);
    if initial.None? {
      return Failure(EncodeFailed), [Scale];
    }
    if Fits(initial.value) {
      return Success(Candidate(Scale, initial.value)), [Scale];
    }
    var outcome;
    outcome, probes := Bisect(encode);
    if outcome.Failure? {
      return Failure(outcome.error), probes;
    }
    SearchAfterRounds(encode, outcome.value);
    var best := outcome.value.best;
    if best.None? {
      // as a fallback, one more attempt at quality 0.5
      var blob := encode(HalfQuality);
      probes := probes + [HalfQuality];
      if blob.None? {
        return Failure(EncodeFailed), probes;
      }
      if !Fits(blob.value) {
        return Failure(CompressionFailed(MaxMiB)), probes;
      }
      best := Some(Candidate(HalfQuality, blob.value));
    }
    r := Success(best.value);
  }
}
