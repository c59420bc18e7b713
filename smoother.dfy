/**
 * The per-track box smoother of src/smoother.py: an exponential moving
 * average over the four coordinates of each track's box, kept per track id
 * for the current video. Coordinates are exact reals, not IEEE doubles.
 */
module Smoothing {
  import opened Wrappers
  import opened Boxes

  /** `alpha * obs + (1 - alpha) * prev` on one coordinate. */
  function Ema(alpha: real, obs: real, prev: real): real {
    alpha * obs + (1.0 - alpha) * prev
  }

  function EmaBox(alpha: real, obs: RealBox, prev: RealBox): RealBox {
    RealBox(Ema(alpha, obs.x1, prev.x1), Ema(alpha, obs.y1, prev.y1),
            Ema(alpha, obs.x2, prev.x2), Ema(alpha, obs.y2, prev.y2))
  }

  /**
   * The value `update(track_id, box)` stores for `id`: the observation itself
   * for an unseen id, the moving average with the stored value otherwise.
   */
  function Smoothed(alpha: real, tracks: map<int, RealBox>, id: int, box: IntBox): RealBox {
    if id in tracks then EmaBox(alpha, ToReal(box), tracks[id]) else ToReal(box)
  }

  predicate Between(a: real, b: real, x: real) {
    (a <= x <= b) || (b <= x <= a)
  }

  predicate BoxBetween(prev: RealBox, obs: RealBox, s: RealBox) {
    && Between(prev.x1, obs.x1, s.x1) && Between(prev.y1, obs.y1, s.y1)
    && Between(prev.x2, obs.x2, s.x2) && Between(prev.y2, obs.y2, s.y2)
  }

  /** With `alpha` in [0, 1] the average lies between the old value and the observation. */
  lemma EmaBetween(alpha: real, obs: real, prev: real)
    requires 0.0 <= alpha <= 1.0
    ensures Between(prev, obs, Ema(alpha, obs, prev))
  {
    var d := obs - prev;
    assert Ema(alpha, obs, prev) == prev + alpha * d;
    if d >= 0.0 {
      ScaleWithinUnit(alpha, d);
    } else {
      ScaleWithinUnit(alpha, -d);
    }
  }

  lemma ScaleWithinUnit(alpha: real, d: real)
    requires 0.0 <= alpha <= 1.0 && 0.0 <= d
    ensures 0.0 <= alpha * d <= d
  {
    assert d - alpha * d == (1.0 - alpha) * d;
  }

  /**
   * The first observation of an id is stored and returned unchanged; a later
   * one stores a value between the stored box and the observation.
   */
  lemma SmoothedBounds(alpha: real, tracks: map<int, RealBox>, id: int, box: IntBox)
    requires 0.0 <= alpha <= 1.0
    ensures id !in tracks ==> Smoothed(alpha, tracks, id, box) == ToReal(box)
    ensures id !in tracks ==> TruncBox(Smoothed(alpha, tracks, id, box)) == box
    ensures id in tracks ==> BoxBetween(tracks[id], ToReal(box), Smoothed(alpha, tracks, id, box))
  {
    TruncToReal(box);
    if id in tracks {
      var p, o := tracks[id], ToReal(box);
      EmaBetween(alpha, o.x1, p.x1);
      EmaBetween(alpha, o.y1, p.y1);
      EmaBetween(alpha, o.x2, p.x2);
      EmaBetween(alpha, o.y2, p.y2);
    }
  }

  /** With `alpha = 1` the smoother follows the observation exactly. */
  lemma AlphaOneFollowsObservation(tracks: map<int, RealBox>, id: int, box: IntBox)
    ensures Smoothed(1.0, tracks, id, box) == ToReal(box)
    ensures TruncBox(Smoothed(1.0, tracks, id, box)) == box
  {
    TruncToReal(box);
  }

  /** `n` updates with the same observation, starting from `prev`. */
  function Repeat(alpha: real, obs: real, prev: real, n: nat): real
    decreases n
  {
    if n == 0 then prev else Ema(alpha, obs, Repeat(alpha, obs, prev, n - 1))
  }

  function Power(x: real, n: nat): real
    decreases n
  {
    if n == 0 then 1.0 else x * Power(x, n - 1)
  }

  /**
   * Fed a constant observation, the stored value approaches it geometrically:
   * its distance shrinks by the factor `1 - alpha` at every update.
   */
  lemma {:induction false} RepeatDistance(alpha: real, obs: real, prev: real, n: nat)
    ensures Repeat(alpha, obs, prev, n) - obs == Power(1.0 - alpha, n) * (prev - obs)
    decreases n
  {
    if n > 0 {
      var q, d := 1.0 - alpha, prev - obs;
      var r := Repeat(alpha, obs, prev, n - 1);
      var p := Power(q, n - 1);
      RepeatDistance(alpha, obs, prev, n - 1);
      EmaDistance(alpha, obs, r);
      ScaleProduct(q, r - obs, p, d);
    }
  }

  /** One update scales the distance to the observation by `1 - alpha`. */
  lemma EmaDistance(alpha: real, obs: real, prev: real)
    ensures Ema(alpha, obs, prev) - obs == (1.0 - alpha) * (prev - obs)
  {
  }

  lemma MulAssoc(a: real, b: real, c: real)
    ensures a * (b * c) == (a * b) * c
  {
  }

  /** Scaling a product `b * c` by `a` is scaling `c` by `a * b`. */
  lemma ScaleProduct(a: real, e: real, b: real, c: real)
    requires e == b * c
    ensures a * e == (a * b) * c
  {
    MulAssoc(a, b, c);
  }

  /**
   * For `alpha` in [0, 1] the approach is monotone: each update with the same
   * observation leaves the stored value between the previous one and the
   * observation.
   */
  lemma RepeatMonotone(alpha: real, obs: real, prev: real, n: nat)
    requires 0.0 <= alpha <= 1.0
    ensures Between(Repeat(alpha, obs, prev, n), obs, Repeat(alpha, obs, prev, n + 1))
  {
    EmaBetween(alpha, obs, Repeat(alpha, obs, prev, n));
  }

  /** The stored state keeps the untruncated average, so it differs from the returned integers. */
  lemma StoredValueIsNotTruncated()
    ensures var s := Smoothed(0.2, map[7 := ToReal(IntBox(10, 10, 20, 20))], 7, IntBox(11, 11, 21, 21));
            s.x1 == 10.2 && TruncBox(s).x1 == 10
  {
  }

  /** The smoother object: the factor `alpha` and the `track_id -> box` map `tracks`. */
  class BoxSmoother {
    const alpha: real
    var tracks: map<int, RealBox>

    /** `BoxSmoother(alpha=None)`: `alpha` falls back to SMOOTHING_ALPHA. */
    constructor (alpha: Option<real>, smoothingAlpha: real)
      ensures this.alpha == alpha.GetOr(smoothingAlpha)
      ensures alpha.Some? ==> this.alpha == alpha.value
      ensures alpha.None? ==> this.alpha == smoothingAlpha
      ensures tracks == map[]
    {
      this.alpha := alpha.GetOr(smoothingAlpha);
      tracks := map[];
    }

    /**
     * `update(track_id, box)`: store the new smoothed value for this id only
     * and return it truncated toward zero.
     */
    method Update(id: int, box: IntBox) returns (r: IntBox)
      modifies this
      ensures tracks == old(tracks)[id := Smoothed(alpha, old(tracks), id, box)]
      ensures r == TruncBox(tracks[id])
      ensures id !in old(tracks) ==> r == box
    {
      var current := ToReal(box);
      var smoothed: RealBox;
      if id !in tracks {
        tracks := tracks[id := current];
        smoothed := current;
      } else {
        var prev := tracks[id];
        smoothed := EmaBox(alpha, current, prev);
        tracks := tracks[id := smoothed];
      }
      r := TruncBox(smoothed);
      TruncToReal(box);
    }

    /** `reset()`: forget every track, so the next update of any id is a first observation. */
    method Reset()
      modifies this
      ensures tracks == map[]
      ensures forall id, box :: Smoothed(alpha, tracks, id, box) == ToReal(box)
    {
      tracks := map[];
    }
  }
}
