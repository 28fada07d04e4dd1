/** The exposure control of scripts/expose.py. Python floats are reals; the light meter is the
parameter of `Execute`. */
module FlatExposure {
  const OPTIMAL_LEVEL: real := 3500.0
  const BIAS_LEVEL: real := 400.0
  const OPTIMAL_RANGE: real := 0.2

  function Abs(x: real): real {
    if x < 0.0 then -x else x
  }

  predicate Grid(times: seq<real>) {
    times != [] && times[0] > 0.0 && forall i, j | 0 <= i < j < |times| :: times[i] < times[j]
  }

  /** The loop over the grid, from index `k` on, with `last` before it. */
  function Search(times: seq<real>, t: real, k: nat, last: real): real
    requires k <= |times| && times != []
    decreases |times| - k
  {
    if k == |times| then times[|times| - 1]
    else if t < times[k] then if t - last > (times[k] - last) / 2.0 then times[k] else last
    else Search(times, t, k + 1, times[k])
  }

  /** The exposure time for a requested one. */
  function Choose(times: seq<real>, start: real, t: real): real
    requires times != []
  {
    if t < times[0] then start
    else if t > times[|times| - 1] then times[|times| - 1]
    else Search(times, t, 0, times[0])
  }

  /** No grid value is closer to `t` than `e`, and none below `e` is as close. */
  predicate Nearest(times: seq<real>, t: real, e: real) {
    && e in times
    && forall k | 0 <= k < |times| ::
         Abs(e - t) <= Abs(times[k] - t) && (times[k] < e ==> Abs(e - t) < Abs(times[k] - t))
  }

  lemma {:induction false} SearchIsNearest(times: seq<real>, t: real, k: nat)
    requires Grid(times) && times[0] <= t <= times[|times| - 1] && k <= |times|
    requires forall i | 0 <= i < k :: times[i] <= t
    ensures Nearest(times, t, Search(times, t, k, times[if k == 0 then 0 else k - 1]))
    decreases |times| - k
  {
    if k < |times| && t >= times[k] {
      SearchIsNearest(times, t, k + 1);
    }
  }

  /** With the grid's first value as start value, the nearest grid value is chosen. */
  lemma ChooseIsNearest(times: seq<real>, t: real)
    requires Grid(times)
    ensures Nearest(times, t, Choose(times, times[0], t))
  {
    if times[0] <= t <= times[|times| - 1] {
      SearchIsNearest(times, t, 0);
    }
  }

  datatype Brightness = Ok | Dim | Bright

  function Ratio(level: real): real {
    (level - BIAS_LEVEL) / OPTIMAL_LEVEL
  }

  /** The exposure after one flat that was `e` long and came out at `level`. */
  function NextExposure(times: seq<real>, start: real, e: real, level: real): real
    requires times != []
  {
    var ratio := Ratio(level);
    if ratio <= 0.0 then times[0]
    else if Abs(1.0 - ratio) <= OPTIMAL_RANGE then e
    else Choose(times, start, e / ratio)
  }

  class FlatScript {
    const expTimes: seq<real>
    const startExpTime: real
    var exptime: real

    ghost predicate Valid()
      reads this
    {
      Grid(expTimes) && startExpTime == expTimes[0]
    }

    /** The grid of the script is 2, 4, ..., 58 seconds. */
    constructor ()
      ensures Valid() && |expTimes| == 29 && forall k | 0 <= k < 29 :: expTimes[k] == 2.0 * (k + 1) as real
    {
      var times := seq(29, k => (k + 1) as real * 2.0);
      expTimes := times;
      startExpTime := times[0];
      exptime := times[0];
    }

    constructor WithGrid(times: seq<real>)
      requires Grid(times)
      ensures Valid() && expTimes == times
    {
      expTimes := times;
      startExpTime := times[0];
      exptime := times[0];
    }

    method OptimalExpTime(ratio: real) returns (e: real)
      requires Valid() && ratio > 0.0
      ensures e == Choose(expTimes, startExpTime, exptime / ratio)
      ensures Nearest(expTimes, exptime / ratio, e)
    {
      var t := exptime / ratio;
      ChooseIsNearest(expTimes, t);
      if t < expTimes[0] {
        return startExpTime;
      }
      if t > expTimes[|expTimes| - 1] {
        return expTimes[|expTimes| - 1];
      }
      var lastE := expTimes[0];
      for k := 0 to |expTimes|
        invariant Search(expTimes, t, k, lastE) == Choose(expTimes, startExpTime, t)
      {
        var v := expTimes[k];
        if t < v {
          if t - lastE > (v - lastE) / 2.0 {
            return v;
          }
          return lastE;
        }
        lastE := v;
      }
      e := expTimes[|expTimes| - 1];
    }

    /** Takes a flat; `level` is what is measured on it. */
    method Execute(level: real) returns (brightness: Brightness)
      requires Valid()
      modifies this`exptime
      ensures exptime == NextExposure(expTimes, startExpTime, old(exptime), level)
      ensures level <= 400.0 ==> exptime == expTimes[0]
      ensures 3200.0 <= level <= 4600.0 ==> exptime == old(exptime)
      ensures 400.0 < level < 3200.0 || 4600.0 < level ==>
                level - 400.0 > 0.0 && Nearest(expTimes, old(exptime) / ((level - 400.0) / 3500.0), exptime)
      ensures brightness == if level < 3200.0 then Dim else if level <= 4600.0 then Ok else Bright
    {
      var ratio := (level - BIAS_LEVEL) / OPTIMAL_LEVEL;
      if ratio <= 0.0 {
        exptime := expTimes[0];
        brightness := Dim;
      } else if Abs(1.0 - ratio) <= OPTIMAL_RANGE {
        brightness := Ok;
      } else {
        brightness := if ratio > 1.0 then Bright else Dim;
        exptime := OptimalExpTime(ratio);
      }
    }

    method Configure()
      modifies this`exptime
      ensures exptime == startExpTime
    {
      exptime := startExpTime;
    }

    /** Takes flats until the next target is another one. `levels` and `next` are what the measurements
        and the queries for the next target return. */
    method Run(target: int, levels: seq<real>, next: seq<int>) returns (taken: nat, ghost es: seq<real>)
      requires Valid() && |levels| == |next| && exists k :: 0 <= k < |next| && next[k] != target
      modifies this`exptime
      ensures 0 < taken <= |next| && next[taken - 1] != target && forall k | 0 <= k < taken - 1 :: next[k] == target
      ensures AreExposures(es, expTimes, startExpTime, levels[..taken]) && exptime == es[taken] && exptime in expTimes
    {
      Configure();
      var nextT := target;
      taken := 0;
      while target == nextT
        invariant taken <= |next| && forall k | 0 <= k < taken - 1 :: next[k] == target
        invariant nextT == if taken == 0 then target else next[taken - 1]
        invariant exptime == Exposures(expTimes, startExpTime, levels[..taken])
        decreases |next| - taken
      {
        assert levels[..taken + 1][..taken] == levels[..taken];
        var b := Execute(levels[taken]);
        nextT := next[taken];
        taken := taken + 1;
      }
      StaysOnGrid(expTimes, levels[..taken]);
      es := ExposuresAre(expTimes, startExpTime, levels[..taken]);
    }
  }

  /** What one flat does to the exposure: after one below the bias it is the first of the grid, after one within
      a fifth of the optimal level it stays, and otherwise it is the nearest to the one that would have brought
      the optimal level. */
  lemma ExposureFollows(times: seq<real>, e: real, level: real)
    requires Grid(times)
    ensures var next := NextExposure(times, times[0], e, level);
            && (level <= 400.0 ==> next == times[0])
            && (3200.0 <= level <= 4600.0 ==> next == e)
            && (400.0 < level < 3200.0 || 4600.0 < level ==>
                  level - 400.0 > 0.0 && Nearest(times, e / ((level - 400.0) / 3500.0), next))
  {
    if level > 400.0 {
      ChooseIsNearest(times, e / ((level - 400.0) / 3500.0));
    }
  }

  /** `es` are the exposures of flats with the given levels, the first one first. */
  ghost predicate AreExposures(es: seq<real>, times: seq<real>, start: real, levels: seq<real>)
    requires times != []
  {
    && |es| == |levels| + 1 && es[0] == start
    && forall k :: 0 <= k < |levels| ==> es[k + 1] == NextExposure(times, start, es[k], levels[k])
  }

  lemma {:induction false} ExposuresAre(times: seq<real>, start: real, levels: seq<real>) returns (es: seq<real>)
    requires times != []
    ensures AreExposures(es, times, start, levels) && es[|levels|] == Exposures(times, start, levels)
  {
    if levels == [] {
      es := [start];
    } else {
      var n := |levels| - 1;
      var before := ExposuresAre(times, start, levels[..n]);
      es := before + [Exposures(times, start, levels)];
    }
  }

  /** The exposure after flats with the given levels. */
  function Exposures(times: seq<real>, start: real, levels: seq<real>): real
    requires times != []
  {
    if levels == [] then start
    else NextExposure(times, start, Exposures(times, start, levels[..|levels| - 1]), levels[|levels| - 1])
  }

  lemma {:induction false} StaysOnGrid(times: seq<real>, levels: seq<real>)
    requires Grid(times)
    ensures Exposures(times, times[0], levels) in times
  {
    if levels != [] {
      var before := levels[..|levels| - 1];
      StaysOnGrid(times, before);
      var r := Ratio(levels[|levels| - 1]);
      if r > 0.0 {
        ChooseIsNearest(times, Exposures(times, times[0], before) / r);
      }
    }
  }

  /* ---- A constant sky ---- */

  /** The level of a flat of length `e` under a sky that adds `rate` per second. */
  function SkyLevel(rate: real, e: real): real {
    BIAS_LEVEL + rate * e
  }

  lemma RequestedTime(rate: real, e: real)
    requires rate > 0.0 && e > 0.0
    ensures Ratio(SkyLevel(rate, e)) > 0.0
    ensures e / Ratio(SkyLevel(rate, e)) == OPTIMAL_LEVEL / rate
  {
    var p := rate * e;
    assert p > 0.0;
    assert Ratio(SkyLevel(rate, e)) == p / OPTIMAL_LEVEL;
    assert e / (p / OPTIMAL_LEVEL) == (e * OPTIMAL_LEVEL) / p;
    assert (e * OPTIMAL_LEVEL) / p == OPTIMAL_LEVEL / rate;
  }

  /** The exposures of successive flats under a constant sky. */
  function UnderSky(times: seq<real>, rate: real, e: real, n: nat): real
    requires times != []
  {
    if n == 0 then e
    else
      var before := UnderSky(times, rate, e, n - 1);
      NextExposure(times, times[0], before, SkyLevel(rate, before))
  }

  /** The level under a constant sky is within the range that changes nothing. */
  predicate Settled(rate: real, e: real) {
    3200.0 <= 400.0 + rate * e <= 4600.0
  }

  lemma OnSky(times: seq<real>, rate: real, e: real)
    requires Grid(times) && rate > 0.0 && e in times
    ensures NextExposure(times, times[0], e, SkyLevel(rate, e))
         == if Settled(rate, e) then e else Choose(times, times[0], OPTIMAL_LEVEL / rate)
  {
    var k :| 0 <= k < |times| && times[k] == e;
    assert e > 0.0;
    RequestedTime(rate, e);
    InRangeIff(rate * e);
  }

  lemma InRangeIff(p: real)
    ensures Abs(1.0 - Ratio(BIAS_LEVEL + p)) <= OPTIMAL_RANGE <==> 3200.0 <= 400.0 + p <= 4600.0
  {
    assert Ratio(BIAS_LEVEL + p) == p / 3500.0;
  }

  /** Under a constant sky the first flat settles the exposure: it stays as it was if that flat was within the
      range, and is else the nearest to the optimal one; no later flat changes it. */
  lemma {:induction false} ConstantSkySettles(times: seq<real>, rate: real, e: real, n: nat)
    requires Grid(times) && rate > 0.0 && e in times && n >= 1
    ensures UnderSky(times, rate, e, n) == UnderSky(times, rate, e, 1)
    ensures Settled(rate, e) ==> UnderSky(times, rate, e, 1) == e
    ensures !Settled(rate, e) ==> Nearest(times, 3500.0 / rate, UnderSky(times, rate, e, 1))
  {
    var best := Choose(times, times[0], OPTIMAL_LEVEL / rate);
    ChooseIsNearest(times, OPTIMAL_LEVEL / rate);
    assert UnderSky(times, rate, e, 0) == e;
    var first := UnderSky(times, rate, e, 1);
    OnSky(times, rate, e);
    OnSky(times, rate, best);
    if n > 1 {
      ConstantSkySettles(times, rate, e, n - 1);
    }
  }
}
