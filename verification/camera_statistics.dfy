/** Image statistics of include/camd.h: sum, minimum, maximum and histogram of the pixels, updated
with every chunk of a frame, and the mode that lib/rts2/camd.cpp reads off the histogram.

Doubles are reals. Pixels are unsigned; `range` is the number of values of the pixel type, that is
1 shifted left by its size in bits. The histogram has 32-bit counters. */
module CameraStatistics {
  const COUNTER_RANGE: int := 0x1_0000_0000

  function Sum(px: seq<nat>): nat {
    if px == [] then 0 else Sum(px[..|px| - 1]) + px[|px| - 1]
  }

  function Occurrences(px: seq<nat>, v: nat): nat {
    if px == [] then 0 else Occurrences(px[..|px| - 1], v) + if px[|px| - 1] == v then 1 else 0
  }

  /** The smallest of `m` and the pixels. */
  function Lower(m: real, px: seq<nat>): real {
    if px == [] then m
    else
      var before, p := Lower(m, px[..|px| - 1]), px[|px| - 1] as real;
      if p < before then p else before
  }

  /** The greatest of `m` and the pixels. */
  function Upper(m: real, px: seq<nat>): real {
    if px == [] then m
    else
      var before, p := Upper(m, px[..|px| - 1]), px[|px| - 1] as real;
      if p > before then p else before
  }

  lemma {:induction false} ExtremesAreExtreme(m: real, px: seq<nat>)
    ensures var lo := Lower(m, px);
      && lo <= m && (forall i | 0 <= i < |px| :: lo <= px[i] as real)
      && (lo == m || exists i :: 0 <= i < |px| && lo == px[i] as real)
    ensures var hi := Upper(m, px);
      && hi >= m && (forall i | 0 <= i < |px| :: hi >= px[i] as real)
      && (hi == m || exists i :: 0 <= i < |px| && hi == px[i] as real)
  {
    if px != [] {
      var n := |px| - 1;
      var before := px[..n];
      ExtremesAreExtreme(m, before);
      assert px[n] as real >= Lower(m, px) && px[n] as real <= Upper(m, px);
      if Lower(m, px) == Lower(m, before) && Lower(m, before) != m {
        var i :| 0 <= i < n && Lower(m, before) == before[i] as real;
        assert px[i] == before[i];
      }
      if Upper(m, px) == Upper(m, before) && Upper(m, before) != m {
        var i :| 0 <= i < n && Upper(m, before) == before[i] as real;
        assert px[i] == before[i];
      }
    }
  }

  lemma {:induction false} Concat(a: seq<nat>, b: seq<nat>, m: real, v: nat)
    ensures Sum(a + b) == Sum(a) + Sum(b)
    ensures Occurrences(a + b, v) == Occurrences(a, v) + Occurrences(b, v)
    ensures Lower(m, a + b) == Lower(Lower(m, a), b)
    ensures Upper(m, a + b) == Upper(Upper(m, a), b)
  {
    if b == [] {
      assert a + b == a;
    } else {
      assert (a + b)[..|a + b| - 1] == a + b[..|b| - 1];
      Concat(a, b[..|b| - 1], m, v);
    }
  }

  lemma NoPixels(lo: real, hi: real)
    ensures Sum([]) == 0 && Lower(lo, []) == lo && Upper(hi, []) == hi
  {
  }

  lemma Snoc(px: seq<nat>, p: nat, lo: real, hi: real)
    ensures Sum(px + [p]) == Sum(px) + p
    ensures Lower(lo, px + [p]) == if p as real < Lower(lo, px) then p as real else Lower(lo, px)
    ensures Upper(hi, px + [p]) == if p as real > Upper(hi, px) then p as real else Upper(hi, px)
  {
    assert (px + [p])[..|px|] == px;
  }

  /** A 32-bit counter. */
  function Wrap(n: int): int {
    n % COUNTER_RANGE
  }

  lemma WrapSum(a: int, b: int)
    ensures Wrap(Wrap(a) + b) == Wrap(a + b)
  {
  }

  predicate Pixels(px: seq<nat>, range: nat) {
    forall i | 0 <= i < |px| :: px[i] < range
  }

  function Flatten(chunks: seq<seq<nat>>): seq<nat> {
    if chunks == [] then [] else Flatten(chunks[..|chunks| - 1]) + chunks[|chunks| - 1]
  }

  /** Histogram counters after more pixels, modulo the counter range. */
  ghost predicate Counts(after: seq<int>, before: seq<int>, px: seq<nat>) {
    && |after| == |before|
    && forall v | 0 <= v < |after| :: after[v] == Wrap(before[v] + Occurrences(px, v))
  }

  ghost predicate IsHistogram(h: seq<int>) {
    forall v | 0 <= v < |h| :: 0 <= h[v] < COUNTER_RANGE
  }

  /** The histogram that a pixel type starts from: a smaller one is thrown away. */
  function Sized(h: seq<int>, range: nat): seq<int> {
    if |h| < range then seq(range, _ => 0) else h
  }

  class Camera {
    var sum: real
    var min: real
    var max: real
    var modeCount: array<int>
    var imageMode: int

    constructor (min: real, max: real)
      ensures sum == 0.0 && this.min == min && this.max == max
      ensures fresh(modeCount) && modeCount[..] == []
    {
      sum := 0.0;
      this.min := min;
      this.max := max;
      modeCount := new int[0];
      imageMode := 0;
    }

    ghost function Histogram(): seq<int>
      reads this, modeCount
    {
      modeCount[..]
    }

    /** Called with every chunk that is read out; returns the number of pixels. */
    method UpdateStatistics(data: seq<nat>, range: nat) returns (pixNum: nat)
      requires Pixels(data, range) && IsHistogram(Histogram())
      modifies this`sum, this`min, this`max, this`modeCount, modeCount
      ensures pixNum == |data|
      ensures sum == old(sum) + Sum(data) as real
      ensures min == Lower(old(min), data) && max == Upper(old(max), data)
      ensures IsHistogram(Histogram()) && Counts(Histogram(), Sized(old(Histogram()), range), data)
      ensures |Histogram()| == if |old(Histogram())| < range then range else |old(Histogram())|
      ensures forall v | 0 <= v < |Histogram()| ::
                Histogram()[v] == ((if |old(Histogram())| < range then 0 else old(Histogram())[v])
                                   + Occurrences(data, v)) % 0x1_0000_0000
      ensures modeCount == old(modeCount) || fresh(modeCount)
    {
      if modeCount.Length < range {
        modeCount := new int[range](_ => 0);
      }
      assert Histogram() == Sized(old(Histogram()), range);
      var tSum, tMin, tMax;
      pixNum, tSum, tMin, tMax := Pass(data);
      CountsAre(Histogram(), old(Histogram()), range, data);
      hide IsHistogram, Counts, Sized;
      ExtremesAreExtreme(min, data);
      ExtremesAreExtreme(max, data);
      sum := sum + tSum;
      if tMin < min {
        min := tMin;
      }
      if tMax > max {
        max := tMax;
      }
    }

    /** One pass over the pixels. */
    method Pass(data: seq<nat>) returns (pixNum: nat, tSum: real, tMin: real, tMax: real)
      requires Pixels(data, modeCount.Length) && IsHistogram(Histogram())
      modifies modeCount
      ensures pixNum == |data| && tSum == Sum(data) as real && tMin == Lower(min, data) && tMax == Upper(max, data)
      ensures IsHistogram(Histogram()) && Counts(Histogram(), old(Histogram()), data)
    {
      tSum, tMin, tMax, pixNum := 0.0, min, max, 0;
      ghost var start, seen := Histogram(), [];
      assert Counts(start, start, seen);
      hide Counts, IsHistogram, Sum, Lower, Upper;
      while pixNum < |data|
        invariant pixNum <= |data| && seen == data[..pixNum]
        invariant tSum == Sum(seen) as real
        invariant tMin == Lower(min, seen) && tMax == Upper(max, seen)
        invariant IsHistogram(Histogram()) && Counts(Histogram(), start, seen)
      {
        var tD := data[pixNum];
        Snoc(seen, tD, min, max);
        tSum := tSum + tD as real;
        if tD as real < tMin {
          tMin := tD as real;
        }
        if tD as real > tMax {
          tMax := tD as real;
        }
        OneMore(modeCount[..], start, seen, tD);
        modeCount[tD] := Wrap(modeCount[tD] + 1);
        seen := seen + [tD];
        pixNum := pixNum + 1;
      }
      assert seen == data;
    }

    /** A frame in any split into chunks: the statistics are those of the whole frame. */
    method ReadOut(chunks: seq<seq<nat>>, range: nat) returns (pixels: nat)
      requires Pixels(Flatten(chunks), range) && IsHistogram(Histogram())
      modifies this`sum, this`min, this`max, this`modeCount, modeCount
      ensures var frame := Flatten(chunks);
        && pixels == |frame|
        && sum == old(sum) + Sum(frame) as real
        && min == Lower(old(min), frame) && max == Upper(old(max), frame)
        && IsHistogram(Histogram())
        && (chunks != [] ==> Counts(Histogram(), Sized(old(Histogram()), range), frame))
      ensures chunks != [] ==>
                && |Histogram()| == (if |old(Histogram())| < range then range else |old(Histogram())|)
                && forall v | 0 <= v < |Histogram()| ::
                     Histogram()[v] == ((if |old(Histogram())| < range then 0 else old(Histogram())[v])
                                        + Occurrences(Flatten(chunks), v)) % 0x1_0000_0000
    {
      hide Sum, Lower, Upper, Occurrences;
      pixels := 0;
      ghost var start, frame := Sized(Histogram(), range), [];
      NoPixels(min, max);
      for i := 0 to |chunks|
        invariant modeCount == old(modeCount) || fresh(modeCount)
        invariant frame == Flatten(chunks[..i]) && pixels == |frame|
        invariant sum == old(sum) + Sum(frame) as real
        invariant min == Lower(old(min), frame) && max == Upper(old(max), frame)
        invariant IsHistogram(Histogram())
        invariant if i == 0 then Histogram() == old(Histogram()) else Counts(Histogram(), start, frame)
      {
        assert chunks[..i + 1][..i] == chunks[..i];
        FlattenPart(chunks, i, range);
        Concat(frame, chunks[i], old(min), 0);
        Concat(frame, chunks[i], old(max), 0);
        ghost var before := Sized(Histogram(), range);
        var n := UpdateStatistics(chunks[i], range);
        if i == 0 {
          assert frame + chunks[0] == chunks[0];
        } else {
          TwoParts(Histogram(), before, start, frame, chunks[i]);
        }
        pixels := pixels + n;
        frame := frame + chunks[i];
      }
      assert chunks[..|chunks|] == chunks;
      if chunks != [] {
        CountsAre(Histogram(), old(Histogram()), range, Flatten(chunks));
      }
    }

    /** The mode is looked for in the whole histogram, from the lowest value up, with a 32-bit index. */
    method FindMode()
      requires IsHistogram(modeCount[..]) && modeCount.Length < INDEX_RANGE
      modifies this`imageMode
      ensures (exists v :: 0 <= v < modeCount.Length && modeCount[v] > 0) ==>
                && 0 <= imageMode < modeCount.Length
                && (forall v | 0 <= v < modeCount.Length :: modeCount[v] <= modeCount[imageMode])
                && (forall v | 0 <= v < imageMode :: modeCount[v] < modeCount[imageMode])
      ensures (forall v | 0 <= v < modeCount.Length :: modeCount[v] == 0) ==> imageMode == old(imageMode)
    {
      var modeNum := 0;
      var i := 0;
      while i < modeCount.Length
        invariant 0 <= i <= modeCount.Length && i == Index(i)
        invariant modeNum >= 0 && forall v | 0 <= v < i :: modeCount[v] <= modeNum
        invariant modeNum == 0 ==> imageMode == old(imageMode)
        invariant modeNum > 0 ==>
                    && 0 <= imageMode < i && modeCount[imageMode] == modeNum
                    && forall v | 0 <= v < imageMode :: modeCount[v] < modeNum
      {
        if modeCount[i] > modeNum {
          imageMode := i;
          modeNum := modeCount[i];
        }
        i := Index(i + 1);
      }
    }
  }

  const INDEX_RANGE: int := 0x1_0000_0000

  /** The index of the search for the mode after that many steps. */
  function Index(steps: nat): nat {
    steps % INDEX_RANGE
  }

  /** That search ends exactly when the histogram has fewer entries than the index has values. For 32-bit
      pixels it has as many, and the index never gets to the end. */
  lemma SearchEndsIff(size: nat)
    ensures (exists steps: nat :: Index(steps) >= size) <==> size < 0x1_0000_0000
  {
    if size < INDEX_RANGE {
      assert Index(size) >= size;
    }
  }

  /** A histogram that is too short is counted from zero, another one goes on. */
  lemma CountsAre(h: seq<int>, before: seq<int>, range: nat, px: seq<nat>)
    requires Counts(h, Sized(before, range), px)
    ensures |h| == if |before| < range then range else |before|
    ensures forall v | 0 <= v < |h| ::
              h[v] == ((if |before| < range then 0 else before[v]) + Occurrences(px, v)) % 0x1_0000_0000
  {
  }

  lemma OneMore(h: seq<int>, start: seq<int>, px: seq<nat>, p: nat)
    requires IsHistogram(h) && Counts(h, start, px) && p < |h|
    ensures IsHistogram(h[p := Wrap(h[p] + 1)]) && Counts(h[p := Wrap(h[p] + 1)], start, px + [p])
  {
    assert (px + [p])[..|px|] == px;
    WrapSum(start[p] + Occurrences(px, p), 1);
  }

  lemma TwoParts(h: seq<int>, mid: seq<int>, start: seq<int>, a: seq<nat>, b: seq<nat>)
    requires Counts(mid, start, a) && Counts(h, mid, b)
    ensures Counts(h, start, a + b)
  {
    forall v | 0 <= v < |h| ensures h[v] == Wrap(start[v] + Occurrences(a + b, v)) {
      Concat(a, b, 0.0, v);
      WrapSum(start[v] + Occurrences(a, v), Occurrences(b, v));
    }
  }

  lemma {:induction false} FlattenPart(chunks: seq<seq<nat>>, i: nat, range: nat)
    requires i < |chunks| && Pixels(Flatten(chunks), range)
    ensures Pixels(chunks[i], range)
    decreases |chunks|
  {
    var front, last := chunks[..|chunks| - 1], chunks[|chunks| - 1];
    var flat, k := Flatten(chunks), |Flatten(front)|;
    assert forall j | 0 <= j < k :: flat[j] == Flatten(front)[j];
    assert forall j | 0 <= j < |last| :: flat[k + j] == last[j];
    if i < |chunks| - 1 {
      FlattenPart(front, i, range);
    }
  }

  /* ---- The histogram and the sum are two accounts of the same pixels ---- */

  function Total(h: seq<int>): int {
    if h == [] then 0 else Total(h[..|h| - 1]) + h[|h| - 1]
  }

  function Weighted(h: seq<int>): int {
    if h == [] then 0 else Weighted(h[..|h| - 1]) + (|h| - 1) * h[|h| - 1]
  }

  lemma {:induction false} AddOne(h: seq<int>, p: nat)
    requires p < |h|
    ensures Total(h[p := h[p] + 1]) == Total(h) + 1
    ensures Weighted(h[p := h[p] + 1]) == Weighted(h) + p
  {
    var g := h[p := h[p] + 1];
    if p == |h| - 1 {
      assert g[..p] == h[..p];
      assert p * (h[p] + 1) == p * h[p] + p;
    } else {
      assert g[..|h| - 1] == h[..|h| - 1][p := h[p] + 1];
      AddOne(h[..|h| - 1], p);
    }
  }

  lemma {:induction false} Zeros(h: seq<int>)
    requires forall v | 0 <= v < |h| :: h[v] == 0
    ensures Total(h) == 0 && Weighted(h) == 0
  {
    if h != [] {
      Zeros(h[..|h| - 1]);
    }
  }

  lemma {:induction false} CountsTotal(h: seq<int>, px: seq<nat>)
    requires Pixels(px, |h|) && forall v | 0 <= v < |h| :: h[v] == Occurrences(px, v)
    ensures Total(h) == |px| && Weighted(h) == Sum(px)
    decreases |px|
  {
    if px == [] {
      Zeros(h);
    } else {
      var p := px[|px| - 1];
      var g := h[p := h[p] - 1];
      CountsTotal(g, px[..|px| - 1]);
      AddOne(g, p);
      assert g[p := g[p] + 1] == h;
    }
  }

  lemma {:induction false} OccurrencesBound(px: seq<nat>, v: nat)
    ensures Occurrences(px, v) <= |px|
  {
    if px != [] {
      OccurrencesBound(px[..|px| - 1], v);
    }
  }

  /** From a zeroed histogram and with fewer pixels than a counter holds, the counters add up to the
      number of pixels, and each value times its counter adds up to the sum. */
  lemma HistogramAgreesWithSum(h: seq<int>, zero: seq<int>, px: seq<nat>)
    requires Counts(h, zero, px) && (forall v | 0 <= v < |zero| :: zero[v] == 0)
    requires Pixels(px, |h|) && |px| < COUNTER_RANGE
    ensures Total(h) == |px| && Weighted(h) == Sum(px)
  {
    forall v | 0 <= v < |h| ensures h[v] == Occurrences(px, v) {
      OccurrencesBound(px, v);
    }
    CountsTotal(h, px);
  }
}
