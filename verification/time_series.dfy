/** The trend of `ValueDoubleTimeserie::calculate` in lib/rts2/valuestat.cpp. A sample is a measured
value and its time; None stands for the NaN of a division of zero by zero. */
module TimeSeries {
  import opened Options
  import opened SampleWindows
  import opened ValueStatistics

  datatype Sample = Sample(value: real, time: real)

  function Measured(): Sample -> real {
    (s: Sample) => s.value
  }

  function MeasuredSquare(): Sample -> real {
    (s: Sample) => Squared(s.value)
  }

  function Taken(): Sample -> real {
    (s: Sample) => s.time
  }

  /** Times are counted from `m`. */
  function Since(m: real): Sample -> real {
    (s: Sample) => s.time - m
  }

  function SinceSquare(m: real): Sample -> real {
    (s: Sample) => Squared(s.time - m)
  }

  function Cross(m: real): Sample -> real {
    (s: Sample) => Product(s.time - m, s.value)
  }

  /** The square of what the line with height `a` at time `m` and slope `b` misses the sample by. */
  function Miss(m: real, a: real, b: real): Sample -> real {
    (s: Sample) => Squared(s.value - (a + Product(b, s.time - m)))
  }

  /* ---- The squares as a polynomial in the line ---- */

  datatype Sums = Sums(n: real, x: real, xx: real, y: real, yy: real, xy: real)

  function SumsOf(s: seq<Sample>, m: real): Sums {
    Sums(|s| as real, Total(s, Since(m)), Total(s, SinceSquare(m)), Total(s, Measured()), Total(s, MeasuredSquare()),
         Total(s, Cross(m)))
  }

  function LinePoly(t: Sums, a: real, b: real): real {
    t.yy - 2.0 * a * t.y - 2.0 * b * t.xy + a * a * t.n + 2.0 * a * b * t.x + b * b * t.xx
  }

  function Add(t: Sums, x: real, y: real): Sums {
    Sums(t.n + 1.0, x + t.x, Squared(x) + t.xx, y + t.y, Squared(y) + t.yy, Product(x, y) + t.xy)
  }

  lemma SquareOfMiss(x: real, y: real, a: real, b: real)
    ensures Squared(y - (a + Product(b, x)))
         == y * y - 2.0 * a * y - 2.0 * b * (x * y) + a * a + 2.0 * a * b * x + b * b * (x * x)
  {
    var w := b * x;
    assert w * w == b * b * (x * x) && y * w == b * (x * y) && a * w == a * b * x;
    assert Squared(y - (a + w)) == y * y - 2.0 * (y * a) - 2.0 * (y * w) + a * a + 2.0 * (a * w) + w * w;
  }

  lemma LinePolyStep(t: Sums, x: real, y: real, a: real, b: real)
    ensures LinePoly(Add(t, x, y), a, b) == Squared(y - (a + Product(b, x))) + LinePoly(t, a, b)
  {
    SquareOfMiss(x, y, a, b);
  }

  lemma {:induction false} MissIsPoly(s: seq<Sample>, m: real, a: real, b: real)
    ensures Total(s, Miss(m, a, b)) == LinePoly(SumsOf(s, m), a, b)
  {
    if s != [] {
      MissIsPoly(s[1..], m, a, b);
      assert SumsOf(s, m) == Add(SumsOf(s[1..], m), s[0].time - m, s[0].value) by {
        hide Squared, Product;
        assert |s| as real == |s[1..]| as real + 1.0;
      }
      hide LinePoly, Squared, Product;
      LinePolyStep(SumsOf(s[1..], m), s[0].time - m, s[0].value, a, b);
    }
  }

  /* ---- Least squares ---- */

  function MeanOf(s: seq<Sample>, f: Sample -> real): real
    requires s != []
  {
    Total(s, f) / |s| as real
  }

  lemma {:induction false} SinceIsShifted(s: seq<Sample>, m: real)
    ensures Total(s, Since(m)) == Total(s, Taken()) - Product(|s| as real, m)
  {
    if s != [] {
      SinceIsShifted(s[1..], m);
      assert Product(|s[1..]| as real + 1.0, m) == Product(|s[1..]| as real, m) + m;
    }
  }

  lemma SinceMeanIsZero(s: seq<Sample>)
    requires s != []
    ensures Total(s, Since(MeanOf(s, Taken()))) == 0.0
  {
    SinceIsShifted(s, MeanOf(s, Taken()));
    Quotient(Total(s, Taken()), |s| as real, MeanOf(s, Taken()));
  }

  lemma {:induction false} SinceSquareIsZeroIff(s: seq<Sample>, m: real)
    ensures Total(s, SinceSquare(m)) >= 0.0
    ensures Total(s, SinceSquare(m)) == 0.0 <==> forall i :: 0 <= i < |s| ==> s[i].time == m
  {
    if s != [] {
      SinceSquareIsZeroIff(s[1..], m);
      SquareIsPositive(s[0].time - m);
      hide Squared;
      assert (forall i :: 0 <= i < |s| ==> s[i].time == m)
             <==> s[0].time == m && forall i :: 0 <= i < |s[1..]| ==> s[1..][i].time == m by {
        assert s == [s[0]] + s[1..];
      }
    }
  }

  /** What a line loses against the one with height `a` and slope `b` that solve the normal equations. */
  lemma LossOfLine(t: Sums, a: real, b: real, c: real, d: real)
    requires t.x == 0.0 && t.y == t.n * a && t.xy == t.xx * b
    ensures LinePoly(t, c, d) == LinePoly(t, a, b) + Product(t.n, Squared(c - a)) + Product(t.xx, Squared(d - b))
  {
    Complete(t.n, t.y, c, a);
    Complete(t.xx, t.xy, d, b);
  }

  lemma Complete(n: real, y: real, c: real, a: real)
    requires y == n * a
    ensures c * c * n - 2.0 * c * y == a * a * n - 2.0 * a * y + Product(n, Squared(c - a))
  {
    assert 2.0 * c * y == n * (2.0 * c * a) && 2.0 * a * y == n * (2.0 * a * a);
    assert Product(n, Squared(c - a)) == n * (c * c) - n * (2.0 * c * a) + n * (a * a);
  }

  /** The slope of the trend; with all times equal it is not a number. */
  function Slope(s: seq<Sample>): Option<real>
    requires s != []
  {
    var m := MeanOf(s, Taken());
    if Total(s, SinceSquare(m)) == 0.0 then None else Some(Total(s, Cross(m)) / Total(s, SinceSquare(m)))
  }

  lemma ProductIsPositive(x: real, y: real)
    requires x >= 0.0 && y >= 0.0
    ensures Product(x, y) >= 0.0
    ensures x > 0.0 ==> (Product(x, y) == 0.0 <==> y == 0.0)
  {
    if x > 0.0 && y > 0.0 {
      Positive(x, y);
    }
  }

  lemma BestOfSums(t: Sums, a: real, b: real, c: real, d: real)
    requires t.x == 0.0 && t.y == t.n * a && t.xy == t.xx * b && t.n > 0.0 && t.xx > 0.0
    ensures LinePoly(t, c, d) >= LinePoly(t, a, b)
    ensures LinePoly(t, c, d) == LinePoly(t, a, b) <==> c == a && d == b
  {
    hide *;
    LossOfLine(t, a, b, c, d);
    SquareIsPositive(c - a);
    SquareIsPositive(d - b);
    ProductIsPositive(t.n, Squared(c - a));
    ProductIsPositive(t.xx, Squared(d - b));
  }

  lemma NormalEquations(s: seq<Sample>)
    requires s != [] && Slope(s).Some?
    ensures var t := SumsOf(s, MeanOf(s, Taken()));
            && t.n > 0.0 && t.xx > 0.0 && t.x == 0.0
            && t.y == t.n * MeanOf(s, Measured()) && t.xy == t.xx * Slope(s).value
  {
    hide Total, Squared, Product;
    var m := MeanOf(s, Taken());
    var t := SumsOf(s, m);
    SinceMeanIsZero(s);
    SinceSquareIsZeroIff(s, m);
    Quotient(t.y, t.n, MeanOf(s, Measured()));
    Quotient(t.xy, t.xx, Slope(s).value);
  }

  /** Of all lines the one through the mean point with that slope misses the samples least, and no other
  line misses them as little. */
  lemma LeastSquares(s: seq<Sample>, c: real, d: real)
    requires s != [] && Slope(s).Some?
    ensures var m, best := MeanOf(s, Taken()), Miss(MeanOf(s, Taken()), MeanOf(s, Measured()), Slope(s).value);
            && Total(s, Miss(m, c, d)) >= Total(s, best)
            && (Total(s, Miss(m, c, d)) == Total(s, best) <==> c == MeanOf(s, Measured()) && d == Slope(s).value)
  {
    hide *;
    var m, a, b := MeanOf(s, Taken()), MeanOf(s, Measured()), Slope(s).value;
    MissIsPoly(s, m, a, b);
    MissIsPoly(s, m, c, d);
    NormalEquations(s);
    BestOfSums(SumsOf(s, m), a, b, c, d);
  }

  /** A slope is missing exactly when all samples were taken at one time. */
  lemma NoSlopeIff(s: seq<Sample>)
    requires s != []
    ensures Slope(s).None? <==> forall i :: 0 <= i < |s| ==> s[i].time == s[0].time
  {
    var m := MeanOf(s, Taken());
    SinceSquareIsZeroIff(s, m);
    if forall i :: 0 <= i < |s| ==> s[i].time == s[0].time {
      SinceSquareIsZeroIff(s, s[0].time);
      hide Total, Squared, Product;
      SameTimes(s, s[0].time);
    }
  }

  lemma {:induction false} TotalOfSameTimes(s: seq<Sample>, time: real)
    requires forall i :: 0 <= i < |s| ==> s[i].time == time
    ensures Total(s, Since(time)) == 0.0
  {
    if s != [] {
      TotalOfSameTimes(s[1..], time);
    }
  }

  lemma SameTimes(s: seq<Sample>, time: real)
    requires s != [] && forall i :: 0 <= i < |s| ==> s[i].time == time
    ensures MeanOf(s, Taken()) == time
  {
    TotalOfSameTimes(s, time);
    hide Total;
    SinceIsShifted(s, time);
    assert Total(s, Taken()) == |s| as real * time;
  }

  /* ---- The program ---- */

  /** The height the program reports: it subtracts the slope times the sum of the products, where the
  height at the mean time is the mean alone. */
  function Reported(sum: real, b: real, sxy: real, n: real): real
    requires n > 0.0
  {
    (sum - b * sxy) / n
  }

  function Height(s: seq<Sample>): Option<real>
    requires s != []
  {
    match Slope(s)
    case None => None
    case Some(b) => Some(Reported(Total(s, Measured()), b, Total(s, Cross(MeanOf(s, Taken()))), |s| as real))
  }

  lemma HeightIsMeanIff(s: seq<Sample>)
    requires s != [] && Slope(s).Some?
    ensures Height(s).value == MeanOf(s, Measured()) <==> Slope(s).value == 0.0
  {
    hide Reported, Total;
    var b, t := Slope(s).value, SumsOf(s, MeanOf(s, Taken()));
    NormalEquations(s);
    CrossTerm(b, t.xx, t.xy);
    Divided(t.y, b, t.xy, t.n);
  }

  /** Read as the height at the mean time, what is reported makes a line that misses the samples as little as
  any line does exactly when it is level. */
  lemma HeightIsBestIff(s: seq<Sample>)
    requires s != [] && Slope(s).Some?
    ensures var m, b := MeanOf(s, Taken()), Slope(s).value;
            (forall c, d :: Total(s, Miss(m, Height(s).value, b)) <= Total(s, Miss(m, c, d))) <==> b == 0.0
  {
    var m, b, best, reported := MeanOf(s, Taken()), Slope(s).value, MeanOf(s, Measured()), Height(s).value;
    hide *;
    HeightIsMeanIff(s);
    LeastSquares(s, reported, b);
    forall c, d
      ensures Total(s, Miss(m, best, b)) <= Total(s, Miss(m, c, d))
    {
      LeastSquares(s, c, d);
    }
  }

  /** A line is the same line with its height taken at another time. */
  lemma {:induction false} MissMoves(s: seq<Sample>, r: real, m: real, c: real, d: real)
    ensures Total(s, Miss(r, c, d)) == Total(s, Miss(m, c + Product(d, m - r), d))
  {
    if s != [] {
      MissMoves(s[1..], r, m, c, d);
      SameHeight(s[0].time, r, m, c, d);
      hide Product, Squared;
    }
  }

  lemma SameHeight(time: real, r: real, m: real, c: real, d: real)
    ensures c + Product(d, time - r) == (c + Product(d, m - r)) + Product(d, time - m)
  {
    assert d * (time - r) == d * (m - r) + d * (time - m);
  }

  /** Moving the height by the slope undoes what the program subtracts exactly for one distance. */
  lemma ReportedMoves(y: real, b: real, xy: real, n: real, way: real)
    requires n > 0.0
    ensures Reported(y, b, xy, n) + Product(b, way) == y / n <==> b == 0.0 || way == xy / n
  {
    var q := xy / n;
    assert xy == n * q;
    assert b * xy == n * (b * q);
    assert (y - n * (b * q)) / n == y / n - b * q;
    assert Product(b, way) - b * q == b * (way - q);
    NoProduct(b, way - q);
  }

  lemma NoProduct(x: real, y: real)
    ensures x * y == 0.0 <==> x == 0.0 || y == 0.0
  {
  }

  /** Read as the height at any time `r`, it makes the best line exactly when that is level, or `r` is before
  the mean time by what the program takes for it: the mean of the products. So for the time zero. */
  lemma HeightAtIsBestIff(s: seq<Sample>, r: real)
    requires s != [] && Slope(s).Some?
    ensures var m, b := MeanOf(s, Taken()), Slope(s).value;
            (forall c, d :: Total(s, Miss(r, Height(s).value, b)) <= Total(s, Miss(r, c, d)))
            <==> b == 0.0 || m - r == MeanOf(s, Cross(m))
  {
    var m, b, best, reported := MeanOf(s, Taken()), Slope(s).value, MeanOf(s, Measured()), Height(s).value;
    ReportedMoves(Total(s, Measured()), b, Total(s, Cross(m)), |s| as real, m - r);
    assert reported == Reported(Total(s, Measured()), b, Total(s, Cross(m)), |s| as real);
    assert MeanOf(s, Cross(m)) == Total(s, Cross(m)) / |s| as real;
    var moved := reported + Product(b, m - r);
    assert moved == best <==> b == 0.0 || m - r == MeanOf(s, Cross(m));
    hide *;
    LeastSquares(s, moved, b);
    MissMoves(s, r, m, reported, b);
    var there := best + Product(b, r - m);
    MissMoves(s, m, r, best, b);
    forall c, d
      ensures Total(s, Miss(m, best, b)) <= Total(s, Miss(r, c, d))
    {
      MissMoves(s, r, m, c, d);
      LeastSquares(s, c + Product(d, m - r), d);
    }
  }

  lemma CrossTerm(b: real, xx: real, xy: real)
    requires xx > 0.0 && xy == xx * b
    ensures b * xy == 0.0 <==> b == 0.0
  {
    assert b * xy == Product(xx, Squared(b));
    hide *;
    SquareIsPositive(b);
    ProductIsPositive(xx, Squared(b));
  }

  lemma Divided(y: real, b: real, xy: real, n: real)
    requires n > 0.0
    ensures Reported(y, b, xy, n) == y / n <==> b * xy == 0.0
  {
    var z := b * xy;
    assert (y - z) / n == y / n - z / n;
    assert z / n == 0.0 ==> z == n * 0.0;
  }

  function Values(s: seq<Sample>): (v: seq<real>)
    ensures |v| == |s| && forall i :: 0 <= i < |v| ==> v[i] == s[i].value
  {
    seq(|s|, i requires 0 <= i < |s| => s[i].value)
  }

  lemma EndsOfValues(sorted: seq<Sample>, list: seq<Sample>)
    requires list != [] && multiset(sorted) == multiset(list) && |sorted| == |list| && Sorted(Values(sorted))
    ensures IsLeast(Values(list), sorted[0].value) && IsGreatest(Values(list), sorted[|sorted| - 1].value)
  {
    assert sorted[0] in multiset(list) && sorted[|sorted| - 1] in multiset(list);
    var a :| 0 <= a < |list| && list[a] == sorted[0];
    var b :| 0 <= b < |list| && list[b] == sorted[|sorted| - 1];
    assert Values(list)[a] == sorted[0].value && Values(list)[b] == sorted[|sorted| - 1].value;
    forall i | 0 <= i < |list|
      ensures sorted[0].value <= Values(list)[i] <= sorted[|sorted| - 1].value
    {
      assert list[i] in multiset(sorted);
      var k :| 0 <= k < |sorted| && sorted[k] == list[i];
      assert Values(sorted)[k] == list[i].value;
    }
  }

  function ValueDeviation(c: real): Sample -> real {
    (s: Sample) => Squared(s.value - c)
  }

  lemma {:induction false} TotalOfValues(s: seq<Sample>, c: real)
    ensures Total(Values(s), Itself()) == Total(s, Measured())
    ensures Total(Values(s), Deviation(c)) == Total(s, ValueDeviation(c))
  {
    if s != [] {
      TotalOfValues(s[1..], c);
      assert Values(s)[1..] == Values(s[1..]);
      hide Values, Squared;
    }
  }

  /** Mean and variance are those of the values without their times. */
  lemma FiguresOfValues(s: seq<Sample>)
    requires s != []
    ensures Values(s) != [] && MeanOf(s, Measured()) == Mean(Values(s))
    ensures MeanOf(s, ValueDeviation(Mean(Values(s)))) == Spread(Values(s), Mean(Values(s)))
  {
    TotalOfValues(s, Mean(Values(s)));
    hide Total;
  }

  class ValueDoubleTimeserie {
    var list: seq<Sample>
    var numMes: nat
    var value: Option<real>
    var mode: Option<real>
    var min: Option<real>
    var max: Option<real>
    var variance: Option<real>
    var alpha: Option<real>
    var beta: Option<real>

    constructor ()
      ensures list == [] && numMes == 0
      ensures value == mode == min == max == variance == alpha == beta == None
    {
      list, numMes := [], 0;
      value, mode, min, max, variance, alpha, beta := None, None, None, None, None, None, None;
    }

    /** With a limit of zero `pop_front` would be called on an empty list. */
    method AddValueBounded(inVal: real, inTime: real, maxQueSize: nat)
      requires maxQueSize > 0
      modifies this`list
      ensures list == Push(old(list), Sample(inVal, inTime), maxQueSize)
      ensures var all := old(list) + [Sample(inVal, inTime)];
              |list| == (if maxQueSize < |all| then maxQueSize else |all|) && list == all[|all| - |list|..]
    {
      ghost var dropped := 0;
      while |list| >= maxQueSize
        invariant 0 <= dropped <= |old(list)| && list == old(list)[dropped..]
        invariant dropped > 0 ==> |list| >= maxQueSize - 1
        decreases |list|
      {
        list := list[1..];
        dropped := dropped + 1;
      }
      list := list + [Sample(inVal, inTime)];
    }

    /** `sorted` is what `std::sort` makes of a copy of the list. */
    method Calculate(sorted: seq<Sample>)
      requires multiset(sorted) == multiset(list) && |sorted| == |list| && Sorted(Values(sorted))
      modifies this
      ensures list == old(list)
      ensures list != [] ==>
                && numMes == |list| && value == Some(MeanOf(list, Measured()))
                && variance == Some(MeanOf(list, ValueDeviation(value.value)))
                && beta == Slope(list) && alpha == Height(list)
                && mode == Some(Median(Values(sorted))) && InTheMiddle(Values(sorted), mode.value)
                && value == Some(Mean(Values(list))) && variance == Some(Spread(Values(list), Mean(Values(list))))
                && min.Some? && max.Some?
                && IsLeast(Values(list), min.value) && IsGreatest(Values(list), max.value)
      ensures list == [] ==> unchanged(this)
    {
      if |list| == 0 {
        return;
      }
      hide Total, Reported, Median, Values, IsLeast, IsGreatest, Sorted, InTheMiddle, Mean, Spread;
      FiguresOfValues(list);
      var low, high, middle := OrderedFigures(sorted, list);
      min, max, mode := Some(low), Some(high), Some(middle);
      numMes := |list|;
      var sum, sum2 := FirstLoop(sorted);
      sum2 := sum2 / numMes as real;
      value := Some(sum / numMes as real);
      var square, sx, sxy, sxx := SecondLoop(sorted, value.value, sum2);
      variance := Some(square / numMes as real);
      SinceMeanIsZero(sorted);
      SameTotals(sorted, list, sum2, value.value);
      beta, alpha := Trend(numMes as real, sum, sx, sxy, sxx);
    }
  }

  /** What is read off the sorted copy. */
  method OrderedFigures(sorted: seq<Sample>, ghost list: seq<Sample>) returns (low: real, high: real, middle: real)
    requires list != [] && multiset(sorted) == multiset(list) && |sorted| == |list| && Sorted(Values(sorted))
    ensures IsLeast(Values(list), low) && IsGreatest(Values(list), high)
    ensures Values(sorted) != [] && middle == Median(Values(sorted)) && InTheMiddle(Values(sorted), middle)
  {
    EndsOfValues(sorted, list);
    MedianSplits(Values(sorted));
    var n := |sorted|;
    low, high := sorted[0].value, sorted[n - 1].value;
    middle := if n % 2 == 1 then sorted[n / 2].value else (sorted[n / 2 - 1].value + sorted[n / 2].value) / 2.0;
  }

  method Trend(n: real, sum: real, sx: real, sxy: real, sxx: real) returns (beta: Option<real>, alpha: Option<real>)
    requires n > 0.0 && sx == 0.0
    ensures beta == if sxx == 0.0 then None else Some(sxy / sxx)
    ensures alpha == if sxx == 0.0 then None else Some(Reported(sum, beta.value, sxy, n))
  {
    assert sx * sx == 0.0 && sx * sum == 0.0;
    var below := sxx - sx * sx / n;
    if below == 0.0 {
      return None, None;
    }
    assert below == sxx && sxy - sx * sum / n == sxy;
    var slope := (sxy - sx * sum / n) / below;
    beta := Some(slope);
    alpha := Some(Reported(sum, slope, sxy, n));
  }

  method FirstLoop(sorted: seq<Sample>) returns (sum: real, sum2: real)
    ensures sum == Total(sorted, Measured()) && sum2 == Total(sorted, Taken())
  {
    sum, sum2 := 0.0, 0.0;
    for i := 0 to |sorted|
      invariant sum == Total(sorted[..i], Measured()) && sum2 == Total(sorted[..i], Taken())
    {
      assert sorted[..i + 1] == sorted[..i] + [sorted[i]];
      TotalSnoc(sorted[..i], sorted[i], Measured());
      TotalSnoc(sorted[..i], sorted[i], Taken());
      sum, sum2 := sum + sorted[i].value, sum2 + sorted[i].time;
    }
    assert sorted[..|sorted|] == sorted;
  }

  method SecondLoop(sorted: seq<Sample>, mean: real, m: real)
    returns (square: real, sx: real, sxy: real, sxx: real)
    ensures square == Total(sorted, ValueDeviation(mean)) && sx == Total(sorted, Since(m))
    ensures sxy == Total(sorted, Cross(m)) && sxx == Total(sorted, SinceSquare(m))
  {
    square, sx, sxy, sxx := 0.0, 0.0, 0.0, 0.0;
    for i := 0 to |sorted|
      invariant square == Total(sorted[..i], ValueDeviation(mean)) && sx == Total(sorted[..i], Since(m))
      invariant sxy == Total(sorted[..i], Cross(m)) && sxx == Total(sorted[..i], SinceSquare(m))
    {
      assert sorted[..i + 1] == sorted[..i] + [sorted[i]];
      TotalSnoc(sorted[..i], sorted[i], ValueDeviation(mean));
      TotalSnoc(sorted[..i], sorted[i], Since(m));
      TotalSnoc(sorted[..i], sorted[i], Cross(m));
      TotalSnoc(sorted[..i], sorted[i], SinceSquare(m));
      hide Squared, Product;
      var x := sorted[i].time - m;
      square := square + Squared(sorted[i].value - mean);
      sx := sx + x;
      sxy := sxy + Product(x, sorted[i].value);
      sxx := sxx + Squared(x);
    }
    assert sorted[..|sorted|] == sorted;
  }

  /** The sums do not depend on the order of the samples. */
  lemma SameTotals(s: seq<Sample>, t: seq<Sample>, m: real, mean: real)
    requires multiset(s) == multiset(t)
    ensures Total(s, Measured()) == Total(t, Measured()) && Total(s, Taken()) == Total(t, Taken())
    ensures Total(s, ValueDeviation(mean)) == Total(t, ValueDeviation(mean))
    ensures Total(s, Cross(m)) == Total(t, Cross(m)) && Total(s, SinceSquare(m)) == Total(t, SinceSquare(m))
  {
    TotalOfAnyOrder(s, t, Measured());
    TotalOfAnyOrder(s, t, Taken());
    TotalOfAnyOrder(s, t, ValueDeviation(mean));
    TotalOfAnyOrder(s, t, Cross(m));
    TotalOfAnyOrder(s, t, SinceSquare(m));
  }
}
