/** Values with statistics: `ValueDoubleStat` and `ValueDoubleTimeserie` of include/valuestat.h and
lib/rts2/valuestat.cpp, over real numbers. None stands for NaN, and the square of the standard
deviation for the deviation. */
module ValueStatistics {
  import opened Options
  import opened SampleWindows

  /* ---- Sums ---- */

  function Total<T>(s: seq<T>, f: T -> real): real {
    if s == [] then 0.0 else f(s[0]) + Total(s[1..], f)
  }

  lemma {:induction false} TotalSnoc<T>(s: seq<T>, x: T, f: T -> real)
    ensures Total(s + [x], f) == Total(s, f) + f(x)
  {
    if s == [] {
      assert s + [x] == [x];
    } else {
      TotalSnoc(s[1..], x, f);
      assert (s + [x])[1..] == s[1..] + [x];
    }
  }

  lemma {:induction false} TotalWithout<T>(s: seq<T>, i: nat, f: T -> real)
    requires i < |s|
    ensures Total(s, f) == f(s[i]) + Total(s[..i] + s[i + 1..], f)
  {
    if i == 0 {
      assert s[..0] + s[1..] == s[1..];
    } else {
      TotalWithout(s[1..], i - 1, f);
      assert (s[..i] + s[i + 1..])[1..] == s[1..][..i - 1] + s[1..][i..];
    }
  }

  lemma {:induction false} TotalOfAnyOrder<T>(s: seq<T>, t: seq<T>, f: T -> real)
    requires multiset(s) == multiset(t)
    ensures Total(s, f) == Total(t, f)
  {
    if s == [] {
      assert |multiset(t)| == 0;
    } else {
      assert s[0] in multiset(t);
      var i :| 0 <= i < |t| && t[i] == s[0];
      TotalWithout(t, i, f);
      assert s == [s[0]] + s[1..];
      assert t == t[..i] + [t[i]] + t[i + 1..];
      assert multiset(s[1..]) == multiset(s) - multiset{s[0]} == multiset(t[..i] + t[i + 1..]);
      TotalOfAnyOrder(s[1..], t[..i] + t[i + 1..], f);
    }
  }

  function Itself(): real -> real {
    x => x
  }

  function Product(x: real, y: real): real {
    x * y
  }

  function Squared(x: real): real {
    Product(x, x)
  }

  function Deviation(c: real): real -> real {
    x => Squared(x - c)
  }

  function Mean(s: seq<real>): real
    requires s != []
  {
    Total(s, Itself()) / |s| as real
  }

  /** The mean square distance from `c`. */
  function Spread(s: seq<real>, c: real): real
    requires s != []
  {
    Total(s, Deviation(c)) / |s| as real
  }

  /** What `n` numbers with sum `t` and sum of squares `q` add up to as squares of distances from `c`. */
  function Poly(q: real, t: real, n: real, c: real): real {
    q - 2.0 * c * t + n * c * c
  }

  lemma PolyStep(x: real, q: real, t: real, n: real, c: real)
    ensures Squared(x - c) + Poly(q, t, n, c) == Poly(Squared(x - 0.0) + q, x + t, n + 1.0, c)
  {
  }

  lemma {:induction false} DeviationIsPoly(s: seq<real>, c: real)
    ensures Total(s, Deviation(c)) == Poly(Total(s, Deviation(0.0)), Total(s, Itself()), |s| as real, c)
  {
    if s != [] {
      DeviationIsPoly(s[1..], c);
      assert |s| as real == |s[1..]| as real + 1.0;
      hide Poly, Squared;
      PolyStep(s[0], Total(s[1..], Deviation(0.0)), Total(s[1..], Itself()), |s[1..]| as real, c);
    }
  }

  lemma PolyAtMean(q: real, t: real, n: real, c: real, d: real)
    requires n > 0.0 && t == n * d
    ensures Poly(q, t, n, c) / n == Poly(q, t, n, d) / n + Squared(c - d)
  {
    assert 2.0 * c * t == n * (2.0 * c * d) && 2.0 * d * t == n * (2.0 * d * d);
    assert Poly(q, t, n, c) == Poly(q, t, n, d) + n * ((c - d) * (c - d));
  }

  lemma SpreadIsPoly(s: seq<real>, c: real)
    requires s != []
    ensures Spread(s, c) == Poly(Total(s, Deviation(0.0)), Total(s, Itself()), |s| as real, c) / |s| as real
  {
    hide Poly, Total;
    DeviationIsPoly(s, c);
  }

  /** The mean square distance from `c` exceeds the variance by the square of the distance to the mean. */
  lemma SpreadFrom(s: seq<real>, c: real)
    requires s != []
    ensures Spread(s, c) == Spread(s, Mean(s)) + Squared(c - Mean(s))
  {
    hide *;
    MeanTimesNumber(s);
    SpreadIsPoly(s, c);
    SpreadIsPoly(s, Mean(s));
    PolyAtMean(Total(s, Deviation(0.0)), Total(s, Itself()), |s| as real, c, Mean(s));
  }

  lemma Positive(x: real, y: real)
    requires x > 0.0 && y > 0.0
    ensures Product(x, y) > 0.0
  {
  }

  lemma SquareOfPositive(x: real)
    requires x > 0.0
    ensures Squared(x) > 0.0
  {
    hide Product;
    Positive(x, x);
  }

  lemma SquareOfOpposite(x: real)
    ensures Squared(0.0 - x) == Squared(x)
  {
  }

  lemma SquareIsPositive(x: real)
    ensures Squared(x) >= 0.0
    ensures Squared(x) == 0.0 <==> x == 0.0
  {
    assert x == 0.0 ==> Squared(x) == 0.0;
    hide Squared;
    if x > 0.0 {
      SquareOfPositive(x);
    } else if x < 0.0 {
      SquareOfPositive(0.0 - x);
      SquareOfOpposite(x);
    }
  }

  lemma SpreadIsLeastAtMean(s: seq<real>, c: real)
    requires s != []
    ensures Spread(s, c) >= Spread(s, Mean(s))
    ensures Spread(s, c) == Spread(s, Mean(s)) <==> c == Mean(s)
  {
    hide *;
    SpreadFrom(s, c);
    SquareIsPositive(c - Mean(s));
  }

  lemma MeanTimesNumber(s: seq<real>)
    requires s != []
    ensures Total(s, Itself()) == |s| as real * Mean(s)
  {
    hide Total;
    Quotient(Total(s, Itself()), |s| as real, Mean(s));
  }

  lemma Quotient(t: real, n: real, d: real)
    requires n > 0.0 && d == t / n
    ensures t == n * d
  {
  }

  /* ---- Order ---- */

  ghost predicate Sorted(s: seq<real>) {
    forall i, j :: 0 <= i < j < |s| ==> s[i] <= s[j]
  }

  ghost predicate IsSorting(t: seq<real>, s: seq<real>) {
    multiset(t) == multiset(s) && Sorted(t)
  }

  function Median(t: seq<real>): real
    requires t != []
  {
    if |t| % 2 == 1 then t[|t| / 2] else (t[|t| / 2 - 1] + t[|t| / 2]) / 2.0
  }

  lemma SameLength(t: seq<real>, s: seq<real>)
    requires multiset(t) == multiset(s)
    ensures |t| == |s|
  {
    assert |multiset(t)| == |t| && |multiset(s)| == |s|;
  }

  /* ---- ValueDoubleStat ---- */

  datatype Stat = Stat(
    list: seq<real>, numMes: nat, value: Option<real>, mode: Option<real>, min: Option<real>, max: Option<real>,
    variance: Option<real>)

  /** The distances are taken from the value that was there before. */
  function Calculated(s: Stat, sorted: seq<real>): Stat
    requires |sorted| == |s.list|
  {
    if s.list == [] then s
    else Stat(s.list, |s.list|, Some(Mean(sorted)), Some(Median(sorted)), Some(sorted[0]), Some(sorted[|sorted| - 1]),
              if s.value.None? then None else Some(Spread(sorted, s.value.value)))
  }

  ghost predicate IsLeast(list: seq<real>, x: real) {
    x in list && forall y :: y in list ==> x <= y
  }

  ghost predicate IsGreatest(list: seq<real>, x: real) {
    x in list && forall y :: y in list ==> y <= x
  }

  /** `m` is as far from the one of the two middle elements as from the other; of an odd number there is one. */
  predicate InTheMiddle(t: seq<real>, m: real)
    requires t != []
  {
    m - t[(|t| - 1) / 2] == t[|t| / 2] - m
  }

  lemma MedianSplits(t: seq<real>)
    requires t != [] && Sorted(t)
    ensures InTheMiddle(t, Median(t))
    ensures forall i :: 0 <= i < (|t| + 1) / 2 ==> t[i] <= Median(t)
    ensures forall i :: |t| / 2 <= i < |t| ==> Median(t) <= t[i]
  {
  }

  lemma EndsAreExtreme(t: seq<real>, s: seq<real>)
    requires t != [] && IsSorting(t, s)
    ensures IsLeast(s, t[0]) && IsGreatest(s, t[|t| - 1])
  {
    assert t[0] in multiset(t) && t[|t| - 1] in multiset(t);
    forall y | y in s
      ensures t[0] <= y <= t[|t| - 1]
    {
      assert y in multiset(t);
    }
  }

  /** What was computed is about the list, in whatever order it was kept. */
  lemma CalculatedDescribes(s: Stat, sorted: seq<real>)
    requires s.list != [] && IsSorting(sorted, s.list)
    ensures |sorted| == |s.list|
    ensures var c := Calculated(s, sorted);
            && c.value == Some(Mean(s.list)) && IsLeast(s.list, c.min.value) && IsGreatest(s.list, c.max.value)
            && InTheMiddle(sorted, c.mode.value)
            && (forall i :: 0 <= i < (|sorted| + 1) / 2 ==> sorted[i] <= c.mode.value)
            && (forall i :: |sorted| / 2 <= i < |sorted| ==> c.mode.value <= sorted[i])
  {
    SameLength(sorted, s.list);
    TotalOfAnyOrder(sorted, s.list, Itself());
    EndsAreExtreme(sorted, s.list);
    MedianSplits(sorted);
    hide IsLeast, IsGreatest, Median, Total, Sorted;
  }

  /** The deviation is that of the list exactly when the value before was the mean already: after the
  first calculation it is not a number, and after a change of mean it is too large. */
  lemma DeviationIsRightIff(s: Stat, sorted: seq<real>)
    requires s.list != [] && IsSorting(sorted, s.list)
    ensures |sorted| == |s.list|
    ensures Calculated(s, sorted).variance == Some(Spread(s.list, Mean(s.list))) <==> s.value == Some(Mean(s.list))
    ensures s.value.Some? ==> Calculated(s, sorted).variance.value >= Spread(s.list, Mean(s.list))
  {
    SameLength(sorted, s.list);
    if s.value.Some? {
      TotalOfAnyOrder(sorted, s.list, Deviation(s.value.value));
      SpreadIsLeastAtMean(s.list, s.value.value);
    }
  }

  /** Calculating twice in a row makes it right. */
  lemma SecondTimeIsRight(s: Stat, sorted: seq<real>)
    requires s.list != [] && IsSorting(sorted, s.list)
    ensures |sorted| == |s.list|
    ensures var c := Calculated(Calculated(s, sorted), sorted); c.variance == Some(Spread(s.list, Mean(s.list)))
  {
    CalculatedDescribes(s, sorted);
    DeviationIsRightIff(Calculated(s, sorted), sorted);
  }

  /* ---- When the figures are computed ---- */

  /** A value together with the list its figures were computed from. */
  datatype Kept = Kept(stat: Stat, basis: seq<real>)

  datatype Action = Add(x: real, limit: nat) | Send(sorted: seq<real>)

  ghost predicate Enabled(k: Kept, a: Action) {
    a.Send? ==> IsSorting(a.sorted, k.stat.list) && |a.sorted| == |k.stat.list|
  }

  /** Sending computes the figures anew only when the number of samples is not the one they are of. */
  function Act(k: Kept, a: Action): Kept
    requires a.Send? ==> |a.sorted| == |k.stat.list|
  {
    match a
    case Add(x, limit) => k.(stat := k.stat.(list := Push(k.stat.list, x, limit)))
    case Send(sorted) =>
      if k.stat.numMes == |k.stat.list| || k.stat.list == [] then k
      else Kept(Calculated(k.stat, sorted), k.stat.list)
  }

  ghost predicate IsRun(k: Kept, actions: seq<Action>)
    decreases |actions|
  {
    actions == [] || (Enabled(k, actions[0]) && IsRun(Act(k, actions[0]), actions[1..]))
  }

  ghost function After(k: Kept, actions: seq<Action>): Kept
    requires IsRun(k, actions)
    decreases |actions|
  {
    if actions == [] then k else After(Act(k, actions[0]), actions[1..])
  }

  /** The figures are those of the list they were computed from. Before the first time there are none. */
  ghost predicate AreFigures(s: Stat, basis: seq<real>) {
    && s.numMes == |basis|
    && if basis == [] then s.value.None? && s.mode.None? && s.min.None? && s.max.None?
       else
         && s.value == Some(Total(basis, Itself()) / |basis| as real)
         && s.min.Some? && IsLeast(basis, s.min.value) && s.max.Some? && IsGreatest(basis, s.max.value)
         && s.mode.Some? && exists t :: t != [] && IsSorting(t, basis) && InTheMiddle(t, s.mode.value)
  }

  lemma CalculatedAreFigures(s: Stat, sorted: seq<real>)
    requires s.list != [] && IsSorting(sorted, s.list)
    ensures |sorted| == |s.list| && AreFigures(Calculated(s, sorted), s.list)
  {
    CalculatedDescribes(s, sorted);
  }

  /** Whatever is added and sent, in whatever order. */
  lemma {:induction false} FiguresAreKept(k: Kept, actions: seq<Action>)
    requires AreFigures(k.stat, k.basis) && IsRun(k, actions)
    ensures AreFigures(After(k, actions).stat, After(k, actions).basis)
    decreases |actions|
  {
    if actions != [] {
      if actions[0].Send? && k.stat.list != [] {
        CalculatedAreFigures(k.stat, actions[0].sorted);
      }
      FiguresAreKept(Act(k, actions[0]), actions[1..]);
    }
  }

  ghost predicate Counted(k: Kept) {
    k.stat.numMes == |k.basis|
  }

  /** What is sent is about the list exactly when it was before or the number of samples differs. */
  lemma SentIsFreshIff(k: Kept, sorted: seq<real>)
    requires Counted(k) && k.stat.list != [] && Enabled(k, Send(sorted))
    ensures Act(k, Send(sorted)).basis == k.stat.list <==> k.basis == k.stat.list || |k.basis| != |k.stat.list|
  {
  }

  ghost predicate SendsOrAdds(actions: seq<Action>, n: nat) {
    forall i :: 0 <= i < |actions| && actions[i].Add? ==> actions[i].limit == n
  }

  /** Once a bounded list is full and its figures are computed, no number of new samples and of sendings
  changes the figures again, although the list goes on to hold the newest samples only. */
  lemma {:induction false} FullWindowIsNeverComputedAgain(k: Kept, actions: seq<Action>, n: nat)
    requires n > 0 && Counted(k) && |k.basis| == |k.stat.list| == n
    requires IsRun(k, actions) && SendsOrAdds(actions, n)
    ensures After(k, actions).basis == k.basis
    ensures After(k, actions).stat == k.stat.(list := After(k, actions).stat.list)
    ensures |After(k, actions).stat.list| == n
    decreases |actions|
  {
    if actions != [] {
      FullWindowIsNeverComputedAgain(Act(k, actions[0]), actions[1..], n);
    }
  }

  /** Without a limit every sending is about the whole list. */
  lemma {:induction false} UnboundedIsFresh(k: Kept, actions: seq<Action>)
    requires Counted(k) && k.basis <= k.stat.list
    requires IsRun(k, actions) && SendsOrAdds(actions, 0)
    ensures var last := After(k, actions);
            && last.basis <= last.stat.list && Counted(last)
            && (actions != [] && actions[|actions| - 1].Send? ==> last.basis == last.stat.list)
    decreases |actions|
  {
    if actions != [] {
      UnboundedIsFresh(Act(k, actions[0]), actions[1..]);
    }
  }

  /** The loop of `calculate`, and the division of the squares. */
  method Sums(sorted: seq<real>, value: Option<real>) returns (sum: real, variance: Option<real>)
    requires sorted != []
    ensures sum == Total(sorted, Itself())
    ensures variance == if value.None? then None else Some(Spread(sorted, value.value))
  {
    var square := 0.0;
    sum := 0.0;
    for i := 0 to |sorted|
      invariant sum == Total(sorted[..i], Itself())
      invariant value.Some? ==> square == Total(sorted[..i], Deviation(value.value))
    {
      assert sorted[..i + 1] == sorted[..i] + [sorted[i]];
      TotalSnoc(sorted[..i], sorted[i], Itself());
      sum := sum + sorted[i];
      if value.Some? {
        TotalSnoc(sorted[..i], sorted[i], Deviation(value.value));
        var distance := sorted[i] - value.value;
        square := square + Squared(distance);
      }
    }
    assert sorted[..|sorted|] == sorted;
    variance := if value.None? then None else Some(square / |sorted| as real);
  }

  class ValueDoubleStat {
    var stat: Stat
    var dirty: bool
    // what the figures were computed from
    ghost var basis: seq<real>

    ghost function State(): Kept
      reads this
    {
      Kept(stat, basis)
    }

    constructor ()
      ensures State() == Kept(Stat([], 0, None, None, None, None, None), []) && AreFigures(stat, basis)
    {
      basis := [];
      stat := Stat([], 0, None, None, None, None, None);
      dirty := true;
    }

    method AddValue(inVal: real)
      modifies this
      ensures dirty && State() == Act(old(State()), Add(inVal, 0))
      ensures stat == old(stat).(list := old(stat.list) + [inVal]) && basis == old(basis)
    {
      stat := stat.(list := stat.list + [inVal]);
      dirty := true;
    }

    method AddValueBounded(inVal: real, maxQueSize: nat)
      modifies this
      ensures dirty && State() == Act(old(State()), Add(inVal, maxQueSize))
      ensures var all := old(stat.list) + [inVal];
              && |stat.list| == (if 0 < maxQueSize < |all| then maxQueSize else |all|)
              && stat == old(stat).(list := all[|all| - |stat.list|..]) && basis == old(basis)
    {
      ghost var dropped := 0;
      while maxQueSize > 0 && |stat.list| >= maxQueSize
        invariant 0 <= dropped <= |old(stat).list| && stat == old(stat).(list := old(stat).list[dropped..])
        invariant basis == old(basis)
        invariant dropped > 0 ==> maxQueSize > 0 && |stat.list| >= maxQueSize - 1
        decreases |stat.list|
      {
        stat := stat.(list := stat.list[1..]);
        dropped := dropped + 1;
      }
      assert stat.list + [inVal] == Push(old(stat).list, inVal, maxQueSize);
      AddValue(inVal);
    }

    /** `sorted` is what `std::sort` makes of a copy of the list. */
    method Calculate(sorted: seq<real>)
      requires IsSorting(sorted, stat.list) && |sorted| == |stat.list|
      modifies this
      ensures stat == Calculated(old(stat), sorted) && stat.list == old(stat.list)
      ensures basis == if stat.list == [] then old(basis) else stat.list
      ensures stat.list != [] ==>
                && AreFigures(stat, stat.list)
                && stat.variance == (if old(stat.value).None? then None else Some(Spread(stat.list, old(stat.value.value))))
                && sorted != [] && stat.mode.Some? && InTheMiddle(sorted, stat.mode.value)
    {
      if stat.list != [] {
        CalculatedAreFigures(stat, sorted);
        MedianSplits(sorted);
        if stat.value.Some? {
          TotalOfAnyOrder(sorted, stat.list, Deviation(stat.value.value));
        }
      }
      hide AreFigures;
      if |stat.list| == 0 {
        return;
      }
      var numMes := |stat.list|;
      var sum, variance := Sums(sorted, stat.value);
      var mode := if numMes % 2 == 1 then sorted[numMes / 2] else (sorted[numMes / 2 - 1] + sorted[numMes / 2]) / 2.0;
      stat := Stat(stat.list, numMes, Some(sum / numMes as real), Some(mode), Some(sorted[0]),
                   Some(sorted[|sorted| - 1]), variance);
      basis := stat.list;
      dirty := true;
    }

    /** The figures are brought up to date first; the message itself is not modelled. */
    method Send(sorted: seq<real>)
      requires IsSorting(sorted, stat.list) && |sorted| == |stat.list|
      modifies this
      ensures State() == Act(old(State()), Action.Send(sorted)) && stat.list == old(stat.list)
      ensures stat.list != [] && old(stat.numMes) != |stat.list| ==>
                && AreFigures(stat, stat.list)
                && stat.numMes == |stat.list| && stat.value == Some(Total(stat.list, Itself()) / |stat.list| as real)
                && stat.min.Some? && stat.min.value in stat.list && (forall x :: x in stat.list ==> stat.min.value <= x)
                && stat.max.Some? && stat.max.value in stat.list && (forall x :: x in stat.list ==> x <= stat.max.value)
                && sorted != [] && stat.mode.Some? && InTheMiddle(sorted, stat.mode.value)
      ensures stat.list == [] || old(stat.numMes) == |stat.list| ==> State() == old(State())
    {
      hide Total, InTheMiddle;
      if stat.numMes != |stat.list| {
        Calculate(sorted);
      }
    }
  }
}
