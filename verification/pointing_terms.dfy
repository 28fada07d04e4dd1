/** Pointing model terms: `TPointModelTerm` of include/tpointmodelterm.h, and the model of
lib/rts2tel/tpointmodel.cpp that runs a list of them.

A term adds a shift to a position. Its reverse is the mirror image of one more application, which
undoes the term only as far as the shift is the same at both ends. */
module PointingTerms {
  datatype Posn = Posn(ra: real, dec: real)

  const ORIGIN := Posn(0.0, 0.0)

  type Shift = (Posn, real) -> Posn

  function Plus(p: Posn, q: Posn): Posn {
    Posn(p.ra + q.ra, p.dec + q.dec)
  }

  function Minus(p: Posn, q: Posn): Posn {
    Posn(p.ra - q.ra, p.dec - q.dec)
  }

  /** How far apart two positions are is measured by any function with the laws of a norm. */
  type Measure = Posn -> real

  ghost predicate IsNorm(m: Measure) {
    && m(ORIGIN) == 0.0
    && (forall p :: m(p) >= 0.0)
    && (forall p, q {:trigger m(Plus(p, q))} :: m(Plus(p, q)) <= m(p) + m(q))
    && (forall p, q {:trigger m(Minus(p, q))} :: m(Minus(p, q)) <= m(p) + m(q))
    && (forall p, q {:trigger m(Minus(p, q))} :: m(Minus(p, q)) == m(Minus(q, p)))
  }

  function Scaled(l: real, x: real): real {
    l * x
  }

  function Applied(s: Shift, p: Posn, lat: real): Posn {
    Plus(p, s(p, lat))
  }

  function Undone(s: Shift, p: Posn, lat: real): Posn {
    Minus(p, s(p, lat))
  }

  /** Over the positions in `d` the shift changes at most `l` times as fast as the position. */
  ghost predicate Lipschitz(m: Measure, s: Shift, lat: real, l: real, d: iset<Posn>) {
    l >= 0.0 && forall p, q :: p in d && q in d ==> m(Minus(s(p, lat), s(q, lat))) <= Scaled(l, m(Minus(p, q)))
  }

  /* ---- One term ---- */

  /** Reversing after applying, and applying after reversing, miss by at most `l` times the shift. */
  lemma InversionBound(m: Measure, s: Shift, p: Posn, lat: real, l: real, d: iset<Posn>)
    requires IsNorm(m) && Lipschitz(m, s, lat, l, d)
    requires p in d
    ensures Applied(s, p, lat) in d ==> m(Minus(Undone(s, Applied(s, p, lat), lat), p)) <= Scaled(l, m(s(p, lat)))
    ensures Undone(s, p, lat) in d ==> m(Minus(Applied(s, Undone(s, p, lat), lat), p)) <= Scaled(l, m(s(p, lat)))
  {
    var q, r := Applied(s, p, lat), Undone(s, p, lat);
    assert Minus(Undone(s, q, lat), p) == Minus(s(p, lat), s(q, lat));
    assert Minus(Applied(s, r, lat), p) == Minus(s(r, lat), s(p, lat));
    assert Minus(q, p) == s(p, lat) == Minus(p, r);
    assert m(Minus(p, q)) == m(Minus(q, p)) && m(Minus(r, p)) == m(Minus(p, r));
  }

  ghost predicate Constant(s: Shift, lat: real) {
    forall p, q :: s(p, lat) == s(q, lat)
  }

  /** Hour angle and declination zero points. */
  function IndexHour(c: real): Shift {
    (p: Posn, lat: real) => Posn(c, 0.0)
  }

  function IndexDeclination(c: real): Shift {
    (p: Posn, lat: real) => Posn(0.0, c)
  }

  function Stretch(c: real, rad: real, x: real): real {
    c * (x * rad)
  }

  /** Terms PHH and PDD; `rad` is the number of radians in a degree. */
  function ScaleHour(c: real, rad: real): Shift {
    (p: Posn, lat: real) => Posn(Stretch(c, rad, p.ra), 0.0)
  }

  function ScaleDeclination(c: real, rad: real): Shift {
    (p: Posn, lat: real) => Posn(0.0, Stretch(c, rad, p.dec))
  }

  /** IH and ID shift every position alike: `p` like any other, by the coefficient and along one axis. */
  lemma IndexTermsAreConstant(c: real, lat: real, p: Posn)
    ensures Constant(IndexHour(c), lat) && Constant(IndexDeclination(c), lat)
    ensures Applied(IndexHour(c), p, lat) == Posn(p.ra + c, p.dec)
    ensures Applied(IndexDeclination(c), p, lat) == Posn(p.ra, p.dec + c)
  {
  }

  /* ---- A list of terms ---- */

  function ApplyAll(ss: seq<Shift>, p: Posn, lat: real): Posn {
    if ss == [] then p else ApplyAll(ss[1..], Applied(ss[0], p, lat), lat)
  }

  /** The terms are taken in the order in which they were applied. */
  function UndoAll(ss: seq<Shift>, p: Posn, lat: real): Posn {
    if ss == [] then p else UndoAll(ss[1..], Undone(ss[0], p, lat), lat)
  }

  /** Both take the terms of a longer list in the same order. */
  lemma {:induction false} InOneOrder(ss: seq<Shift>, ts: seq<Shift>, p: Posn, lat: real)
    ensures ApplyAll(ss + ts, p, lat) == ApplyAll(ts, ApplyAll(ss, p, lat), lat)
    ensures UndoAll(ss + ts, p, lat) == UndoAll(ts, UndoAll(ss, p, lat), lat)
  {
    if ss == [] {
      assert ss + ts == ts;
    } else {
      assert (ss + ts)[1..] == ss[1..] + ts;
      InOneOrder(ss[1..], ts, Applied(ss[0], p, lat), lat);
      InOneOrder(ss[1..], ts, Undone(ss[0], p, lat), lat);
    }
  }

  function ApplyLength(m: Measure, ss: seq<Shift>, p: Posn, lat: real): real {
    if ss == [] then 0.0 else m(ss[0](p, lat)) + ApplyLength(m, ss[1..], Applied(ss[0], p, lat), lat)
  }

  function UndoLength(m: Measure, ss: seq<Shift>, p: Posn, lat: real): real {
    if ss == [] then 0.0 else m(ss[0](p, lat)) + UndoLength(m, ss[1..], Undone(ss[0], p, lat), lat)
  }

  ghost predicate ApplyStaysIn(ss: seq<Shift>, p: Posn, lat: real, d: iset<Posn>) {
    ss == [] || (p in d && ApplyStaysIn(ss[1..], Applied(ss[0], p, lat), lat, d))
  }

  ghost predicate UndoStaysIn(ss: seq<Shift>, p: Posn, lat: real, d: iset<Posn>) {
    ss == [] || (p in d && UndoStaysIn(ss[1..], Undone(ss[0], p, lat), lat, d))
  }

  lemma ProductGrows(a: real, x: real, y: real)
    requires a >= 0.0 && x <= y
    ensures Scaled(a, x) <= Scaled(a, y)
  {
  }

  function Total(ls: seq<real>): real {
    if ls == [] then 0.0 else ls[0] + Total(ls[1..])
  }

  ghost predicate AllLipschitz(m: Measure, ss: seq<Shift>, lat: real, ls: seq<real>, d: iset<Posn>) {
    |ls| == |ss| && forall i :: 0 <= i < |ss| ==> Lipschitz(m, ss[i], lat, ls[i], d)
  }

  lemma {:induction false} ApplyTravels(m: Measure, ss: seq<Shift>, p: Posn, lat: real)
    requires IsNorm(m)
    ensures m(Minus(ApplyAll(ss, p, lat), p)) <= ApplyLength(m, ss, p, lat)
  {
    if ss != [] {
      var q := Applied(ss[0], p, lat);
      ApplyTravels(m, ss[1..], q, lat);
      assert Minus(ApplyAll(ss, p, lat), p) == Plus(Minus(ApplyAll(ss, p, lat), q), ss[0](p, lat));
    }
  }

  lemma {:induction false} UndoLengthIsPositive(m: Measure, ss: seq<Shift>, p: Posn, lat: real)
    requires IsNorm(m)
    ensures UndoLength(m, ss, p, lat) >= 0.0
  {
    if ss != [] {
      UndoLengthIsPositive(m, ss[1..], Undone(ss[0], p, lat), lat);
    }
  }

  lemma LipschitzWithin(
      m: Measure, s: Shift, lat: real, l: real, d: iset<Posn>, p: Posn, q: Posn, reach: real)
    requires Lipschitz(m, s, lat, l, d) && p in d && q in d && m(Minus(p, q)) <= reach
    ensures m(Minus(s(p, lat), s(q, lat))) <= Scaled(l, reach)
  {
    ProductGrows(l, m(Minus(p, q)), reach);
  }

  lemma NoWay(p: Posn, q: Posn)
    ensures Minus(p, p) == ORIGIN == Plus(Minus(p, p), Minus(q, q))
  {
  }

  lemma NoDistance(m: Measure, p: Posn, q: Posn)
    requires IsNorm(m)
    ensures m(Minus(p, p)) == 0.0 == m(Plus(Minus(p, p), Minus(q, q)))
  {
    NoWay(p, q);
    assert m(ORIGIN) == 0.0;
  }

  lemma Laws(m: Measure, p: Posn, q: Posn)
    requires IsNorm(m)
    ensures 0.0 <= m(p) && m(Plus(p, q)) <= m(p) + m(q)
    ensures m(Minus(p, q)) <= m(p) + m(q) && m(Minus(p, q)) == m(Minus(q, p))
  {
  }

  lemma StepVectors(p: Posn, q: Posn, a: Posn, b: Posn, end: Posn, back: Posn)
    ensures Minus(q, p) == Plus(Minus(q, end), Plus(a, Minus(end, Plus(p, a))))
    ensures Minus(Minus(q, b), end) == Minus(Minus(q, end), b)
    ensures Plus(Minus(end, p), Minus(back, q))
         == Plus(Plus(Minus(end, Plus(p, a)), Minus(back, Minus(q, b))), Minus(a, b))
  {
  }

  /** What the laws of a norm say about one step of both travels. */
  lemma StepDistances(m: Measure, p: Posn, q: Posn, a: Posn, b: Posn, end: Posn, back: Posn)
    requires IsNorm(m)
    ensures m(a) >= 0.0 && m(b) >= 0.0
    ensures m(Minus(p, q)) <= m(Minus(q, end)) + m(a) + m(Minus(end, Plus(p, a)))
    ensures m(Minus(Minus(q, b), end)) <= m(Minus(q, end)) + m(b)
    ensures m(Plus(Minus(end, p), Minus(back, q)))
         <= m(Plus(Minus(end, Plus(p, a)), Minus(back, Minus(q, b)))) + m(Minus(a, b))
  {
    hide IsNorm;
    StepVectors(p, q, a, b, end, back);
    var rest := Minus(end, Plus(p, a));
    Laws(m, p, q);
    Laws(m, Minus(q, end), Plus(a, rest));
    Laws(m, a, rest);
    Laws(m, b, b);
    Laws(m, Minus(q, end), b);
    Laws(m, Plus(rest, Minus(back, Minus(q, b))), Minus(a, b));
  }

  /** The constants one by one, each times `reach`. */
  function Budget(ls: seq<real>, reach: real): real {
    if ls == [] then 0.0 else Scaled(ls[0], reach) + Budget(ls[1..], reach)
  }

  lemma {:induction false} BudgetIsProduct(ls: seq<real>, reach: real)
    ensures Budget(ls, reach) == Scaled(Total(ls), reach)
  {
    if ls != [] {
      BudgetIsProduct(ls[1..], reach);
    }
  }

  /** How much the terms differ between the two latitudes, along the way of the reversal. */
  function Drift(m: Measure, ss: seq<Shift>, q: Posn, lat: real, back: real): real {
    if ss == [] then 0.0
    else m(Minus(ss[0](q, lat), ss[0](q, back))) + Drift(m, ss[1..], Undone(ss[0], q, back), lat, back)
  }

  /** The shift at `p` and one latitude against the shift at `q` and the other. */
  lemma ShiftsDiffer(
      m: Measure, s: Shift, lat: real, back: real, l: real, d: iset<Posn>, p: Posn, q: Posn, reach: real)
    requires IsNorm(m) && Lipschitz(m, s, lat, l, d) && p in d && q in d && m(Minus(p, q)) <= reach
    ensures m(Minus(s(p, lat), s(q, back))) <= Scaled(l, reach) + m(Minus(s(q, lat), s(q, back)))
  {
    LipschitzWithin(m, s, lat, l, d, p, q, reach);
    hide *;
    Between(s(p, lat), s(q, lat), s(q, back));
    Laws(m, Minus(s(p, lat), s(q, lat)), Minus(s(q, lat), s(q, back)));
  }

  lemma Between(a: Posn, b: Posn, c: Posn)
    ensures Minus(a, c) == Plus(Minus(a, b), Minus(b, c))
  {
  }

  /** The way an application starting at `p` travels and the way a reversal starting at `q` travels
  cancel up to the drift and the sum of the constants times `reach`, which covers the distance of `q`
  from the end of the application and the length of both ways. */
  lemma {:induction false} TravelsCancel(
      m: Measure, ss: seq<Shift>, p: Posn, q: Posn, lat: real, back: real, ls: seq<real>, d: iset<Posn>, reach: real)
    requires IsNorm(m) && AllLipschitz(m, ss, lat, ls, d)
    requires ApplyStaysIn(ss, p, lat, d) && UndoStaysIn(ss, q, back, d)
    requires m(Minus(q, ApplyAll(ss, p, lat))) + ApplyLength(m, ss, p, lat) + UndoLength(m, ss, q, back) <= reach
    ensures m(Plus(Minus(ApplyAll(ss, p, lat), p), Minus(UndoAll(ss, q, back), q)))
         <= Budget(ls, reach) + Drift(m, ss, q, lat, back)
  {
    hide IsNorm, Lipschitz, Scaled;
    if ss == [] {
      NoDistance(m, p, q);
    } else {
      var a, b := ss[0](p, lat), ss[0](q, back);
      StepDistances(m, p, q, a, b, ApplyAll(ss, p, lat), UndoAll(ss, q, back));
      ApplyTravels(m, ss[1..], Plus(p, a), lat);
      UndoLengthIsPositive(m, ss[1..], Minus(q, b), back);
      TravelsCancel(m, ss[1..], Plus(p, a), Minus(q, b), lat, back, ls[1..], d, reach);
      ShiftsDiffer(m, ss[0], lat, back, ls[0], d, p, q, reach);
    }
  }

  lemma ThereAndBack(p: Posn, end: Posn, back: Posn)
    ensures Plus(Minus(end, p), Minus(back, end)) == Minus(back, p)
  {
  }

  /** Applying a model at one latitude and reversing it at another misses by at most the drift and the
  sum of the constants times the length of the way there and back, although the terms are reversed in
  the order in which they were applied. */
  lemma ModelInversionBound(
      m: Measure, ss: seq<Shift>, p: Posn, lat: real, back: real, ls: seq<real>, d: iset<Posn>)
    requires IsNorm(m) && AllLipschitz(m, ss, lat, ls, d)
    requires ApplyStaysIn(ss, p, lat, d) && UndoStaysIn(ss, ApplyAll(ss, p, lat), back, d)
    ensures var end := ApplyAll(ss, p, lat);
            m(Minus(UndoAll(ss, end, back), p))
            <= Scaled(Total(ls), ApplyLength(m, ss, p, lat) + UndoLength(m, ss, end, back)) + Drift(m, ss, end, lat, back)
  {
    hide *;
    var end := ApplyAll(ss, p, lat);
    var reach := ApplyLength(m, ss, p, lat) + UndoLength(m, ss, end, back);
    NoDistance(m, end, end);
    TravelsCancel(m, ss, p, end, lat, back, ls, d, reach);
    ThereAndBack(p, end, UndoAll(ss, end, back));
    BudgetIsProduct(ls, reach);
  }

  /** Over every position the shift is the same at both latitudes. */
  ghost predicate IgnoresLatitude(s: Shift, lat: real, back: real) {
    forall q :: s(q, lat) == s(q, back)
  }

  lemma {:induction false} NoDrift(m: Measure, ss: seq<Shift>, q: Posn, lat: real, back: real)
    requires IsNorm(m) && forall i :: 0 <= i < |ss| ==> IgnoresLatitude(ss[i], lat, back)
    ensures Drift(m, ss, q, lat, back) == 0.0
  {
    if ss != [] {
      NoDrift(m, ss[1..], Undone(ss[0], q, back), lat, back);
      assert IgnoresLatitude(ss[0], lat, back);
      assert Minus(ss[0](q, lat), ss[0](q, back)) == ORIGIN;
    }
  }

  /** A model of terms that do not look at the latitude keeps the bound without the drift. */
  lemma LatitudeFreeBound(
      m: Measure, ss: seq<Shift>, p: Posn, lat: real, back: real, ls: seq<real>, d: iset<Posn>)
    requires IsNorm(m) && AllLipschitz(m, ss, lat, ls, d)
    requires ApplyStaysIn(ss, p, lat, d) && UndoStaysIn(ss, ApplyAll(ss, p, lat), back, d)
    requires forall i :: 0 <= i < |ss| ==> IgnoresLatitude(ss[i], lat, back)
    ensures var end := ApplyAll(ss, p, lat);
            m(Minus(UndoAll(ss, end, back), p))
            <= Scaled(Total(ls), ApplyLength(m, ss, p, lat) + UndoLength(m, ss, end, back))
  {
    hide *;
    ModelInversionBound(m, ss, p, lat, back, ls, d);
    NoDrift(m, ss, ApplyAll(ss, p, lat), lat, back);
  }

  /** What the bound asks of a model, a position and constants. */
  ghost predicate Admissible(
      m: Measure, ss: seq<Shift>, p: Posn, lat: real, back: real, ls: seq<real>, d: iset<Posn>)
  {
    && IsNorm(m) && AllLipschitz(m, ss, lat, ls, d)
    && ApplyStaysIn(ss, p, lat, d) && UndoStaysIn(ss, ApplyAll(ss, p, lat), back, d)
  }

  /** The bound without the drift. */
  ghost predicate WithoutDrift(m: Measure, ss: seq<Shift>, p: Posn, lat: real, back: real, ls: seq<real>) {
    var end := ApplyAll(ss, p, lat);
    m(Minus(UndoAll(ss, end, back), p)) <= Scaled(Total(ls), ApplyLength(m, ss, p, lat) + UndoLength(m, ss, end, back))
  }

  ghost predicate NeverDrifts(lat: real, back: real) {
    forall m: Measure, ss: seq<Shift>, p: Posn, ls: seq<real>, d: iset<Posn> ::
      Admissible(m, ss, p, lat, back, ls, d) ==> WithoutDrift(m, ss, p, lat, back, ls)
  }

  /** The bound without the drift holds for all models exactly when both ways see the same latitude. */
  lemma BoundNeedsOneLatitude(lat: real, back: real)
    ensures NeverDrifts(lat, back) <==> lat == back
  {
    if lat == back {
      forall m: Measure, ss: seq<Shift>, p: Posn, ls: seq<real>, d: iset<Posn> | Admissible(m, ss, p, lat, back, ls, d)
        ensures WithoutDrift(m, ss, p, lat, back, ls)
      {
        LatitudeFreeBound(m, ss, p, lat, back, ls, d);
      }
    } else {
      LatitudeItself(lat, back);
    }
  }

  /** A term that shifts by the latitude does not change with the position, and misses by what the latitudes
      differ. */
  lemma LatitudeItself(lat: real, back: real)
    requires lat != back
    ensures var ss: seq<Shift> := [(p: Posn, l: real) => Posn(l, 0.0)];
            && Admissible(Largest, ss, ORIGIN, lat, back, [0.0], EVERYWHERE)
            && !WithoutDrift(Largest, ss, ORIGIN, lat, back, [0.0])
  {
    var s: Shift := (p: Posn, l: real) => Posn(l, 0.0);
    var ss, end := [s], Posn(lat, 0.0);
    LargestIsNorm();
    OneTerm(Largest, s, ORIGIN, lat);
    OneTerm(Largest, s, end, back);
    assert ApplyAll(ss, ORIGIN, lat) == end && UndoAll(ss, end, back) == Posn(lat - back, 0.0);
    assert UndoStaysIn(ss, end, back, EVERYWHERE) by {
      assert UndoStaysIn(ss[1..], Undone(s, end, back), back, EVERYWHERE);
    }
    assert ApplyStaysIn(ss, ORIGIN, lat, EVERYWHERE) by {
      assert ApplyStaysIn(ss[1..], end, lat, EVERYWHERE);
    }
    assert Total([0.0]) == 0.0;
  }

  /** That term reaches the bound: its constant is zero, and it misses by the drift. */
  lemma DriftIsReached(lat: real, back: real)
    ensures var ss: seq<Shift> := [(p: Posn, l: real) => Posn(l, 0.0)];
            var end := ApplyAll(ss, ORIGIN, lat);
            && Lipschitz(Largest, ss[0], lat, 0.0, EVERYWHERE)
            && Largest(Minus(UndoAll(ss, end, back), ORIGIN)) == Drift(Largest, ss, end, lat, back) == Abs(lat - back)
  {
    var s: Shift := (p: Posn, l: real) => Posn(l, 0.0);
    var ss, end := [s], Posn(lat, 0.0);
    OneTerm(Largest, s, ORIGIN, lat);
    OneTerm(Largest, s, end, back);
    assert ApplyAll(ss, ORIGIN, lat) == end && UndoAll(ss, end, back) == Posn(lat - back, 0.0);
    assert ss[1..] == [] && Drift(Largest, [], Undone(s, end, back), lat, back) == 0.0;
    assert Minus(s(end, lat), s(end, back)) == Posn(lat - back, 0.0) == Minus(Posn(lat - back, 0.0), ORIGIN);
    LargestOfOne(lat - back);
  }

  /** A model gets the latitude in degrees for one way and in radians for the other. */
  lemma DegreesAndRadians(latitude: real, radiansInDegree: real)
    ensures NeverDrifts(latitude, latitude * radiansInDegree) <==> latitude == 0.0 || radiansInDegree == 1.0
  {
    BoundNeedsOneLatitude(latitude, latitude * radiansInDegree);
    if latitude == latitude * radiansInDegree && latitude != 0.0 {
      assert radiansInDegree == (latitude * radiansInDegree) / latitude;
    }
  }

  /* ---- A term of the repository that drifts ---- */

  function Bent(c: real, sf: real, td: real, cf: real, ch: real): Posn {
    Posn(0.0 - Scaled(c, Scaled(sf, td) + Scaled(cf, ch)), 0.0)
  }

  /** Term DAF over any sine, cosine and tangent of degrees; the latitude goes to the first two as it is. */
  function Flexure(c: real, sin: real -> real, cos: real -> real, tanOf: real -> real, cosOf: real -> real): Shift {
    (p: Posn, lat: real) => Bent(c, sin(lat), tanOf(p.dec), cos(lat), cosOf(p.ra))
  }

  lemma BentOnEquator(c: real, sf: real, cf: real, ch: real)
    ensures Bent(c, sf, 0.0, cf, 1.0) == Posn(0.0 - Scaled(c, cf), 0.0)
    ensures Bent(c, sf, 0.0, 0.0, ch) == ORIGIN
    ensures c != 0.0 && cf != 0.0 ==> Scaled(c, cf) != 0.0
  {
    assert Scaled(sf, 0.0) == 0.0 && Scaled(cf, 1.0) == cf && Scaled(0.0, ch) == 0.0 && Scaled(c, 0.0) == 0.0;
  }

  /** At the pole DAF does not move the origin back, so it misses by all that the application moved. Between
      the origin and where that ends, its constant is `l`; if that is below one the bound fails. */
  lemma PoleFails(
      c: real, sin: real -> real, cos: real -> real, tanOf: real -> real, cosOf: real -> real, lat: real, back: real)
    requires c != 0.0 && tanOf(0.0) == 0.0 && cosOf(0.0) == 1.0
    requires cos(back) == 0.0 && cos(lat) != 0.0
    ensures var ss: seq<Shift> := [Flexure(c, sin, cos, tanOf, cosOf)];
            var end := ApplyAll(ss, ORIGIN, lat);
            var l := Abs(1.0 - cosOf(end.ra));
            && UndoAll(ss, end, back) == end == Posn(0.0 - Scaled(c, cos(lat)), 0.0) != ORIGIN
            && Admissible(Largest, ss, ORIGIN, lat, back, [l], iset{ORIGIN, end})
            && (WithoutDrift(Largest, ss, ORIGIN, lat, back, [l]) <==> l >= 1.0)
  {
    var s, end := Flexure(c, sin, cos, tanOf, cosOf), Posn(0.0 - Scaled(c, cos(lat)), 0.0);
    hide *;
    FlexureAtPole(c, sin, cos, tanOf, cosOf, lat, back);
    FlexureBends(c, sin, cos, tanOf, cosOf, lat);
    assert end.ra == 0.0 - Scaled(c, cos(lat)) && end.dec == 0.0;
    StuckFails(s, end, lat, back, 1.0 - cosOf(end.ra));
  }

  lemma StuckFails(s: Shift, end: Posn, lat: real, back: real, k: real)
    requires s(ORIGIN, lat) == end != ORIGIN && s(end, back) == ORIGIN && end.dec == 0.0
    requires Minus(s(ORIGIN, lat), s(end, lat)) == Posn(Scaled(k, end.ra), 0.0)
    ensures ApplyAll([s], ORIGIN, lat) == end == UndoAll([s], end, back)
    ensures Admissible(Largest, [s], ORIGIN, lat, back, [Abs(k)], iset{ORIGIN, end})
    ensures WithoutDrift(Largest, [s], ORIGIN, lat, back, [Abs(k)]) <==> Abs(k) >= 1.0
  {
    hide *;
    StuckAtEnd(s, end, lat, back);
    TwoPositions(s, end, lat, k);
    StuckIsAdmissible(s, end, lat, back, Abs(k));
    StuckMisses(s, end, lat, back, Abs(k));
  }

  /** How much DAF changes between the origin and where it moves the origin to. */
  lemma FlexureBends(c: real, sin: real -> real, cos: real -> real, tanOf: real -> real, cosOf: real -> real, lat: real)
    requires tanOf(0.0) == 0.0 && cosOf(0.0) == 1.0
    ensures var s, end := Flexure(c, sin, cos, tanOf, cosOf), Posn(0.0 - Scaled(c, cos(lat)), 0.0);
            Minus(s(ORIGIN, lat), s(end, lat)) == Posn(Scaled(1.0 - cosOf(end.ra), end.ra), 0.0)
  {
    hide Bent, Scaled, Flexure;
    var end := Posn(0.0 - Scaled(c, cos(lat)), 0.0);
    FlexureIs(c, sin, cos, tanOf, cosOf, ORIGIN, lat);
    FlexureIs(c, sin, cos, tanOf, cosOf, end, lat);
    assert ORIGIN.ra == ORIGIN.dec == end.dec == 0.0;
    BentDiffers(c, sin(lat), cos(lat), cosOf(end.ra));
  }

  lemma BentDiffers(c: real, sf: real, cf: real, h: real)
    ensures Minus(Bent(c, sf, 0.0, cf, 1.0), Bent(c, sf, 0.0, cf, h)) == Posn(Scaled(1.0 - h, 0.0 - Scaled(c, cf)), 0.0)
  {
    assert Scaled(sf, 0.0) == 0.0 && Scaled(cf, 1.0) == cf;
    Regroup(c, cf, h);
    OneLess(h, Scaled(c, cf));
    hide Scaled;
  }

  lemma Regroup(a: real, b: real, x: real)
    ensures Scaled(a, Scaled(b, x)) == Scaled(x, Scaled(a, b))
  {
  }

  lemma OneLess(h: real, x: real)
    ensures Scaled(1.0 - h, 0.0 - x) == Scaled(h, x) - x
  {
    assert (1.0 - h) * x == x - h * x;
    assert (1.0 - h) * (0.0 - x) == 0.0 - (1.0 - h) * x;
  }

  /** Two positions on the equator, one of them the origin, where the shift changes `k` times as fast. */
  lemma TwoPositions(s: Shift, end: Posn, lat: real, k: real)
    requires end.dec == 0.0 && Minus(s(ORIGIN, lat), s(end, lat)) == Posn(Scaled(k, end.ra), 0.0)
    ensures Abs(k) >= 0.0 && Lipschitz(Largest, s, lat, Abs(k), iset{ORIGIN, end})
  {
    var a, b, l := s(ORIGIN, lat), s(end, lat), Abs(k);
    BothWays(a, b, Scaled(k, end.ra));
    BothWays(ORIGIN, end, 0.0 - end.ra);
    AbsProduct(k, end.ra);
    assert Largest(Minus(ORIGIN, ORIGIN)) == Largest(Minus(end, end)) == 0.0;
    assert Largest(Minus(a, a)) == Largest(Minus(b, b)) == 0.0;
    assert l >= 0.0 && Scaled(l, 0.0) == 0.0;
    hide Largest, Scaled, Abs, Minus;
  }

  lemma BothWays(a: Posn, b: Posn, x: real)
    requires Minus(a, b) == Posn(x, 0.0)
    ensures Largest(Minus(a, b)) == Largest(Minus(b, a)) == Abs(x) == Abs(0.0 - x)
  {
  }

  lemma StuckIsAdmissible(s: Shift, end: Posn, lat: real, back: real, l: real)
    requires ApplyAll([s], ORIGIN, lat) == end && Lipschitz(Largest, s, lat, l, iset{ORIGIN, end})
    ensures Admissible(Largest, [s], ORIGIN, lat, back, [l], iset{ORIGIN, end})
  {
    LargestIsNorm();
    hide IsNorm, Largest, Lipschitz;
    var d := iset{ORIGIN, end};
    assert ApplyStaysIn([s][1..], Applied(s, ORIGIN, lat), lat, d) && UndoStaysIn([s][1..], Undone(s, end, back), back, d);
    assert ApplyStaysIn([s], ORIGIN, lat, d);
    assert UndoStaysIn([s], end, back, d);
    assert AllLipschitz(Largest, [s], lat, [l], d);
  }

  lemma StuckMisses(s: Shift, end: Posn, lat: real, back: real, l: real)
    requires l >= 0.0 && ApplyAll([s], ORIGIN, lat) == end == UndoAll([s], end, back)
    requires UndoLength(Largest, [s], end, back) == 0.0
    requires Largest(Minus(end, ORIGIN)) == ApplyLength(Largest, [s], ORIGIN, lat) > 0.0
    ensures WithoutDrift(Largest, [s], ORIGIN, lat, back, [l]) <==> l >= 1.0
  {
    var way := ApplyLength(Largest, [s], ORIGIN, lat);
    assert Total([l]) == l;
    assert Scaled(l, way) - way == (l - 1.0) * way;
  }

  lemma FlexureAtPole(
      c: real, sin: real -> real, cos: real -> real, tanOf: real -> real, cosOf: real -> real, lat: real, back: real)
    requires c != 0.0 && tanOf(0.0) == 0.0 && cosOf(0.0) == 1.0
    requires cos(back) == 0.0 && cos(lat) != 0.0
    ensures var s, end := Flexure(c, sin, cos, tanOf, cosOf), Posn(0.0 - Scaled(c, cos(lat)), 0.0);
            s(ORIGIN, lat) == end != ORIGIN && s(end, back) == ORIGIN
  {
    hide Bent, Scaled, Flexure;
    var end := Posn(0.0 - Scaled(c, cos(lat)), 0.0);
    FlexureIs(c, sin, cos, tanOf, cosOf, ORIGIN, lat);
    FlexureIs(c, sin, cos, tanOf, cosOf, end, back);
    assert ORIGIN.ra == ORIGIN.dec == end.dec == 0.0;
    BentOnEquator(c, sin(lat), cos(lat), 1.0);
    BentOnEquator(c, sin(back), cos(back), cosOf(end.ra));
    NotOrigin(Scaled(c, cos(lat)));
  }

  lemma NotOrigin(x: real)
    ensures x != 0.0 ==> Posn(0.0 - x, 0.0) != ORIGIN
  {
  }

  lemma FlexureIs(
      c: real, sin: real -> real, cos: real -> real, tanOf: real -> real, cosOf: real -> real, p: Posn, lat: real)
    ensures Flexure(c, sin, cos, tanOf, cosOf)(p, lat) == Bent(c, sin(lat), tanOf(p.dec), cos(lat), cosOf(p.ra))
  {
    hide Bent;
  }

  /** A term that moves the origin to `end` and, at the other latitude, does not move `end`. */
  lemma StuckAtEnd(s: Shift, end: Posn, lat: real, back: real)
    requires s(ORIGIN, lat) == end != ORIGIN && s(end, back) == ORIGIN
    ensures ApplyAll([s], ORIGIN, lat) == end == UndoAll([s], end, back)
    ensures UndoLength(Largest, [s], end, back) == 0.0
    ensures Largest(Minus(end, ORIGIN)) == ApplyLength(Largest, [s], ORIGIN, lat) > 0.0
  {
    OneTerm(Largest, s, ORIGIN, lat);
    OneTerm(Largest, s, end, back);
  }

  lemma OneTerm(m: Measure, s: Shift, p: Posn, lat: real)
    ensures ApplyAll([s], p, lat) == Applied(s, p, lat) && UndoAll([s], p, lat) == Undone(s, p, lat)
    ensures ApplyLength(m, [s], p, lat) == UndoLength(m, [s], p, lat) == m(s(p, lat))
  {
  }

  ghost const EVERYWHERE := iset p: Posn {:trigger p.ra} | true

  /* ---- The larger coordinate as the measure ---- */

  function Abs(x: real): real {
    if x < 0.0 then 0.0 - x else x
  }

  function Largest(p: Posn): real {
    if Abs(p.ra) < Abs(p.dec) then Abs(p.dec) else Abs(p.ra)
  }

  lemma LargestIsNorm()
    ensures IsNorm(Largest)
  {
  }

  lemma AbsProduct(x: real, y: real)
    ensures Abs(x * y) == Scaled(Abs(x), Abs(y))
  {
  }

  lemma StretchOfDifference(c: real, rad: real, x: real, y: real)
    ensures Stretch(c, rad, x) - Stretch(c, rad, y) == (c * rad) * (x - y)
  {
    assert Stretch(c, rad, x) == (c * rad) * x && Stretch(c, rad, y) == (c * rad) * y;
  }

  lemma ProductOfDifference(c: real, rad: real, x: real, y: real)
    ensures Abs(Stretch(c, rad, x) - Stretch(c, rad, y)) == Scaled(Abs(c * rad), Abs(x - y))
  {
    hide Stretch;
    StretchOfDifference(c, rad, x, y);
    AbsProduct(c * rad, x - y);
  }

  lemma LargestOfOne(x: real)
    ensures Largest(Posn(x, 0.0)) == Largest(Posn(0.0, x)) == Abs(x)
  {
  }

  lemma LargestCovers(p: Posn)
    ensures Abs(p.ra) <= Largest(p) && Abs(p.dec) <= Largest(p)
  {
  }

  lemma ScaleWithin(c: real, rad: real, x: real, y: real, reach: real)
    requires Abs(x - y) <= reach
    ensures Abs(Stretch(c, rad, x) - Stretch(c, rad, y)) <= Scaled(Abs(c * rad), reach)
  {
    ProductOfDifference(c, rad, x, y);
    ProductGrows(Abs(c * rad), Abs(x - y), reach);
  }

  lemma ScaledDifferences(c: real, rad: real, lat: real, p: Posn, q: Posn)
    ensures Minus(ScaleHour(c, rad)(p, lat), ScaleHour(c, rad)(q, lat))
         == Posn(Stretch(c, rad, p.ra) - Stretch(c, rad, q.ra), 0.0)
    ensures Minus(ScaleDeclination(c, rad)(p, lat), ScaleDeclination(c, rad)(q, lat))
         == Posn(0.0, Stretch(c, rad, p.dec) - Stretch(c, rad, q.dec))
  {
    hide Stretch;
  }

  lemma ScaledPair(c: real, rad: real, lat: real, p: Posn, q: Posn)
    ensures Abs(c * rad) >= 0.0
    ensures var reach := Scaled(Abs(c * rad), Largest(Minus(p, q)));
            && Largest(Minus(ScaleHour(c, rad)(p, lat), ScaleHour(c, rad)(q, lat))) <= reach
            && Largest(Minus(ScaleDeclination(c, rad)(p, lat), ScaleDeclination(c, rad)(q, lat))) <= reach
  {
    assert Minus(p, q) == Posn(p.ra - q.ra, p.dec - q.dec) && Abs(c * rad) >= 0.0;
    hide *;
    ScaledDifferences(c, rad, lat, p, q);
    LargestCovers(Minus(p, q));
    ScaleWithin(c, rad, p.ra, q.ra, Largest(Minus(p, q)));
    ScaleWithin(c, rad, p.dec, q.dec, Largest(Minus(p, q)));
    var x, y := Stretch(c, rad, p.ra) - Stretch(c, rad, q.ra), Stretch(c, rad, p.dec) - Stretch(c, rad, q.dec);
    LargestOfOne(x);
    LargestOfOne(y);
  }

  lemma ScaleTermsAreLipschitz(c: real, rad: real, lat: real)
    ensures Lipschitz(Largest, ScaleHour(c, rad), lat, Abs(c * rad), EVERYWHERE)
    ensures Lipschitz(Largest, ScaleDeclination(c, rad), lat, Abs(c * rad), EVERYWHERE)
  {
    hide Largest, Abs, ScaleHour, ScaleDeclination, Scaled;
    ScaledPair(c, rad, lat, ORIGIN, ORIGIN);
    forall p: Posn, q: Posn
      ensures Largest(Minus(ScaleHour(c, rad)(p, lat), ScaleHour(c, rad)(q, lat))) <= Scaled(Abs(c * rad), Largest(Minus(p, q)))
      ensures Largest(Minus(ScaleDeclination(c, rad)(p, lat), ScaleDeclination(c, rad)(q, lat)))
           <= Scaled(Abs(c * rad), Largest(Minus(p, q)))
    {
      ScaledPair(c, rad, lat, p, q);
    }
  }

  /** They stretch their own axis and leave the other. */
  lemma ScaleTermsStretch(c: real, rad: real, p: Posn, lat: real)
    ensures Applied(ScaleHour(c, rad), p, lat) == Posn(p.ra * (1.0 + c * rad), p.dec)
    ensures Applied(ScaleDeclination(c, rad), p, lat) == Posn(p.ra, p.dec * (1.0 + c * rad))
  {
    assert p.ra * (1.0 + c * rad) == p.ra + c * (p.ra * rad);
    assert p.dec * (1.0 + c * rad) == p.dec + c * (p.dec * rad);
  }

  /** So PHH and PDD meet the bound for one term, in both orders, everywhere. */
  lemma ScaleTermsInvert(c: real, rad: real, p: Posn, lat: real)
    ensures forall s :: s == ScaleHour(c, rad) || s == ScaleDeclination(c, rad) ==>
              && Largest(Minus(Undone(s, Applied(s, p, lat), lat), p)) <= Scaled(Abs(c * rad), Largest(s(p, lat)))
              && Largest(Minus(Applied(s, Undone(s, p, lat), lat), p)) <= Scaled(Abs(c * rad), Largest(s(p, lat)))
  {
    assert p in EVERYWHERE;
    LargestIsNorm();
    ScaleTermsAreLipschitz(c, rad, lat);
    forall s: Shift | s == ScaleHour(c, rad) || s == ScaleDeclination(c, rad)
      ensures Largest(Minus(Undone(s, Applied(s, p, lat), lat), p)) <= Scaled(Abs(c * rad), Largest(s(p, lat)))
      ensures Largest(Minus(Applied(s, Undone(s, p, lat), lat), p)) <= Scaled(Abs(c * rad), Largest(s(p, lat)))
    {
      assert Applied(s, p, lat) in EVERYWHERE && Undone(s, p, lat) in EVERYWHERE;
      hide *;
      InversionBound(Largest, s, p, lat, Abs(c * rad), EVERYWHERE);
    }
  }

  /** The bound cannot be improved: PHH reaches it everywhere. */
  lemma BoundIsReached(c: real, rad: real, p: Posn, lat: real)
    ensures var s := ScaleHour(c, rad);
            Largest(Minus(Undone(s, Applied(s, p, lat), lat), p)) == Scaled(Abs(c * rad), Largest(s(p, lat)))
  {
    var s := ScaleHour(c, rad);
    var q := Applied(s, p, lat);
    assert Minus(Undone(s, q, lat), p) == Minus(s(p, lat), s(q, lat));
    ProductOfDifference(c, rad, p.ra, q.ra);
    assert Abs(p.ra - q.ra) == Largest(s(p, lat));
  }

  /* ---- Constant terms in any order ---- */

  ghost function SumOf(ss: seq<Shift>, lat: real): Posn {
    if ss == [] then ORIGIN else Plus(ss[0](ORIGIN, lat), SumOf(ss[1..], lat))
  }

  ghost predicate AllConstant(ss: seq<Shift>, lat: real) {
    forall i :: 0 <= i < |ss| ==> Constant(ss[i], lat)
  }

  lemma {:induction false} ConstantsAddUp(ss: seq<Shift>, p: Posn, lat: real)
    requires AllConstant(ss, lat)
    ensures ApplyAll(ss, p, lat) == Plus(p, SumOf(ss, lat))
    ensures UndoAll(ss, p, lat) == Minus(p, SumOf(ss, lat))
  {
    if ss != [] {
      assert ss[0](p, lat) == ss[0](ORIGIN, lat);
      ConstantsAddUp(ss[1..], Applied(ss[0], p, lat), lat);
      ConstantsAddUp(ss[1..], Undone(ss[0], p, lat), lat);
    }
  }

  lemma {:induction false} SumWithout(ss: seq<Shift>, i: nat, lat: real)
    requires i < |ss|
    ensures SumOf(ss, lat) == Plus(ss[i](ORIGIN, lat), SumOf(ss[..i] + ss[i + 1..], lat))
  {
    if i == 0 {
      assert ss[..0] + ss[1..] == ss[1..];
    } else {
      SumWithout(ss[1..], i - 1, lat);
      assert (ss[..i] + ss[i + 1..])[1..] == ss[1..][..i - 1] + ss[1..][i..];
    }
  }

  lemma {:induction false} SumOfAnyOrder(ss: seq<Shift>, ts: seq<Shift>, lat: real)
    requires multiset(ss) == multiset(ts)
    ensures SumOf(ss, lat) == SumOf(ts, lat)
  {
    if ss == [] {
      assert |multiset(ts)| == 0;
    } else {
      assert ss[0] in multiset(ts);
      var i :| 0 <= i < |ts| && ts[i] == ss[0];
      SumWithout(ts, i, lat);
      assert ss == [ss[0]] + ss[1..];
      assert ts == ts[..i] + [ts[i]] + ts[i + 1..];
      var rest: seq<Shift> := ts[..i] + ts[i + 1..];
      assert multiset(ss) == multiset{ss[0]} + multiset(ss[1..]);
      assert multiset(ts) == multiset{ts[i]} + multiset(rest);
      assert multiset(ss[1..]) == multiset(ss) - multiset{ss[0]} == multiset(rest);
      SumOfAnyOrder(ss[1..], rest, lat);
    }
  }

  /** Constant terms applied in one order and reversed in any other miss, everywhere, by what their
  shifts add up to at the one latitude less what they add up to at the other. */
  lemma ConstantsMiss(ss: seq<Shift>, ts: seq<Shift>, p: Posn, lat: real, back: real)
    requires AllConstant(ss, lat) && AllConstant(ss, back) && multiset(ss) == multiset(ts)
    ensures UndoAll(ts, ApplyAll(ss, p, lat), back) == Plus(p, Minus(SumOf(ss, lat), SumOf(ss, back)))
  {
    forall i | 0 <= i < |ts|
      ensures Constant(ts[i], back)
    {
      assert ts[i] in multiset(ss);
    }
    ConstantsAddUp(ss, p, lat);
    ConstantsAddUp(ts, ApplyAll(ss, p, lat), back);
    SumOfAnyOrder(ss, ts, back);
  }

  /** They are undone exactly when they add up to the same at both latitudes. */
  lemma ConstantsCancelIff(ss: seq<Shift>, ts: seq<Shift>, p: Posn, lat: real, back: real)
    requires AllConstant(ss, lat) && AllConstant(ss, back) && multiset(ss) == multiset(ts)
    ensures UndoAll(ts, ApplyAll(ss, p, lat), back) == p <==> SumOf(ss, lat) == SumOf(ss, back)
  {
    ConstantsMiss(ss, ts, p, lat, back);
  }

  lemma {:induction false} SumIgnoresLatitude(ss: seq<Shift>, lat: real, back: real)
    requires forall i :: 0 <= i < |ss| ==> IgnoresLatitude(ss[i], lat, back)
    ensures SumOf(ss, lat) == SumOf(ss, back)
  {
    if ss != [] {
      assert IgnoresLatitude(ss[0], lat, back);
      SumIgnoresLatitude(ss[1..], lat, back);
    }
  }

  /** Zero points of the hour angle and the declination, as many as one likes, applied in one order and
  reversed in any other, are the identity. */
  lemma IndexTermsCancel(ss: seq<Shift>, ts: seq<Shift>, p: Posn, lat: real, back: real)
    requires multiset(ss) == multiset(ts)
    requires forall i :: 0 <= i < |ss| ==> exists c :: ss[i] == IndexHour(c) || ss[i] == IndexDeclination(c)
    ensures UndoAll(ts, ApplyAll(ss, p, lat), back) == p
  {
    forall i | 0 <= i < |ss|
      ensures Constant(ss[i], lat) && Constant(ss[i], back) && IgnoresLatitude(ss[i], lat, back)
    {
      var c :| ss[i] == IndexHour(c) || ss[i] == IndexDeclination(c);
    }
    SumIgnoresLatitude(ss, lat, back);
    ConstantsCancelIff(ss, ts, p, lat, back);
  }

  /* ---- The program ---- */

  class EquPosn {
    var ra: real
    var dec: real

    function Value(): Posn
      reads this
    {
      Posn(ra, dec)
    }
  }

  class TPointModelTerm {
    const shift: Shift

    constructor (shift: Shift)
      ensures this.shift == shift
    {
      this.shift := shift;
    }

    method Apply(pos: EquPosn, lat: real)
      modifies pos
      ensures pos.Value() == Applied(shift, old(pos.Value()), lat)
    {
      var delta := shift(Posn(pos.ra, pos.dec), lat);
      pos.ra := pos.ra + delta.ra;
      pos.dec := pos.dec + delta.dec;
    }

    method Reverse(pos: EquPosn, lat: real)
      modifies pos
      ensures pos.Value() == Undone(shift, old(pos.Value()), lat)
    {
      var oldRa, oldDec := pos.ra, pos.dec;
      Apply(pos, lat);
      pos.ra := 2.0 * oldRa - pos.ra;
      pos.dec := 2.0 * oldDec - pos.dec;
    }
  }

  function Shifts(terms: seq<TPointModelTerm>): (ss: seq<Shift>)
    ensures |ss| == |terms| && forall i :: 0 <= i < |ss| ==> ss[i] == terms[i].shift
  {
    seq(|terms|, i requires 0 <= i < |terms| => terms[i].shift)
  }

  /** The base class keeps the latitude twice, in degrees and in radians; applying the model passes the
  one to the terms, reversing it the other. */
  class TPointModel {
    const terms: seq<TPointModelTerm>
    const telLatitude: real
    const telLatitudeR: real

    constructor (terms: seq<TPointModelTerm>, latitude: real, radiansInDegree: real)
      ensures this.terms == terms && telLatitude == latitude && telLatitudeR == latitude * radiansInDegree
    {
      this.terms := terms;
      telLatitude, telLatitudeR := latitude, latitude * radiansInDegree;
    }

    method Apply(pos: EquPosn)
      modifies pos
      ensures pos.Value() == ApplyAll(Shifts(terms), old(pos.Value()), telLatitude)
    {
      ghost var ss := Shifts(terms);
      for i := 0 to |terms|
        invariant ApplyAll(ss[i..], pos.Value(), telLatitude) == ApplyAll(ss, old(pos.Value()), telLatitude)
      {
        assert ss[i..][1..] == ss[i + 1..];
        terms[i].Apply(pos, telLatitude);
      }
    }

    method Reverse(pos: EquPosn)
      modifies pos
      ensures pos.Value() == UndoAll(Shifts(terms), old(pos.Value()), telLatitudeR)
    {
      ghost var ss := Shifts(terms);
      for i := 0 to |terms|
        invariant UndoAll(ss[i..], pos.Value(), telLatitudeR) == UndoAll(ss, old(pos.Value()), telLatitudeR)
      {
        assert ss[i..][1..] == ss[i + 1..];
        var oldRa, oldDec := pos.ra, pos.dec;
        terms[i].Apply(pos, telLatitudeR);
        pos.ra := 2.0 * oldRa - pos.ra;
        pos.dec := 2.0 * oldDec - pos.dec;
      }
    }
  }
}
