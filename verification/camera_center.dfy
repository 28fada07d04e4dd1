/** Statistics of the center box: `updateCenter` of include/camd.h.

Doubles are reals; the cut level is a number (never NaN). */
module CameraCenter {
  import opened Options

  /** Integer division of C++, for a positive divisor. */
  function Quot(a: int, b: int): int
    requires b > 0
  {
    if a >= 0 then a / b else -((-a) / b)
  }

  /** ceil of the real quotient, for a positive divisor. */
  function CeilQuot(a: int, b: int): int
    requires b > 0
  {
    -((-a) / b)
  }

  /** The readout window on the chip and the binning. */
  datatype Geometry = Geometry(usedX: int, usedY: int, usedWidth: nat, usedHeight: nat, bh: int, bv: int) {
    predicate Valid() {
      bh > 0 && bv > 0
    }

    function WidthBinned(): int
      requires Valid()
    {
      Quot(usedWidth, bh)
    }

    function HeightBinned(): int
      requires Valid()
    {
      Quot(usedHeight, bv)
    }
  }

  /** A box on the chip; negative entries stand for the used window. */
  datatype Box = Box(x: int, y: int, w: int, h: int)

  /** The box relative to the window, or nothing when it is refused. */
  function Place(g: Geometry, box: Box): Option<Box>
    requires g.Valid()
  {
    var x0 := if box.x < 0 then g.usedX else box.x;
    var y0 := if box.y < 0 then g.usedY else box.y;
    var w0 := Quot(box.w, g.bh);
    var w := if w0 < 0 then Quot(g.usedWidth - (x0 - g.usedX), g.bh) else w0;
    var h0 := Quot(box.h, g.bv);
    var h := if h0 < 0 then Quot(g.usedHeight - (y0 - g.usedY), g.bv) else h0;
    var x, y := x0 - g.usedX, y0 - g.usedY;
    if x < 0 || y < 0 || w + CeilQuot(x, g.bh) > g.WidthBinned() || h + CeilQuot(y, g.bv) > g.HeightBinned()
    then None
    else Some(Box(x, y, w, h))
  }

  /** A box of negative entries, of at least a binned pixel, is the whole window. */
  lemma DefaultIsWindow(g: Geometry, x: int, y: int, w: int, h: int)
    requires g.Valid() && x < 0 && y < 0 && w <= -g.bh && h <= -g.bv
    ensures Place(g, Box(x, y, w, h)) == Some(Box(0, 0, g.usedWidth / g.bh, g.usedHeight / g.bv))
  {
    QuotIsNegative(w, g.bh);
    QuotIsNegative(h, g.bv);
    hide Quot, CeilQuot;
    QuotOfNatural(g.usedWidth, g.bh);
    QuotOfNatural(g.usedHeight, g.bv);
    QuotOfProduct(0, g.bh);
    QuotOfProduct(0, g.bv);
  }

  lemma QuotIsNegative(a: int, b: int)
    requires b > 0 && a <= -b
    ensures Quot(a, b) < 0
  {
    assert -a >= b;
    assert (-a) / b >= 1;
  }

  lemma QuotOfNatural(a: nat, b: int)
    requires b > 0
    ensures Quot(a, b) == a / b
  {
  }

  /** A column and a row of the chip are in the used window. */
  predicate InWindow(g: Geometry, x: int, y: int) {
    g.usedX <= x < g.usedX + g.usedWidth && g.usedY <= y < g.usedY + g.usedHeight
  }

  /** Without binning a box with pixels is accepted exactly when every one of them is in the window, and is
      moved to where the window begins. */
  lemma UnbinnedIsAcceptedIff(g: Geometry, box: Box)
    requires g.bh == 1 && g.bv == 1 && 0 <= box.x && 0 <= box.y && 0 < box.w && 0 < box.h
    ensures Place(g, box).Some? <==>
            forall x, y :: box.x <= x < box.x + box.w && box.y <= y < box.y + box.h ==> InWindow(g, x, y)
    ensures Place(g, box).Some? ==> Place(g, box).value == Box(box.x - g.usedX, box.y - g.usedY, box.w, box.h)
  {
    assert InWindow(g, box.x, box.y) && InWindow(g, box.x + box.w - 1, box.y + box.h - 1) ==> Place(g, box).Some?;
  }

  /** Negative entries: a start is that of the window, a size what the window has left from there. Without
      binning a box is accepted exactly when it begins and ends inside. */
  lemma NegativeIsWindow(g: Geometry, box: Box)
    requires g.bh == 1 && g.bv == 1
    ensures var x := if box.x < 0 then 0 else box.x - g.usedX;
            var y := if box.y < 0 then 0 else box.y - g.usedY;
            var w := if box.w < 0 then g.usedWidth - x else box.w;
            var h := if box.h < 0 then g.usedHeight - y else box.h;
            Place(g, box) == if 0 <= x && 0 <= y && x + w <= g.usedWidth && y + h <= g.usedHeight
                             then Some(Box(x, y, w, h)) else None
  {
  }

  /** With binning: `u` and `v` are the binned column and row in which the box begins, or behind which it does if
      it does not begin with one. */
  lemma BinnedIsAcceptedIff(g: Geometry, box: Box, u: int, v: int)
    requires g.Valid() && 0 <= box.x && 0 <= box.y && 0 <= box.w && 0 <= box.h
    requires g.bh * (u - 1) < box.x - g.usedX <= g.bh * u && g.bv * (v - 1) < box.y - g.usedY <= g.bv * v
    ensures Place(g, box) == if g.usedX <= box.x && g.usedY <= box.y
                                && u + box.w / g.bh <= g.usedWidth / g.bh && v + box.h / g.bv <= g.usedHeight / g.bv
                             then Some(Box(box.x - g.usedX, box.y - g.usedY, box.w / g.bh, box.h / g.bv)) else None
  {
    CeilQuotIs(box.x - g.usedX, g.bh, u);
    CeilQuotIs(box.y - g.usedY, g.bv, v);
    assert 0 <= box.w / g.bh && 0 <= box.h / g.bv;
  }

  lemma CeilQuotIs(x: int, b: int, q: int)
    requires b > 0 && b * (q - 1) < x <= b * q
    ensures CeilQuot(x, b) == q
  {
    CeilQuotSpan(x, b);
    var p := CeilQuot(x, b);
    hide CeilQuot;
    SameQuot(b, p, q);
    SameQuot(b, q, p);
  }

  lemma SameQuot(b: int, p: int, q: int)
    requires b > 0 && b * (p - 1) < b * q
    ensures p <= q
  {
    assert p - 1 >= q ==> b * (p - 1) >= b * q;
  }

  /** Offset of the first pixel that is visited. */
  function First(g: Geometry, b: Box): int
    requires g.Valid()
  {
    b.y * g.WidthBinned() + b.x
  }

  /** Offset of the pixel visited in a row and column of the box: the walk goes on without a stride. */
  function Visited(g: Geometry, b: Box, row: int, col: int): int
    requires g.Valid()
  {
    First(g, b) + row * b.w + col
  }

  /* ---- Where the walk goes ---- */

  lemma Smaller(row: int, col: int, w: int, h: int)
    requires 0 <= row < h && 0 <= col < w
    ensures 0 <= row * w + col < h * w
  {
    assert (row + 1) * w <= h * w;
  }

  /** Every visited pixel is a pixel of the frame. */
  ghost predicate StaysInFrame(g: Geometry, b: Box)
    requires g.Valid()
  {
    forall row, col | 0 <= row < b.h && 0 <= col < b.w ::
      0 <= Visited(g, b, row, col) < g.WidthBinned() * g.HeightBinned()
  }

  lemma InRectangle(x: int, y: int, row: int, col: int, w: int, h: int, width: int, height: int)
    requires 0 <= x && 0 <= y && x + w <= width && y + h <= height && 0 <= row < h && 0 <= col < w
    ensures 0 <= y * width + x + row * w + col < width * height
  {
    Smaller(y + row, x + col, width, height);
    assert (y + row) * width == y * width + row * width;
    assert 0 <= y * width && 0 <= row * w <= row * width;
  }

  lemma UnbinnedStaysInFrame(g: Geometry, box: Box)
    requires g.Valid() && g.bh == 1 && g.bv == 1 && Place(g, box).Some?
    ensures StaysInFrame(g, Place(g, box).value)
  {
    var b := Place(g, box).value;
    forall row, col | 0 <= row < b.h && 0 <= col < b.w
      ensures 0 <= Visited(g, b, row, col) < g.WidthBinned() * g.HeightBinned()
    {
      InRectangle(b.x, b.y, row, col, b.w, b.h, g.WidthBinned(), g.HeightBinned());
    }
  }

  /** The guard keeps the walk inside the frame for every box and every window exactly when the
      camera does not bin: the start of the walk is not scaled by the binning. */
  lemma InFrameIffUnbinned(bh: int, bv: int)
    requires bh > 0 && bv > 0
    ensures (forall g: Geometry, box: Box | g.bh == bh && g.bv == bv && Place(g, box).Some? ::
               StaysInFrame(g, Place(g, box).value))
            <==> bh == 1 && bv == 1
  {
    if bh == 1 && bv == 1 {
      forall g: Geometry, box: Box | g.bh == bh && g.bv == bv && Place(g, box).Some?
        ensures StaysInFrame(g, Place(g, box).value)
      {
        UnbinnedStaysInFrame(g, box);
      }
    } else if bv > 1 {
      var g, box := Geometry(0, 0, bh, 2 * bv, bh, bv), Box(0, bv, bh, bv);
      QuotOfProduct(1, bh);
      QuotOfProduct(1, bv);
      QuotOfProduct(2, bv);
      assert Place(g, box) == Some(Box(0, bv, 1, 1));
      assert Visited(g, Box(0, bv, 1, 1), 0, 0) == bv;
      assert !StaysInFrame(g, Place(g, box).value);
    } else {
      var g, box := Geometry(0, 0, 2 * bh, 1, bh, bv), Box(bh, 0, bh, 1);
      QuotOfProduct(1, bh);
      QuotOfProduct(2, bh);
      assert Place(g, box) == Some(Box(bh, 0, 1, 1));
      assert Visited(g, Box(bh, 0, 1, 1), 0, 0) == bh;
      assert !StaysInFrame(g, Place(g, box).value);
    }
  }

  lemma QuotOfProduct(k: nat, b: int)
    requires b > 0
    ensures Quot(k * b, b) == k && CeilQuot(k * b, b) == k
  {
    assert -(k * b) == (0 - k) * b;
  }

  /** For one box: the walk stays inside the frame exactly when its end does. */
  lemma InFrameIffEndIs(g: Geometry, b: Box)
    requires g.Valid() && b.w > 0 && b.h > 0
    ensures StaysInFrame(g, b) <==> 0 <= First(g, b) && First(g, b) + b.h * b.w <= g.WidthBinned() * g.HeightBinned()
  {
    Smaller(b.h - 1, b.w - 1, b.w, b.h);
    assert (b.h - 1) * b.w + (b.w - 1) == b.h * b.w - 1;
    assert StaysInFrame(g, b) ==>
        0 <= Visited(g, b, 0, 0) && Visited(g, b, b.h - 1, b.w - 1) < g.WidthBinned() * g.HeightBinned();
    forall row, col | 0 <= row < b.h && 0 <= col < b.w
      ensures First(g, b) <= Visited(g, b, row, col) < First(g, b) + b.h * b.w
    {
      Smaller(row, col, b.w, b.h);
    }
  }

  /** Offset of the pixel in a row and column of the box that is described, whose start is a chip
      coordinate and is binned like the guard bins it. */
  function Described(g: Geometry, b: Box, row: int, col: int): int
    requires g.Valid()
  {
    (CeilQuot(b.y, g.bv) + row) * g.WidthBinned() + (CeilQuot(b.x, g.bh) + col)
  }

  /** Binning leaves a coordinate where it is. */
  predicate Unscaled(x: int, b: int) {
    b == 1 || x <= 1
  }

  lemma CeilQuotSpan(x: int, b: int)
    requires b > 0
    ensures b * CeilQuot(x, b) >= x > b * (CeilQuot(x, b) - 1)
  {
    var q := CeilQuot(x, b);
    assert -x == b * ((-x) / b) + (-x) % b;
    assert b * ((-x) / b) == -(b * q) && b * (q - 1) == b * q - b;
  }

  lemma ProductSign(b: int, p: int)
    requires b > 0
    ensures p <= 0 ==> b * p <= p
    ensures p >= 0 ==> b * p >= p
    ensures b >= 2 && p >= 0 ==> b * p >= 2 * p
  {
  }

  lemma CeilQuotIsLess(x: int, b: int)
    requires b > 0 && x >= 0
    ensures 0 <= CeilQuot(x, b) <= x
    ensures CeilQuot(x, b) == x <==> Unscaled(x, b)
  {
    var q := CeilQuot(x, b);
    CeilQuotSpan(x, b);
    hide CeilQuot;
    ProductSign(b, q);
    ProductSign(b, q - 1);
  }

  lemma StartsApart(x: int, y: int, u: int, v: int, w: int)
    requires 0 <= u <= x && 0 <= v <= y && w > 0
    ensures y * w + x == v * w + u <==> y == v && x == u
  {
    ProductSign(w, y - v);
    assert y * w - v * w == w * (y - v);
  }

  /** For a box that the guard accepts: the visited pixels are those of the box that was described exactly
      when binning leaves its start where it is, and it has one row or spans the frame. */
  lemma RectangleIff(g: Geometry, box: Box)
    requires g.Valid() && Place(g, box).Some? && Place(g, box).value.w > 0 && Place(g, box).value.h > 0
    ensures var b := Place(g, box).value;
            (forall row, col | 0 <= row < b.h && 0 <= col < b.w :: Visited(g, b, row, col) == Described(g, b, row, col))
            <==> Unscaled(b.x, g.bh) && Unscaled(b.y, g.bv) && (b.h == 1 || b.w == g.WidthBinned())
  {
    var b, w := Place(g, box).value, g.WidthBinned();
    var u, v := CeilQuot(b.x, g.bh), CeilQuot(b.y, g.bv);
    CeilQuotIsLess(b.x, g.bh);
    CeilQuotIsLess(b.y, g.bv);
    StartsApart(b.x, b.y, u, v, w);
    forall row: int, col: int
      ensures Visited(g, b, row, col) == b.y * w + b.x + row * b.w + col
      ensures Described(g, b, row, col) == v * w + u + row * w + col
    {
      assert (v + row) * w == v * w + row * w;
    }
    if forall row, col | 0 <= row < b.h && 0 <= col < b.w :: Visited(g, b, row, col) == Described(g, b, row, col) {
      assert Visited(g, b, 0, 0) == Described(g, b, 0, 0);
      assert b.h > 1 ==> Visited(g, b, 1, 0) == Described(g, b, 1, 0);
    }
  }

  lemma HalvedNumbers()
    ensures Quot(10, 1) == 10 && Quot(20, 2) == 10 && Quot(2, 2) == 1
    ensures CeilQuot(0, 1) == 0 && CeilQuot(4, 2) == 2
  {
  }

  /** A row of a binned frame that the guard accepts, and the walk takes from two rows further down. */
  lemma BinnedRowIsMissed()
    ensures var g, b := Geometry(0, 0, 10, 20, 1, 2), Box(0, 4, 10, 1);
            && Place(g, Box(0, 4, 10, 2)) == Some(b)
            && Visited(g, b, 0, 0) == 40 && Described(g, b, 0, 0) == 20
            && First(g, b) + b.h * b.w <= g.WidthBinned() * g.HeightBinned()
  {
    hide Quot, CeilQuot;
    HalvedNumbers();
  }

  /* ---- What is computed ---- */

  function Keep(v: real, cut: real): real {
    if v >= cut then v else 0.0
  }

  /** Sum and number of the pixels from the cut level up, and the greatest of them and the level. */
  datatype Stats = Stats(sum: real, count: nat, top: real)

  function More(s: Stats, v: real, cut: real): Stats {
    if v < cut then s else Stats(s.sum + v, s.count + 1, if v > s.top then v else s.top)
  }

  function Scan(px: seq<real>, cut: real): (s: Stats)
    ensures s.top >= cut
  {
    if px == [] then Stats(0.0, 0, cut) else More(Scan(px[..|px| - 1], cut), px[|px| - 1], cut)
  }

  lemma ScanSnoc(px: seq<real>, v: real, cut: real)
    ensures Scan(px + [v], cut) == More(Scan(px, cut), v, cut)
  {
    assert (px + [v])[..|px|] == px;
  }

  lemma {:induction false} TopIsGreatest(px: seq<real>, cut: real)
    ensures var top := Scan(px, cut).top;
      && (forall i | 0 <= i < |px| :: top >= px[i])
      && (top == cut || exists i :: 0 <= i < |px| && px[i] == top)
  {
    if px != [] {
      var n := |px| - 1;
      var before := px[..n];
      TopIsGreatest(before, cut);
      if Scan(px, cut).top == Scan(before, cut).top != cut {
        var i :| 0 <= i < n && before[i] == Scan(before, cut).top;
        assert px[i] == before[i];
      }
    }
  }

  lemma {:induction false} CountIsNumber(px: seq<real>, cut: real)
    ensures Scan(px, cut).count == |set i | 0 <= i < |px| && px[i] >= cut|
  {
    if px != [] {
      var n := |px| - 1;
      CountIsNumber(px[..n], cut);
      var before := set i | 0 <= i < n && px[..n][i] >= cut;
      var all := set i | 0 <= i < |px| && px[i] >= cut;
      assert all == if px[n] >= cut then before + {n} else before;
    }
  }

  lemma {:induction false} SumConcat(a: seq<real>, b: seq<real>, cut: real)
    ensures Scan(a + b, cut).sum == Scan(a, cut).sum + Scan(b, cut).sum
  {
    if b == [] {
      assert a + b == a;
    } else {
      assert (a + b)[..|a + b| - 1] == a + b[..|b| - 1];
      SumConcat(a, b[..|b| - 1], cut);
    }
  }

  function Total(v: seq<real>): real {
    if v == [] then 0.0 else Total(v[..|v| - 1]) + v[|v| - 1]
  }

  lemma {:induction false} TotalConcat(a: seq<real>, b: seq<real>)
    ensures Total(a + b) == Total(a) + Total(b)
  {
    if b == [] {
      assert a + b == a;
    } else {
      assert (a + b)[..|a + b| - 1] == a + b[..|b| - 1];
      TotalConcat(a, b[..|b| - 1]);
    }
  }

  /** The pixels from the cut level up, as they are. */
  function Kept(px: seq<real>, cut: real): seq<real> {
    if px == [] then []
    else Kept(px[..|px| - 1], cut) + if px[|px| - 1] >= cut then [px[|px| - 1]] else []
  }

  /** All of them, as often as they are there, and nothing else. */
  lemma {:induction false} KeptAreKept(px: seq<real>, cut: real)
    ensures forall v :: multiset(Kept(px, cut))[v] == if v >= cut then multiset(px)[v] else 0
  {
    if px != [] {
      var n := |px| - 1;
      KeptAreKept(px[..n], cut);
      assert px == px[..n] + [px[n]];
      assert multiset(px) == multiset(px[..n]) + multiset{px[n]};
    }
  }

  /** Sum and number are those of the pixels that are kept. */
  lemma {:induction false} SumIsTotal(px: seq<real>, cut: real)
    ensures Scan(px, cut).sum == Total(Kept(px, cut)) && Scan(px, cut).count == |Kept(px, cut)|
  {
    if px != [] {
      var n := |px| - 1;
      SumIsTotal(px[..n], cut);
      TotalConcat(Kept(px[..n], cut), if px[n] >= cut then [px[n]] else []);
      assert Total([px[n]]) == px[n];
    }
  }

  /** The pixels of a column, from the first row down. */
  function Column(rows: seq<seq<real>>, c: nat): (px: seq<real>)
    requires forall r | 0 <= r < |rows| :: c < |rows[r]|
    ensures |px| == |rows| && forall r | 0 <= r < |rows| :: px[r] == rows[r][c]
  {
    seq(|rows|, r requires 0 <= r < |rows| && c < |rows[r]| => rows[r][c])
  }

  lemma {:induction false} ColumnSumIsTotal(rows: seq<seq<real>>, c: nat, cut: real)
    requires forall r | 0 <= r < |rows| :: c < |rows[r]|
    ensures ColumnSum(rows, c, cut) == Total(Kept(Column(rows, c), cut))
  {
    if rows != [] {
      var n := |rows| - 1;
      ColumnSumIsTotal(rows[..n], c, cut);
      var px := Column(rows, c);
      assert px[..n] == Column(rows[..n], c);
      TotalConcat(Kept(px[..n], cut), if px[n] >= cut then [px[n]] else []);
      assert Total([px[n]]) == px[n];
    }
  }

  /** Both projections and their common total, as plain sums of the pixels that are kept. */
  ghost predicate AreProjections(
      sumsX: seq<real>, sumsY: seq<real>, sum: real, number: nat, rows: seq<seq<real>>, w: nat, cut: real)
    requires forall r | 0 <= r < |rows| :: |rows[r]| == w
  {
    && |sumsX| == w && (forall c | 0 <= c < w :: sumsX[c] == Total(Kept(Column(rows, c), cut)))
    && |sumsY| == |rows| && (forall r | 0 <= r < |rows| :: sumsY[r] == Total(Kept(rows[r], cut)))
    && sum == Total(Kept(Flatten(rows), cut)) == Total(sumsX) == Total(sumsY)
    && number == |Kept(Flatten(rows), cut)|
  }

  lemma ProjectionsAre(rows: seq<seq<real>>, w: nat, cut: real)
    requires forall r | 0 <= r < |rows| :: |rows[r]| == w
    ensures var all := Scan(Flatten(rows), cut);
            AreProjections(ColumnSums(rows, w, cut), RowSums(rows, cut), all.sum, all.count, rows, w, cut)
  {
    ProjectionsAgree(rows, w, cut);
    SumIsTotal(Flatten(rows), cut);
    forall c | 0 <= c < w {
      ColumnSumIsTotal(rows, c, cut);
    }
    forall r | 0 <= r < |rows| {
      SumIsTotal(rows[r], cut);
    }
  }

  function RowSums(rows: seq<seq<real>>, cut: real): seq<real> {
    seq(|rows|, r requires 0 <= r < |rows| => Scan(rows[r], cut).sum)
  }

  function ColumnSum(rows: seq<seq<real>>, c: nat, cut: real): real
    requires forall r | 0 <= r < |rows| :: c < |rows[r]|
  {
    if rows == [] then 0.0
    else ColumnSum(rows[..|rows| - 1], c, cut) + Keep(rows[|rows| - 1][c], cut)
  }

  function ColumnSums(rows: seq<seq<real>>, w: nat, cut: real): seq<real>
    requires forall r | 0 <= r < |rows| :: |rows[r]| == w
  {
    seq(w, c requires 0 <= c < w && (forall r | 0 <= r < |rows| :: |rows[r]| == w) => ColumnSum(rows, c, cut))
  }

  function Flatten(rows: seq<seq<real>>): seq<real> {
    if rows == [] then [] else Flatten(rows[..|rows| - 1]) + rows[|rows| - 1]
  }

  lemma {:induction false} RowSumsTotal(rows: seq<seq<real>>, cut: real)
    ensures Total(RowSums(rows, cut)) == Scan(Flatten(rows), cut).sum
  {
    if rows != [] {
      var front := rows[..|rows| - 1];
      RowSumsTotal(front, cut);
      assert RowSums(rows, cut)[..|rows| - 1] == RowSums(front, cut);
      SumConcat(Flatten(front), rows[|rows| - 1], cut);
    }
  }

  lemma {:induction false} AddRow(sums: seq<real>, row: seq<real>, more: seq<real>, cut: real)
    requires |sums| == |row| == |more|
    requires forall c | 0 <= c < |row| :: more[c] == sums[c] + Keep(row[c], cut)
    ensures Total(more) == Total(sums) + Scan(row, cut).sum
  {
    if row != [] {
      var n := |row| - 1;
      AddRow(sums[..n], row[..n], more[..n], cut);
    }
  }

  lemma {:induction false} ZeroTotal(sums: seq<real>)
    requires forall c | 0 <= c < |sums| :: sums[c] == 0.0
    ensures Total(sums) == 0.0
  {
    if sums != [] {
      ZeroTotal(sums[..|sums| - 1]);
    }
  }

  lemma {:induction false} ColumnSumsTotal(rows: seq<seq<real>>, w: nat, cut: real)
    requires forall r | 0 <= r < |rows| :: |rows[r]| == w
    ensures Total(ColumnSums(rows, w, cut)) == Scan(Flatten(rows), cut).sum
  {
    if rows == [] {
      ZeroTotal(ColumnSums(rows, w, cut));
    } else {
      var front, last := rows[..|rows| - 1], rows[|rows| - 1];
      ColumnSumsTotal(front, w, cut);
      AddRow(ColumnSums(front, w, cut), last, ColumnSums(rows, w, cut), cut);
      SumConcat(Flatten(front), last, cut);
    }
  }

  lemma RowsSnoc(rows: seq<seq<real>>, row: seq<real>, cut: real)
    requires forall r | 0 <= r < |rows| :: |rows[r]| == |row|
    ensures Flatten(rows + [row]) == Flatten(rows) + row
    ensures RowSums(rows + [row], cut) == RowSums(rows, cut) + [Scan(row, cut).sum]
    ensures forall c | 0 <= c < |row| :: ColumnSum(rows + [row], c, cut) == ColumnSum(rows, c, cut) + Keep(row[c], cut)
  {
    assert (rows + [row])[..|rows|] == rows;
  }

  /** Both projections have the same total, which is the sum of the visited pixels above the cut. */
  lemma ProjectionsAgree(rows: seq<seq<real>>, w: nat, cut: real)
    requires forall r | 0 <= r < |rows| :: |rows[r]| == w
    ensures Total(RowSums(rows, cut)) == Total(ColumnSums(rows, w, cut)) == Scan(Flatten(rows), cut).sum
  {
    RowSumsTotal(rows, cut);
    ColumnSumsTotal(rows, w, cut);
  }

  /** One row of the walk. */
  function BoxRow(g: Geometry, b: Box, data: seq<real>, r: int): (row: seq<real>)
    requires Readable(g, b, data) && 0 <= r < b.h
    ensures |row| == b.w
    ensures forall c | 0 <= c < b.w :: Visited(g, b, r, c) < |data| && row[c] == data[Visited(g, b, r, c)]
  {
    RowBounds(b.w, r, b.h);
    data[Visited(g, b, r, 0)..Visited(g, b, r, 0) + b.w]
  }

  /** The rows that the walk visits. */
  function BoxRows(g: Geometry, b: Box, data: seq<real>): (rows: seq<seq<real>>)
    requires Readable(g, b, data)
    ensures |rows| == Height(b)
    ensures forall r | 0 <= r < |rows| :: rows[r] == BoxRow(g, b, data, r)
  {
    seq(Height(b), r requires 0 <= r < b.h && Readable(g, b, data) => BoxRow(g, b, data, r))
  }

  function Height(b: Box): nat {
    if b.h < 0 then 0 else b.h
  }

  lemma RowBounds(w: nat, r: int, h: int)
    requires 0 <= r < h
    ensures 0 <= r * w && r * w + w <= h * w
  {
    assert (r + 1) * w <= h * w;
  }

  /** The box has a width that an array can have, and its walk ends inside the data. */
  predicate Readable(g: Geometry, b: Box, data: seq<real>) {
    g.Valid() && 0 <= b.w && 0 <= First(g, b) && First(g, b) + b.h * b.w <= |data|
  }

  /** The rows lie one behind the other in the data. */
  ghost predicate AreRows(rows: seq<seq<real>>, starts: seq<int>, w: nat, data: seq<real>) {
    && |starts| == |rows| + 1
    && forall r {:trigger rows[r]} | 0 <= r < |rows| ::
         && 0 <= starts[r] && starts[r + 1] == starts[r] + w <= |data|
         && |rows[r]| == w && rows[r] == data[starts[r]..starts[r] + w]
  }

  lemma RowStarts(g: Geometry, b: Box, data: seq<real>) returns (starts: seq<int>)
    requires Readable(g, b, data)
    ensures AreRows(BoxRows(g, b, data), starts, b.w, data) && starts[0] == First(g, b)
  {
    starts := seq(Height(b) + 1, r => Visited(g, b, r, 0));
    forall r | 0 <= r < Height(b)
      ensures 0 <= starts[r] && starts[r + 1] == starts[r] + b.w <= |data|
    {
      RowBounds(b.w, r, b.h);
      assert (r + 1) * b.w == r * b.w + b.w;
    }
  }

  class Camera {
    var sumsX: seq<real>
    var sumsY: seq<real>
    var centerMax: real
    var centerAvg: real

    /** The inner loop: adds one row to the column sums, and tells its sum. */
    method WalkRow(row: seq<real>, cut: real, sx: array<real>, npix0: nat, top0: real, ghost seen: seq<real>)
      returns (rs: real, npix: nat, top: real)
      requires sx.Length == |row|
      requires npix0 == Scan(seen, cut).count && top0 == Scan(seen, cut).top
      modifies sx
      ensures rs == Scan(row, cut).sum
      ensures npix == Scan(seen + row, cut).count && top == Scan(seen + row, cut).top
      ensures forall c | 0 <= c < |row| :: sx[c] == old(sx[c]) + Keep(row[c], cut)
    {
      rs, npix, top := 0.0, npix0, top0;
      ghost var mine, all := row[..0], seen;
      for col := 0 to |row|
        invariant mine == row[..col] && all == seen + mine
        invariant rs == Scan(mine, cut).sum
        invariant npix == Scan(all, cut).count && top == Scan(all, cut).top
        invariant forall c | 0 <= c < |row| :: sx[c] == old(sx[c]) + if c < col then Keep(row[c], cut) else 0.0
      {
        var v := row[col];
        ScanSnoc(mine, v, cut);
        ScanSnoc(all, v, cut);
        if v >= cut {
          sx[col] := sx[col] + v;
          rs := rs + v;
          npix := npix + 1;
          if v > top {
            top := v;
          }
        }
        mine, all := mine + [v], all + [v];
      }
      assert row[..|row|] == row;
    }

    /** Returns -1 and changes nothing when the box is refused. */
    method UpdateCenter(g: Geometry, box: Box, cut: real, data: seq<real>) returns (ret: int)
      requires g.Valid() && (Place(g, box).Some? ==> Readable(g, Place(g, box).value, data))
      modifies this
      ensures Place(g, box).None? ==> ret == -1 && unchanged(this)
      ensures Place(g, box).Some? ==>
                var b := Place(g, box).value;
                var rows := BoxRows(g, b, data);
                var all := Scan(Flatten(rows), cut);
                && ret == 0
                && AreProjections(sumsX, sumsY, all.sum, all.count, rows, b.w, cut)
                && centerMax == all.top
                && centerAvg == if all.count > 0 then all.sum / all.count as real else 0.0
    {
      var place := Place(g, box);
      if place.None? {
        return -1;
      }
      var b := place.value;
      ghost var rows := BoxRows(g, b, data);
      ghost var starts := RowStarts(g, b, data);
      ret := Project(First(g, b), b.w, b.h, cut, data, rows, starts);
      ProjectionsAre(rows, b.w, cut);
    }

    /** The computation, for a box that is not refused. */
    method Project(first: int, w: nat, h: int, cut: real, data: seq<real>,
                   ghost rows: seq<seq<real>>, ghost starts: seq<int>) returns (ret: int)
      requires |rows| == (if h < 0 then 0 else h) && AreRows(rows, starts, w, data) && first == starts[0]
      modifies this
      ensures var all := Scan(Flatten(rows), cut);
        && ret == 0
        && sumsX == ColumnSums(rows, w, cut)
        && sumsY == RowSums(rows, cut)
        && Total(sumsX) == Total(sumsY) == all.sum
        && centerMax == all.top
        && centerAvg == if all.count > 0 then all.sum / all.count as real else 0.0
    {
      var sx := new real[w](_ => 0.0);
      var avg, npix, top := Walk(first, w, h, cut, data, sx, rows, starts);
      ProjectionsAgree(rows, w, cut);
      sumsX := [];
      for i := 0 to w
        modifies this`sumsX
        invariant sumsX == sx[..i]
      {
        sumsX := sumsX + [sx[i]];
      }
      assert sumsX == ColumnSums(rows, w, cut);
      centerMax := top;
      if npix > 0 {
        avg := avg / npix as real;
        centerAvg := avg;
      } else {
        centerAvg := 0.0;
      }
      ret := 0;
    }

    /** The outer loop: collects the row sums in `sumsY` and the column sums in `sx`. */
    method Walk(first: int, w: nat, h: int, cut: real, data: seq<real>, sx: array<real>,
                ghost rows: seq<seq<real>>, ghost starts: seq<int>)
      returns (sum: real, npix: nat, top: real)
      requires |rows| == (if h < 0 then 0 else h) && AreRows(rows, starts, w, data) && first == starts[0]
      requires sx.Length == w && forall c | 0 <= c < w :: sx[c] == 0.0
      modifies this`sumsY, sx
      ensures sumsY == RowSums(rows, cut)
      ensures Stats(sum, npix, top) == Scan(Flatten(rows), cut)
      ensures forall c | 0 <= c < w :: sx[c] == ColumnSum(rows, c, cut)
    {
      sum, npix, top := 0.0, 0, cut;
      var tData := first;
      sumsY := [];
      hide Keep, More;
      ghost var done: seq<seq<real>>, seen: seq<real> := [], [];
      var row := 0;
      while row < h
        invariant 0 <= row <= |rows| && done == rows[..row] && tData == starts[row]
        invariant seen == Flatten(done) && sumsY == RowSums(done, cut)
        invariant sum == Scan(seen, cut).sum && npix == Scan(seen, cut).count && top == Scan(seen, cut).top
        invariant forall c | 0 <= c < w :: sx[c] == ColumnSum(done, c, cut)
      {
        ghost var visited := rows[row];
        var line := data[tData..tData + w];
        var rs;
        rs, npix, top := WalkRow(line, cut, sx, npix, top, seen);
        ghost var next := rows[..row + 1];
        assert line == visited && next == done + [visited];
        assert Flatten(next) == seen + line && RowSums(next, cut) == sumsY + [rs] by {
          RowsSnoc(done, line, cut);
        }
        assert Scan(seen + line, cut).sum == sum + rs by {
          SumConcat(seen, line, cut);
        }
        assert forall c | 0 <= c < w :: sx[c] == ColumnSum(next, c, cut) by {
          RowsSnoc(done, line, cut);
        }
        seen, done := seen + line, next;
        tData := tData + w;
        sumsY := sumsY + [rs];
        sum := sum + rs;
        row := row + 1;
      }
      assert done == rows;
    }
  }
}
