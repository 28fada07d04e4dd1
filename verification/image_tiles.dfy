/** Image tiling and box painting of checks/check_sep.cpp. Images are arrays of rows; pixels are reals. */
module ImageTiles {
  /** Pixel (r, c) of an image with rows of `w` pixels. */
  function At(r: nat, c: nat, w: nat): nat {
    r * w + c
  }

  lemma AtInImage(r: nat, c: nat, w: nat, h: nat)
    requires r < h && c < w
    ensures At(r, c, w) < w * h
  {
    assert (r + 1) * w <= h * w;
  }

  lemma SmallMultiple(d: int, w: int)
    requires 0 - w < d * w < w
    ensures d == 0
  {
    assert d >= 1 ==> d * w >= w;
    assert d <= -1 ==> d * w <= (-1) * w;
  }

  lemma DivMod(r: int, c: int, w: int)
    requires 0 <= c < w
    ensures (r * w + c) / w == r && (r * w + c) % w == c
  {
    var q, m := (r * w + c) / w, (r * w + c) % w;
    assert q * w + m == r * w + c;
    assert (q - r) * w == q * w - r * w;
    SmallMultiple(q - r, w);
  }

  lemma Bounds(i: nat, w: nat, h: nat)
    requires i < w * h
    ensures w > 0 && h > 0 && i / w < h
  {
    assert w == 0 ==> w * h == 0;
    assert h == 0 ==> w * h == 0;
    var q := i / w;
    assert q * w <= i;
    assert q >= h ==> q * w >= h * w;
  }

  /** `out` is `im` (ny rows of nx pixels) laid out ntx times to the right and nty times down. */
  ghost predicate IsTiling(out: seq<real>, im: seq<real>, nx: nat, ny: nat, ntx: nat, nty: nat)
    requires |im| == nx * ny
  {
    && |out| == (ntx * nx) * (nty * ny)
    && forall r: nat, c: nat | r < nty * ny && c < ntx * nx :: Periodic(out, im, nx, ny, ntx * nx, r, c)
  }

  ghost predicate Periodic(out: seq<real>, im: seq<real>, nx: nat, ny: nat, w: nat, r: nat, c: nat) {
    nx > 0 && ny > 0 && At(r, c, w) < |out| && At(r % ny, c % nx, nx) < |im| && out[At(r, c, w)] == im[At(r % ny, c % nx, nx)]
  }

  method TileFlt(im: array<real>, nx: nat, ny: nat, ntilex: nat, ntiley: nat)
    returns (imout: array<real>, nxout: nat, nyout: nat)
    requires im.Length == nx * ny
    ensures nxout == ntilex * nx && nyout == ntiley * ny
    ensures fresh(imout) && IsTiling(imout[..], im[..], nx, ny, ntilex, ntiley)
  {
    nxout := ntilex * nx;
    nyout := ntiley * ny;
    var npixout := nxout * nyout;
    imout := new real[npixout];
    for i := 0 to npixout
      invariant forall k | 0 <= k < i :: Tile(imout[k], im[..], k, nxout, nx, ny)
    {
      Bounds(i, nxout, nyout);
      NonZero(ntilex, nx);
      NonZero(ntiley, ny);
      var x := (i % nxout) % nx;
      var y := (i / nxout) % ny;
      AtInImage(y, x, nx, ny);
      imout[i] := im[y * nx + x];
    }
    forall r: nat, c: nat | r < nyout && c < nxout ensures Periodic(imout[..], im[..], nx, ny, nxout, r, c) {
      AtInImage(r, c, nxout, nyout);
      DivMod(r, c, nxout);
      assert Tile(imout[At(r, c, nxout)], im[..], At(r, c, nxout), nxout, nx, ny);
    }
  }

  /** The value that the loop gives to output pixel `i`. */
  ghost predicate Tile(v: real, im: seq<real>, i: nat, w: nat, nx: nat, ny: nat) {
    && w > 0 && nx > 0 && ny > 0
    && At((i / w) % ny, (i % w) % nx, nx) < |im|
    && v == im[At((i / w) % ny, (i % w) % nx, nx)]
  }

  lemma NonZero(a: nat, b: nat)
    requires a * b > 0
    ensures a > 0 && b > 0
  {
  }

  /* ---- Tiling a tiling ---- */

  lemma Regroup(q: int, k: int, n: int, p: int)
    ensures q * (k * n) + p * n == (q * k + p) * n
  {
    assert q * (k * n) == (q * k) * n;
  }

  lemma Euclid(i: nat, n: nat) returns (q: nat, m: nat)
    requires n > 0
    ensures i == q * n + m && m < n && m == i % n
  {
    q, m := i / n, i % n;
  }

  lemma ModOfMultiple(i: nat, k: nat, n: nat)
    requires k > 0 && n > 0
    ensures k * n > 0 && (i % (k * n)) % n == i % n
  {
    assert k * n >= n;
    var q, m := Euclid(i, k * n);
    var p, t := Euclid(m, n);
    Regroup(q, k, n, p);
    DivMod(q * k + p, t, n);
  }

  /** Tiling by (a, b) and the result by (c, d) is tiling once by (a * c, b * d). */
  lemma TilingComposes(im: seq<real>, nx: nat, ny: nat, a: nat, b: nat, c: nat, d: nat, once: seq<real>, twice: seq<real>)
    requires |im| == nx * ny
    requires IsTiling(once, im, nx, ny, a, b)
    requires IsTiling(twice, once, a * nx, b * ny, c, d)
    ensures IsTiling(twice, im, nx, ny, a * c, b * d)
  {
    var w, h := c * (a * nx), d * (b * ny);
    assert w == (a * c) * nx && h == (b * d) * ny;
    forall r: nat, col: nat | r < h && col < w ensures Periodic(twice, im, nx, ny, w, r, col) {
      assert Periodic(twice, once, a * nx, b * ny, w, r, col);
      NonZero(a, nx);
      NonZero(b, ny);
      ModOfMultiple(r, b, ny);
      ModOfMultiple(col, a, nx);
      assert Periodic(once, im, nx, ny, a * nx, r % (b * ny), col % (a * nx));
    }
  }

  /** Tiling by (1, 1) changes nothing. */
  lemma TilingOnce(im: seq<real>, nx: nat, ny: nat, out: seq<real>)
    requires |im| == nx * ny && IsTiling(out, im, nx, ny, 1, 1)
    ensures out == im
  {
    forall i | 0 <= i < |im| ensures out[i] == im[i] {
      Bounds(i, nx, ny);
      var r, c := i / nx, i % nx;
      assert At(r, c, nx) == i;
      assert Periodic(out, im, nx, ny, 1 * nx, r, c);
      DivMod(0, r, ny);
      DivMod(0, c, nx);
    }
  }

  /* ---- Painting a box ---- */

  /** Conversion of a floating-point number to int. */
  function Trunc(x: real): (r: int)
    ensures x >= 0.0 ==> 0 <= r && r as real <= x < r as real + 1.0
    ensures x <= 0.0 ==> r <= 0 && r as real - 1.0 < x <= r as real
  {
    if x >= 0.0 then x.Floor else -((-x).Floor)
  }

  predicate Within(x: int, center: real, r: real) {
    Trunc(center) - Trunc(r) <= x < Trunc(center) + Trunc(r)
  }

  /** The box, and the part of it above row `y` or in row `y` and left of column `x`. */
  datatype Brush = Brush(xc: real, yc: real, r: real, val: real) {
    predicate Covers(y: int, x: int) {
      Within(x, xc, r) && Within(y, yc, r)
    }

    function Paint(row: int, col: int, y: int, x: int): real {
      if Covers(row, col) && (row < y || (row == y && col < x)) then val else 0.0
    }
  }

  /** Image `now` is `before` with the box painted up to (y, x). */
  ghost predicate Painted(now: seq<real>, before: seq<real>, w: nat, h: nat, b: Brush, y: int, x: int) {
    && |now| == |before| == w * h
    && forall row: nat, col: nat | row < h && col < w :: PixelPainted(now, before, w, b, y, x, row, col)
  }

  ghost predicate PixelPainted(now: seq<real>, before: seq<real>, w: nat, b: Brush, y: int, x: int, row: nat, col: nat) {
    && At(row, col, w) < |now| == |before|
    && now[At(row, col, w)] == before[At(row, col, w)] + b.Paint(row, col, y, x)
  }

  /** A square around a center, as wide to the left as to the right of it, less the last column and row. */
  predicate InSquare(row: int, col: int, xc: int, yc: int, r: int) {
    xc - r <= col < xc + r && yc - r <= row < yc + r
  }

  /** One pixel is brighter by `more`. */
  predicate Changed(now: seq<real>, before: seq<real>, w: nat, row: nat, col: nat, more: real) {
    At(row, col, w) < |now| == |before| && now[At(row, col, w)] == before[At(row, col, w)] + more
  }

  lemma NothingPainted(im: seq<real>, w: nat, h: nat, b: Brush, y: int)
    requires |im| == w * h && (y <= 0 || y == Trunc(b.yc) - Trunc(b.r))
    ensures Painted(im, im, w, h, b, y, 0)
  {
    forall row: nat, col: nat | row < h && col < w ensures PixelPainted(im, im, w, b, y, 0, row, col) {
      AtInImage(row, col, w, h);
    }
  }

  lemma PaintPixel(now: seq<real>, before: seq<real>, w: nat, h: nat, b: Brush, y: nat, x: nat)
    requires Painted(now, before, w, h, b, y, x) && y < h && x < w && b.Covers(y, x)
    ensures At(y, x, w) < |now|
    ensures Painted(now[At(y, x, w) := now[At(y, x, w)] + b.val], before, w, h, b, y, x + 1)
  {
    AtInImage(y, x, w, h);
    var next := now[At(y, x, w) := now[At(y, x, w)] + b.val];
    DivMod(y, x, w);
    var right := x + 1;
    forall row: nat, col: nat | row < h && col < w ensures PixelPainted(next, before, w, b, y, right, row, col) {
      assert PixelPainted(now, before, w, b, y, x, row, col);
      DivMod(row, col, w);
    }
  }

  /** Pixels that the box does not cover may be skipped. */
  lemma SkipPixels(now: seq<real>, before: seq<real>, w: nat, h: nat, b: Brush, y: int, x: int, y': int, x': int)
    requires Painted(now, before, w, h, b, y, x)
    requires forall row: nat, col: nat | row < h && col < w :: b.Paint(row, col, y, x) == b.Paint(row, col, y', x')
    ensures Painted(now, before, w, h, b, y', x')
  {
    forall row: nat, col: nat | row < h && col < w ensures PixelPainted(now, before, w, b, y', x', row, col) {
      assert PixelPainted(now, before, w, b, y, x, row, col);
    }
  }

  /** Adds `val` to the pixels of the square around (xc, yc), as far as it is inside the image. */
  method AddBox(im: array<real>, w: nat, h: nat, xc: real, yc: real, r: real, val: real)
    requires im.Length == w * h
    modifies im
    ensures forall row: nat, col: nat | row < h && col < w ::
              Changed(im[..], old(im[..]), w, row, col,
                      if InSquare(row, col, Trunc(xc), Trunc(yc), Trunc(r)) then val else 0.0)
  {
    hide Painted, PixelPainted, Changed;
    ghost var before, b := im[..], Brush(xc, yc, r, val);
    var rmax := Trunc(r);
    var xmin := Trunc(xc) - rmax;
    xmin := if xmin < 0 then 0 else xmin;
    var xmax := Trunc(xc) + rmax;
    xmax := if xmax > w then w else xmax;
    var ymin := Trunc(yc) - rmax;
    ymin := if ymin < 0 then 0 else ymin;
    var ymax := Trunc(yc) + rmax;
    ymax := if ymax > h then h else ymax;
    var y := ymin;
    NothingPainted(before, w, h, b, ymin);
    while y < ymax
      invariant ymin <= y && Painted(im[..], before, w, h, b, y, 0)
    {
      var x := xmin;
      SkipPixels(im[..], before, w, h, b, y, 0, y, xmin);
      while x < xmax
        invariant xmin <= x && Painted(im[..], before, w, h, b, y, x)
      {
        PaintPixel(im[..], before, w, h, b, y, x);
        ghost var next := im[..][At(y, x, w) := im[..][At(y, x, w)] + val];
        im[x + w * y] := im[x + w * y] + val;
        assert im[..] == next;
        x := x + 1;
      }
      SkipPixels(im[..], before, w, h, b, y, x, y + 1, 0);
      y := y + 1;
    }
    AllPainted(im[..], before, w, h, b, y);
  }

  /** Below the box nothing is left to paint. */
  lemma AllPainted(now: seq<real>, before: seq<real>, w: nat, h: nat, b: Brush, y: int)
    requires Painted(now, before, w, h, b, y, 0) && (y >= h || y >= Trunc(b.yc) + Trunc(b.r))
    ensures forall row: nat, col: nat | row < h && col < w ::
              Changed(now, before, w, row, col,
                      if InSquare(row, col, Trunc(b.xc), Trunc(b.yc), Trunc(b.r)) then b.val else 0.0)
  {
    forall row: nat, col: nat | row < h && col < w
      ensures Changed(now, before, w, row, col,
                      if InSquare(row, col, Trunc(b.xc), Trunc(b.yc), Trunc(b.r)) then b.val else 0.0)
    {
      assert PixelPainted(now, before, w, b, y, 0, row, col);
    }
  }
}
