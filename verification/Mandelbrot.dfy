/** The scalar and the vectorised fractal painter, over exact real numbers. */
module Mandelbrot {
  const WIDTH := 800
  const HEIGHT := 600
  const MAX_ITERATIONS := 256
  const MAX_DISTANCE := 100.0
  const LANES := 8

  datatype Complex = Complex(re: real, im: real)

  datatype Color = Color(r: nat, g: nat, b: nat)

  const BLACK := Color(0, 0, 0)

  function Square(z: Complex): Complex { Complex(z.re * z.re - z.im * z.im, z.re * z.im + z.re * z.im) }

  function Next(z: Complex, c: Complex): Complex { Complex(Square(z).re + c.re, Square(z).im + c.im) }

  function Norm(z: Complex): real { z.re * z.re + z.im * z.im }

  /** The orbit of `c`, which starts at `c` itself. */
  function Orbit(c: Complex, n: nat): Complex { if n == 0 then c else Next(Orbit(c, n - 1), c) }

  predicate Escaped(c: Complex, n: nat) { Norm(Orbit(c, n)) >= MAX_DISTANCE }

  /** The first escape from step `n` on, at most 256. */
  function EscapeTime(c: Complex, n: nat): (t: nat)
    requires n <= MAX_ITERATIONS
    ensures n <= t <= MAX_ITERATIONS
    ensures forall k :: n <= k < t ==> !Escaped(c, k)
    ensures t < MAX_ITERATIONS ==> Escaped(c, t)
    decreases MAX_ITERATIONS - n
  {
    if n == MAX_ITERATIONS || Escaped(c, n) then n else EscapeTime(c, n + 1)
  }

  function CenterX(offset: real): real { WIDTH as real / 2.0 + HEIGHT as real * 0.3 + offset }

  function CenterY(offset: real): real { HEIGHT as real / 2.0 + offset }

  function Point(offsetX: real, offsetY: real, scale: real, x: nat, y: nat): Complex {
    Complex((x as real - CenterX(offsetX)) * scale, (y as real - CenterY(offsetY)) * scale)
  }

  /** Colour components are cut to a byte. */
  function Shade(n: nat): Color { Color(n * 5 % 256, n * 10 % 256, 0) }

  /** The colour a pixel is meant to have. */
  function Pixel(offsetX: real, offsetY: real, scale: real, x: nat, y: nat): Color {
    Shade(EscapeTime(Point(offsetX, offsetY, scale, x, y), 0))
  }

  /** The first `rows` rows are painted, and `cols` pixels of the next. */
  predicate Painted(canvas: array2<Color>, offsetX: real, offsetY: real, scale: real, rows: nat, cols: nat)
    requires canvas.Length0 == WIDTH && canvas.Length1 == HEIGHT
    reads canvas
  {
    forall x, y :: 0 <= x < WIDTH && 0 <= y < HEIGHT && (y < rows || (y == rows && x < cols)) ==>
      canvas[x, y] == Pixel(offsetX, offsetY, scale, x, y)
  }

  // ----- The picture in numbers -----

  /** `zs` begins with `c`; every later one is the square of the one before, plus `c`. */
  ghost predicate Follows(zs: seq<Complex>, c: Complex) {
    && (|zs| > 0 ==> zs[0] == c)
    && (forall n :: 0 < n < |zs| ==>
          && zs[n].re == zs[n - 1].re * zs[n - 1].re - zs[n - 1].im * zs[n - 1].im + c.re
          && zs[n].im == 2.0 * (zs[n - 1].re * zs[n - 1].im) + c.im)
  }

  predicate FarOut(z: Complex) { z.re * z.re + z.im * z.im >= 100.0 }

  /** `t` is the first of 256 steps that is far out, or 256. */
  predicate FirstOut(zs: seq<Complex>, t: nat) {
    |zs| == 256 && t <= 256 && (forall n :: 0 <= n < t ==> !FarOut(zs[n])) && (t < 256 ==> FarOut(zs[t]))
  }

  /** The colour of `c`: red and green count its steps, by five and by ten. */
  ghost predicate ColorOf(color: Color, c: Complex) {
    exists zs, t: nat :: Follows(zs, c) && FirstOut(zs, t) && color == Color(5 * t % 256, 10 * t % 256, 0)
  }

  /** Pixel (580, 300) is the origin, moved by the offsets; the scale is the distance of neighbours. */
  ghost predicate ColorAt(color: Color, offsetX: real, offsetY: real, scale: real, x: int, y: int) {
    ColorOf(color, Complex((x as real - 580.0 - offsetX) * scale, (y as real - 300.0 - offsetY) * scale))
  }

  /** All 800 by 600 pixels have their colours. */
  ghost predicate Picture(canvas: array2<Color>, offsetX: real, offsetY: real, scale: real)
    reads canvas
  {
    && canvas.Length0 == 800 && canvas.Length1 == 600
    && forall x, y :: 0 <= x < 800 && 0 <= y < 600 ==> ColorAt(canvas[x, y], offsetX, offsetY, scale, x, y)
  }

  lemma PixelColor(offsetX: real, offsetY: real, scale: real, x: nat, y: nat)
    ensures ColorAt(Pixel(offsetX, offsetY, scale, x, y), offsetX, offsetY, scale, x, y)
  {
    hide Orbit, EscapeTime, Follows, FirstOut;
    var c := Complex((x as real - 580.0 - offsetX) * scale, (y as real - 300.0 - offsetY) * scale);
    assert CenterX(offsetX) == 580.0 + offsetX && CenterY(offsetY) == 300.0 + offsetY;
    assert Point(offsetX, offsetY, scale, x, y) == c;
    var t := EscapeTime(c, 0);
    OrbitFollows(c);
    OrbitOut(c);
    assert Follows(seq(256, n requires 0 <= n < 256 => Orbit(c, n)), c);
  }

  lemma OrbitFollows(c: Complex)
    ensures Follows(seq(256, n requires 0 <= n < 256 => Orbit(c, n)), c)
  {
    var zs := seq(256, n requires 0 <= n < 256 => Orbit(c, n));
    forall n | 0 < n < 256 ensures zs[n] == Next(zs[n - 1], c) {}
  }

  lemma OrbitOut(c: Complex)
    ensures FirstOut(seq(256, n requires 0 <= n < 256 => Orbit(c, n)), EscapeTime(c, 0))
  {
    hide Orbit, EscapeTime;
    var zs, t := seq(256, n requires 0 <= n < 256 => Orbit(c, n)), EscapeTime(c, 0);
    forall n | 0 <= n < 256 ensures FarOut(zs[n]) <==> Escaped(c, n) {}
  }

  lemma PaintedPicture(canvas: array2<Color>, offsetX: real, offsetY: real, scale: real)
    requires canvas.Length0 == WIDTH && canvas.Length1 == HEIGHT && Painted(canvas, offsetX, offsetY, scale, HEIGHT, 0)
    ensures Picture(canvas, offsetX, offsetY, scale)
  {
    hide Pixel, ColorAt;
    forall x, y | 0 <= x < 800 && 0 <= y < 600 ensures ColorAt(canvas[x, y], offsetX, offsetY, scale, x, y) {
      PixelColor(offsetX, offsetY, scale, x, y);
    }
  }

  lemma {:induction false} StaysAtZero(zs: seq<Complex>, n: nat)
    requires Follows(zs, Complex(0.0, 0.0)) && n < |zs|
    ensures zs[n] == Complex(0.0, 0.0)
  {
    if n > 0 { StaysAtZero(zs, n - 1); }
  }

  lemma ZeroIsBlack(color: Color)
    requires ColorOf(color, Complex(0.0, 0.0))
    ensures color == Color(0, 0, 0)
  {
    hide Follows;
    var zero := Complex(0.0, 0.0);
    var zs, t: nat :| Follows(zs, zero) && FirstOut(zs, t) && color == Color(5 * t % 256, 10 * t % 256, 0);
    if t < 256 { StaysAtZero(zs, t); }
  }

  lemma OriginAt(color: Color, scale: real)
    requires ColorAt(color, 0.0, 0.0, scale, 580, 300)
    ensures ColorOf(color, Complex(0.0, 0.0))
  {
    hide ColorOf;
    assert 0.0 * scale == 0.0;
  }

  /** Without offsets pixel (580, 300) is black. */
  lemma OriginIsBlack(canvas: array2<Color>, scale: real)
    requires Picture(canvas, 0.0, 0.0, scale)
    ensures canvas[580, 300] == Color(0, 0, 0)
  {
    hide ColorAt, ColorOf;
    OriginAt(canvas[580, 300], scale);
    ZeroIsBlack(canvas[580, 300]);
  }

  // ----- Escape is final -----

  lemma SquareNorm(z: Complex)
    ensures Norm(Square(z)) == Norm(z) * Norm(z)
  {
    var p, q := z.re * z.re, z.im * z.im;
    var d := z.re * z.im;
    assert d * d == p * q by {
      assert d * d == (z.re * z.im) * (z.re * z.im) == (z.re * z.re) * (z.im * z.im);
    }
    assert (p - q) * (p - q) + (d + d) * (d + d) == (p - q) * (p - q) + 4.0 * (d * d);
    assert (p - q) * (p - q) + 4.0 * (p * q) == (p + q) * (p + q);
  }

  lemma SquareNotNegative(a: real)
    ensures a * a >= 0.0
  {
  }

  /** The norm of a sum: from the square of `w + 10c` being non-negative. */
  lemma SumNorm(w: Complex, c: Complex)
    ensures Norm(Complex(w.re + c.re, w.im + c.im)) >= 0.9 * Norm(w) - 9.0 * Norm(c)
  {
    PartBound(w.re, c.re);
    PartBound(w.im, c.im);
  }

  lemma PartBound(a: real, b: real)
    ensures (a + b) * (a + b) >= 0.9 * (a * a) - 9.0 * (b * b)
  {
    SquareNotNegative(a + 10.0 * b);
    assert (a + 10.0 * b) * (a + 10.0 * b) == a * a + 20.0 * (a * b) + 100.0 * (b * b);
    assert (a + b) * (a + b) == a * a + 2.0 * (a * b) + b * b;
  }

  /** Far out, and at least as far as `c`, a step leads further out. */
  lemma FurtherOut(z: Complex, c: Complex)
    requires Norm(z) >= MAX_DISTANCE && Norm(z) >= Norm(c)
    ensures Norm(Next(z, c)) >= Norm(z)
  {
    var n := Norm(z);
    SquareNorm(z);
    SumNorm(Square(z), c);
    Growth(n, Norm(c));
  }

  lemma Growth(n: real, m: real)
    requires n >= 100.0 && n >= m
    ensures 0.9 * (n * n) - 9.0 * m >= n
  {
    assert n * n >= 100.0 * n;
  }

  /** Once escaped, always escaped. */
  lemma {:induction false} StaysEscaped(c: Complex, n: nat, k: nat)
    requires n <= k && Escaped(c, n) && Norm(Orbit(c, n)) >= Norm(c)
    ensures Escaped(c, k) && Norm(Orbit(c, k)) >= Norm(c)
    decreases k
  {
    hide Norm, Next;
    if n < k {
      StaysEscaped(c, n, k - 1);
      FurtherOut(Orbit(c, k - 1), c);
    }
  }

  /** At its first escape an orbit is at least as far out as where it started. */
  lemma {:induction false} FirstEscape(c: Complex, n: nat)
    requires Escaped(c, n) && forall k :: 0 <= k < n ==> !Escaped(c, k)
    ensures Norm(Orbit(c, n)) >= Norm(c)
  {
    if n > 0 {
      assert !Escaped(c, 0);
    }
  }

  /** How many of the first `n` steps are before the escape, as the vector code counts them. */
  function Inside(c: Complex, n: nat): nat {
    if n == 0 then 0 else Inside(c, n - 1) + if Escaped(c, n - 1) then 0 else 1
  }

  lemma {:induction false} InsideCounts(c: Complex, n: nat)
    ensures var t := EscapeTime(c, 0);
      if t < MAX_ITERATIONS then Inside(c, n) == if n < t then n else t
      else Inside(c, n) >= (if n < MAX_ITERATIONS then n else MAX_ITERATIONS)
    decreases n
  {
    hide Escaped, EscapeTime;
    var t := EscapeTime(c, 0);
    if n > 0 {
      InsideCounts(c, n - 1);
      if t < MAX_ITERATIONS && t <= n - 1 {
        FirstEscape(c, t);
        StaysEscaped(c, t, n - 1);
      }
    }
  }

  // ----- The scalar painter -----

  /** Iterates one point until it escapes or 256 steps are done. */
  method Iterations(c: Complex) returns (totalIterations: nat)
    ensures totalIterations == EscapeTime(c, 0)
  {
    hide Escaped, Orbit, EscapeTime;
    totalIterations := 0;
    var x, y := c.re, c.im;
    OrbitBegins(c);
    while totalIterations < MAX_ITERATIONS
      invariant 0 <= totalIterations <= MAX_ITERATIONS
      invariant Complex(x, y) == Orbit(c, totalIterations)
      invariant EscapeTime(c, 0) == EscapeTime(c, totalIterations)
    {
      var xPow, yPow, xMulY := x * x, y * y, x * y;
      var vectorLength := xPow + yPow;
      LaneEscaped(c, totalIterations, x, y);
      LaneNext(c, totalIterations, x, y);
      EscapeStep(c, totalIterations);
      if vectorLength >= MAX_DISTANCE { break; }
      x := xPow - yPow + c.re;
      y := xMulY + xMulY + c.im;
      totalIterations := totalIterations + 1;
    }
    if totalIterations == MAX_ITERATIONS { EscapeLast(c); }
  }

  lemma OrbitBegins(c: Complex)
    ensures Orbit(c, 0) == c
  {
  }

  lemma EscapeStep(c: Complex, n: nat)
    requires n < MAX_ITERATIONS
    ensures EscapeTime(c, n) == if Escaped(c, n) then n else EscapeTime(c, n + 1)
  {
    hide Escaped;
  }

  lemma EscapeLast(c: Complex)
    ensures EscapeTime(c, MAX_ITERATIONS) == MAX_ITERATIONS
  {
  }

  /** One more pixel is painted. */
  lemma PixelIs(offsetX: real, offsetY: real, scale: real, x: nat, y: nat, c: Complex)
    requires c == Complex((x as real - CenterX(offsetX)) * scale, (y as real - CenterY(offsetY)) * scale)
    ensures Pixel(offsetX, offsetY, scale, x, y) == Shade(EscapeTime(c, 0))
  {
  }

  /** The end of a row is the begin of the next. */
  lemma RowDone(canvas: array2<Color>, offsetX: real, offsetY: real, scale: real, y: nat)
    requires canvas.Length0 == WIDTH && canvas.Length1 == HEIGHT && Painted(canvas, offsetX, offsetY, scale, y, WIDTH)
    ensures Painted(canvas, offsetX, offsetY, scale, y + 1, 0)
  {
    hide Pixel;
  }

  lemma NothingPainted(canvas: array2<Color>, offsetX: real, offsetY: real, scale: real)
    requires canvas.Length0 == WIDTH && canvas.Length1 == HEIGHT
    ensures Painted(canvas, offsetX, offsetY, scale, 0, 0)
  {
  }

  method SetPixel(canvas: array2<Color>, x: nat, y: nat, color: Color, ghost offsetX: real, ghost offsetY: real, ghost scale: real)
    requires canvas.Length0 == WIDTH && canvas.Length1 == HEIGHT && x < WIDTH && y < HEIGHT
    requires Painted(canvas, offsetX, offsetY, scale, y, x) && color == Pixel(offsetX, offsetY, scale, x, y)
    modifies canvas
    ensures Painted(canvas, offsetX, offsetY, scale, y, x + 1)
  {
    hide Pixel;
    canvas[x, y] := color;
  }

  method DrawMndlSet(canvas: array2<Color>, offsetX: real, offsetY: real, scale: real)
    requires canvas.Length0 == WIDTH && canvas.Length1 == HEIGHT
    modifies canvas
    ensures Painted(canvas, offsetX, offsetY, scale, HEIGHT, 0) && Picture(canvas, offsetX, offsetY, scale)
  {
    hide Pixel, EscapeTime, Shade, Painted, Picture;
    var centerX, centerY := CenterX(offsetX), CenterY(offsetY);
    var curY := 0;
    NothingPainted(canvas, offsetX, offsetY, scale);
    while curY < HEIGHT
      invariant 0 <= curY <= HEIGHT && Painted(canvas, offsetX, offsetY, scale, curY, 0)
    {
      var im := (curY as real - centerY) * scale;
      var curX := 0;
      while curX < WIDTH
        invariant 0 <= curX <= WIDTH && Painted(canvas, offsetX, offsetY, scale, curY, curX)
      {
        var re := (curX as real - centerX) * scale;
        var totalIterations := Iterations(Complex(re, im));
        PixelIs(offsetX, offsetY, scale, curX, curY, Complex(re, im));
        SetPixel(canvas, curX, curY, Shade(totalIterations), offsetX, offsetY, scale);
        curX := curX + 1;
      }
      RowDone(canvas, offsetX, offsetY, scale, curY);
      curY := curY + 1;
    }
    PaintedPicture(canvas, offsetX, offsetY, scale);
  }

  // ----- The vector painter -----

  /** Eight numbers, treated alike. */
  type Vec = v: seq<real> | |v| == LANES witness seq(LANES, _ => 0.0)
  type IntVec = v: seq<int> | |v| == LANES witness seq(LANES, _ => 0)

  function Splat(a: real): Vec { seq(LANES, _ => a) }

  function Mul(a: Vec, b: Vec): Vec { seq(LANES, l requires 0 <= l < LANES => a[l] * b[l]) }

  function Add(a: Vec, b: Vec): Vec { seq(LANES, l requires 0 <= l < LANES => a[l] + b[l]) }

  function Sub(a: Vec, b: Vec): Vec { seq(LANES, l requires 0 <= l < LANES => a[l] - b[l]) }

  /** Each lane is -1 where `a` is greater, otherwise 0. */
  function Greater(a: Vec, b: Vec): IntVec { seq(LANES, l requires 0 <= l < LANES => if a[l] > b[l] then -1 else 0) }

  function SubInt(a: IntVec, b: IntVec): IntVec { seq(LANES, l requires 0 <= l < LANES => a[l] - b[l]) }

  /** Some lane is set. */
  predicate Mask(a: IntVec) { exists l :: 0 <= l < LANES && a[l] != 0 }

  /** The count of a lane agrees with the escape time of its point as far as colours go. */
  predicate Counted(c: Complex, n: int) {
    if n < MAX_ITERATIONS then n == EscapeTime(c, 0) else EscapeTime(c, 0) == MAX_ITERATIONS
  }

  /** Counting ends with step 257 or when every lane has escaped; escaped lanes go on being iterated. */
  method CalcOneCycle(re: Vec, im: Vec) returns (total: IntVec)
    ensures forall l :: 0 <= l < LANES ==> total[l] >= 0 && Counted(Complex(re[l], im[l]), total[l])
  {
    hide Escaped, Norm, Next, Square, EscapeTime;
    var x, y := re, im;
    total := seq(LANES, _ => 0);
    var step := 0;
    while step <= MAX_ITERATIONS
      invariant 0 <= step <= MAX_ITERATIONS + 1
      invariant forall l :: 0 <= l < LANES ==> Complex(x[l], y[l]) == Orbit(Complex(re[l], im[l]), step)
      invariant forall l :: 0 <= l < LANES ==> total[l] == Inside(Complex(re[l], im[l]), step)
    {
      var x2, y2, xy := Mul(x, x), Mul(y, y), Mul(x, y);
      var length2 := Add(x2, y2);
      var cmpRes := Greater(Splat(MAX_DISTANCE), length2);
      forall l | 0 <= l < LANES ensures cmpRes[l] == if Escaped(Complex(re[l], im[l]), step) then 0 else -1 {
        LaneEscaped(Complex(re[l], im[l]), step, x[l], y[l]);
      }
      if !Mask(cmpRes) {
        forall l | 0 <= l < LANES ensures Counted(Complex(re[l], im[l]), total[l]) {
          assert cmpRes[l] == 0;
          LaneCounted(Complex(re[l], im[l]), step);
        }
        return;
      }
      total := SubInt(total, cmpRes);
      forall l | 0 <= l < LANES
        ensures Complex(x2[l] - y2[l] + re[l], xy[l] + xy[l] + im[l]) == Orbit(Complex(re[l], im[l]), step + 1)
      {
        LaneNext(Complex(re[l], im[l]), step, x[l], y[l]);
      }
      x := Add(Sub(x2, y2), re);
      y := Add(Add(xy, xy), im);
      step := step + 1;
    }
    forall l | 0 <= l < LANES ensures Counted(Complex(re[l], im[l]), total[l]) {
      LaneCounted(Complex(re[l], im[l]), MAX_ITERATIONS + 1);
    }
  }

  lemma LaneEscaped(c: Complex, n: nat, x: real, y: real)
    requires Complex(x, y) == Orbit(c, n)
    ensures Escaped(c, n) <==> !(MAX_DISTANCE > x * x + y * y)
  {
  }

  lemma LaneNext(c: Complex, n: nat, x: real, y: real)
    requires Complex(x, y) == Orbit(c, n)
    ensures Orbit(c, n + 1) == Complex(x * x - y * y + c.re, x * y + x * y + c.im)
  {
  }

  /** The count is settled when the point has escaped or all 257 steps are done. */
  lemma LaneCounted(c: Complex, n: nat)
    requires n <= MAX_ITERATIONS + 1 && (n == MAX_ITERATIONS + 1 || Escaped(c, n))
    ensures Counted(c, Inside(c, n))
  {
    hide Escaped, Inside;
    InsideCounts(c, n);
  }

  /** The black of the vector painter is the shade of 256 steps. */
  lemma BlackIsLast()
    ensures Shade(MAX_ITERATIONS) == BLACK
  {
  }

  /** The eight points of a row from `x` on. */
  method Points(x: nat, y: nat, offsetX: real, offsetY: real, scale: real) returns (re: Vec, im: Vec)
    ensures forall l :: 0 <= l < LANES ==>
      re[l] == ((x + l) as real - CenterX(offsetX)) * scale && im[l] == (y as real - CenterY(offsetY)) * scale
  {
    hide CenterX, CenterY;
    var centerX, centerY := Splat(CenterX(offsetX)), Splat(CenterY(offsetY));
    var offsets: Vec := [0.0, 1.0, 2.0, 3.0, 4.0, 5.0, 6.0, 7.0];
    im := Mul(Sub(Splat(y as real), centerY), Splat(scale));
    re := Mul(Sub(Add(Splat(x as real), offsets), centerX), Splat(scale));
    forall l | 0 <= l < LANES ensures re[l] == ((x + l) as real - CenterX(offsetX)) * scale {
      assert offsets[l] == l as real;
    }
  }

  method DrawMndlSetAVX(canvas: array2<Color>, offsetX: real, offsetY: real, scale: real)
    requires canvas.Length0 == WIDTH && canvas.Length1 == HEIGHT
    modifies canvas
    ensures Painted(canvas, offsetX, offsetY, scale, HEIGHT, 0) && Picture(canvas, offsetX, offsetY, scale)
  {
    hide EscapeTime, Shade, Pixel, Painted, Picture, CenterX, CenterY;
    BlackIsLast();
    var curY := 0;
    NothingPainted(canvas, offsetX, offsetY, scale);
    while curY < HEIGHT
      invariant 0 <= curY <= HEIGHT && Painted(canvas, offsetX, offsetY, scale, curY, 0)
    {
      var curX := 0;
      while curX < WIDTH
        invariant 0 <= curX <= WIDTH && curX % LANES == 0 && Painted(canvas, offsetX, offsetY, scale, curY, curX)
      {
        var re, im := Points(curX, curY, offsetX, offsetY, scale);
        var total := CalcOneCycle(re, im);
        var point := 0;
        while point < LANES
          invariant 0 <= point <= LANES && Painted(canvas, offsetX, offsetY, scale, curY, curX + point)
        {
          var c := Complex(re[point], im[point]);
          assert Counted(c, total[point]);
          PixelIs(offsetX, offsetY, scale, curX + point, curY, c);
          if total[point] < MAX_ITERATIONS {
            SetPixel(canvas, curX + point, curY, Shade(total[point]), offsetX, offsetY, scale);
          } else {
            SetPixel(canvas, curX + point, curY, BLACK, offsetX, offsetY, scale);
          }
          point := point + 1;
        }
        curX := curX + LANES;
      }
      RowDone(canvas, offsetX, offsetY, scale, curY);
      curY := curY + 1;
    }
    PaintedPicture(canvas, offsetX, offsetY, scale);
  }

  /** Both painters leave the same picture. */
  lemma SamePicture(a: array2<Color>, b: array2<Color>, offsetX: real, offsetY: real, scale: real, x: nat, y: nat)
    requires a.Length0 == b.Length0 == WIDTH && a.Length1 == b.Length1 == HEIGHT && x < WIDTH && y < HEIGHT
    requires Painted(a, offsetX, offsetY, scale, HEIGHT, 0) && Painted(b, offsetX, offsetY, scale, HEIGHT, 0)
    ensures a[x, y] == b[x, y]
  {
    assert a[x, y] == Pixel(offsetX, offsetY, scale, x, y);
  }
}
