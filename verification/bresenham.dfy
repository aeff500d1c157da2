/** The integer Bresenham line rasterizer of the wireframe mode
    (PaintablePanel.drawLine and PaintablePanel.signum).

    The source steps along the dominant axis with an integer error term.
    `DrawLine` mirrors that loop statement by statement; `IdealLine` is an
    independent closed form (the minor coordinate after k major steps is
    k*minor/major rounded to nearest, ties upwards) and `DrawLine` is proved
    to produce exactly it. The facts about the emitted pixels are then lemmas
    about `IdealLine`. */
module Bresenham {
  import opened ScreenTypes

  /** signum as the panel defines it: -1, 0 or 1 by the sign of i. */
  function Signum(i: int): (s: int)
    ensures -1 <= s <= 1
    ensures s * Abs(i) == i
    ensures s == 0 <==> i == 0
  {
    if i < 0 then -1 else if i > 0 then 1 else 0
  }

  /** The roles of the axes once the source has swapped dx and dy:
      `steep` is the source's `changed` flag, `major` the number of steps
      along the dominant axis and `minor` the extent along the other one. */
  datatype Frame = Frame(steep: bool, major: nat, minor: nat, signX: int, signY: int)

  function LineFrame(x1: int, y1: int, x2: int, y2: int): (f: Frame)
    ensures f.minor <= f.major
    ensures f.major == Max(Abs(x2 - x1), Abs(y2 - y1))
    ensures f.minor == Min(Abs(x2 - x1), Abs(y2 - y1))
    ensures f.steep <==> Abs(y2 - y1) > Abs(x2 - x1)
  {
    var dx := Abs(x2 - x1);
    var dy := Abs(y2 - y1);
    if dy > dx then Frame(true, dy, dx, Signum(x2 - x1), Signum(y2 - y1))
    else Frame(false, dx, dy, Signum(x2 - x1), Signum(y2 - y1))
  }

  /** Number of steps taken along the minor axis before the pixel of major
      step k is emitted: k*minor/major rounded to the nearest integer. */
  function MinorSteps(major: nat, minor: nat, k: nat): int
    requires major > 0
  {
    (2 * minor * k + major) / (2 * major)
  }

  /** The pixel emitted at major step k (0-based). */
  function LinePixel(x1: int, y1: int, x2: int, y2: int, k: nat): Pixel
    requires LineFrame(x1, y1, x2, y2).major > 0
  {
    var f := LineFrame(x1, y1, x2, y2);
    var m := MinorSteps(f.major, f.minor, k);
    if f.steep then Pixel(x1 + f.signX * m, y1 + f.signY * k)
    else Pixel(x1 + f.signX * k, y1 + f.signY * m)
  }

  /** The reference line: one pixel per major step, end point excluded. */
  function IdealLine(x1: int, y1: int, x2: int, y2: int): (r: seq<Pixel>)
    ensures |r| == Max(Abs(x2 - x1), Abs(y2 - y1))
  {
    var f := LineFrame(x1, y1, x2, y2);
    if f.major == 0 then []
    else seq(f.major, k requires 0 <= k < f.major => LinePixel(x1, y1, x2, y2, k))
  }

  // ---------------------------------------------------------------------
  // Integer division facts used by the proofs below.

  lemma DivUnique(a: int, b: int, q: int)
    requires b > 0
    requires b * q <= a < b * q + b
    ensures a / b == q
  {
    var q0 := a / b;
    if q0 < q {
      MulMono(b, q0 + 1, q);
    } else if q0 > q {
      MulMono(b, q + 1, q0);
    }
  }

  lemma MulMono(b: int, u: int, v: int)
    requires b >= 0 && u <= v
    ensures b * u <= b * v
  {
    assert b * v - b * u == b * (v - u);
  }

  lemma MulSucc(a: int, n: int)
    ensures a * (n + 1) == a * n + a
  {
  }

  /** a + s*t stays between a and b when s is the sign of b - a and t does
      not exceed the distance from a to b. */
  lemma OffsetBetween(a: int, b: int, t: int)
    requires 0 <= t <= Abs(b - a)
    ensures Min(a, b) <= a + Signum(b - a) * t <= Max(a, b)
  {
  }

  /** One more major step moves the minor axis by 0 or 1 step. */
  lemma MinorStepsIncrement(major: nat, minor: nat, k: nat)
    requires major > 0 && minor <= major
    ensures MinorSteps(major, minor, k + 1) - MinorSteps(major, minor, k) in {0, 1}
  {
    var b := 2 * major;
    var a := 2 * minor * k + major;
    var q := a / b;
    assert 2 * minor * (k + 1) + major == a + 2 * minor;
    if a + 2 * minor < b * q + b {
      DivUnique(a + 2 * minor, b, q);
    } else {
      DivUnique(a + 2 * minor, b, q + 1);
    }
  }

  /** Before the last major step the minor axis has moved at most `minor`
      steps, so the line never leaves the bounding box. */
  lemma MinorStepsBounded(major: nat, minor: nat, k: nat)
    requires major > 0 && minor <= major && k < major
    ensures 0 <= MinorSteps(major, minor, k) <= minor
  {
    var b := 2 * major;
    var a := 2 * minor * k + major;
    MulMono(2 * minor, k, major - 1);
    assert a < b * (minor + 1);
    var q := a / b;
    if q > minor {
      MulMono(b, minor + 1, q);
    }
  }

  lemma MinorStepsStart(major: nat, minor: nat)
    requires major > 0
    ensures MinorSteps(major, minor, 0) == 0
  {
    DivUnique(major, 2 * major, 0);
  }

  // ---------------------------------------------------------------------
  // The loop of the source.

  /** drawLine: emits the pixels the source passes to drawPixel, in order.
      The inner `while (e >= 0)` loop is kept as written; it runs at most
      once per major step. */
  method DrawLine(x1: int, y1: int, x2: int, y2: int) returns (pixels: seq<Pixel>)
    ensures pixels == IdealLine(x1, y1, x2, y2)
  {
    var changed := false;
    var x := x1;
    var y := y1;
    var dx := Abs(x2 - x1);
    var dy := Abs(y2 - y1);
    var signx := Signum(x2 - x1);
    var signy := Signum(y2 - y1);
    if dy > dx {
      dx, dy := dy, dx;
      changed := true;
    }
    ghost var f := LineFrame(x1, y1, x2, y2);
    assert f.major == dx && f.minor == dy && f.steep == changed;
    var e := 2 * dy - dx;
    pixels := [];
    // m counts the minor-axis steps taken so far; num and mm are the
    // numerator 2*dy*(i-1) + dx of MinorSteps and 2*dx*m, kept as ghost
    // accumulators so that the loop invariants stay linear.
    ghost var m := 0;
    ghost var num := dx;
    ghost var mm := 0;
    if dx > 0 {
      MinorStepsStart(dx, dy);
    }
    var i := 1;
    while i <= dx
      invariant 1 <= i <= dx + 1
      invariant |pixels| == i - 1
      invariant forall k :: 0 <= k < i - 1 ==> pixels[k] == LinePixel(x1, y1, x2, y2, k)
      invariant num == 2 * dy * (i - 1) + dx
      invariant mm == 2 * dx * m
      invariant e == num + 2 * dy - 2 * dx - mm
      invariant dx > 0 ==> mm <= num < mm + 2 * dx
      invariant dx > 0 ==> m == MinorSteps(dx, dy, i - 1)
      invariant changed ==> x == x1 + signx * m && y == y1 + signy * (i - 1)
      invariant !changed ==> y == y1 + signy * m && x == x1 + signx * (i - 1)
    {
      PixelOfStep(x1, y1, x2, y2, i - 1, m);
      pixels := pixels + [Pixel(x, y)];
      ghost var e0 := e;
      ghost var m0 := m;
      ghost var mm0 := mm;
      while e >= 0
        invariant e + mm == e0 + mm0
        invariant mm == 2 * dx * m
        invariant m0 <= m <= m0 + 1
        invariant m == m0 + 1 ==> e0 >= 0 && e < 0 && mm == mm0 + 2 * dx
        invariant m == m0 ==> e == e0
        invariant changed ==> x == x1 + signx * m && y == y1 + signy * (i - 1)
        invariant !changed ==> y == y1 + signy * m && x == x1 + signx * (i - 1)
        decreases e
      {
        if changed {
          MulSucc(signx, m);
          x := x + signx;
        } else {
          MulSucc(signy, m);
          y := y + signy;
        }
        e := e - (2 * dx);
        MulSucc(2 * dx, m);
        m := m + 1;
        mm := mm + 2 * dx;
      }
      if changed {
        MulSucc(signy, i - 1);
        y := y + signy;
      } else {
        MulSucc(signx, i - 1);
        x := x + signx;
      }
      StepClosesError(dx, dy, i, num, m0, m, e0, e, mm0, mm);
      e := e + (2 * dy);
      i := i + 1;
      num := num + 2 * dy;
    }
  }

  /** The arithmetic of one major step of DrawLine: after the inner loop
      has taken the minor step (or not), the error term and the ghost
      accumulators describe major step i. */
  lemma StepClosesError(dx: int, dy: int, i: int, num: int, m0: int, m: int,
                        e0: int, e: int, mm0: int, mm: int)
    requires 0 <= dy <= dx && dx > 0 && i >= 1
    requires num == 2 * dy * (i - 1) + dx
    requires mm0 == 2 * dx * m0 && mm == 2 * dx * m
    requires e0 == num + 2 * dy - 2 * dx - mm0
    requires mm0 <= num < mm0 + 2 * dx
    requires e + mm == e0 + mm0 && e < 0
    requires m0 <= m <= m0 + 1
    requires m == m0 + 1 ==> e0 >= 0 && mm == mm0 + 2 * dx
    requires m == m0 ==> e == e0
    ensures num + 2 * dy == 2 * dy * i + dx
    ensures mm <= num + 2 * dy < mm + 2 * dx
    ensures m == MinorSteps(dx, dy, i)
  {
    MulSucc(2 * dy, i - 1);
    DivUnique(num + 2 * dy, 2 * dx, m);
  }

  /** The pixel of major step k once m minor steps have been taken. */
  lemma PixelOfStep(x1: int, y1: int, x2: int, y2: int, k: nat, m: int)
    requires LineFrame(x1, y1, x2, y2).major > 0
    requires m == MinorSteps(LineFrame(x1, y1, x2, y2).major, LineFrame(x1, y1, x2, y2).minor, k)
    ensures LineFrame(x1, y1, x2, y2).steep ==>
              LinePixel(x1, y1, x2, y2, k) == Pixel(x1 + Signum(x2 - x1) * m, y1 + Signum(y2 - y1) * k)
    ensures !LineFrame(x1, y1, x2, y2).steep ==>
              LinePixel(x1, y1, x2, y2, k) == Pixel(x1 + Signum(x2 - x1) * k, y1 + Signum(y2 - y1) * m)
  {
  }

  // ---------------------------------------------------------------------
  // Properties of the emitted line.

  /** A line emits nothing exactly when its two end points coincide. */
  lemma LineEmptyIffDegenerate(x1: int, y1: int, x2: int, y2: int)
    ensures |IdealLine(x1, y1, x2, y2)| == 0 <==> x1 == x2 && y1 == y2
  {
  }

  /** The first pixel is the start point. */
  lemma LineStartsAtFirstEndpoint(x1: int, y1: int, x2: int, y2: int)
    requires x1 != x2 || y1 != y2
    ensures IdealLine(x1, y1, x2, y2)[0] == Pixel(x1, y1)
  {
    var f := LineFrame(x1, y1, x2, y2);
    MinorStepsStart(f.major, f.minor);
  }

  /** The end point itself is never emitted: the dominant coordinate only
      reaches it after the last pixel. */
  lemma LineExcludesEndpoint(x1: int, y1: int, x2: int, y2: int)
    ensures Pixel(x2, y2) !in IdealLine(x1, y1, x2, y2)
  {
    var r := IdealLine(x1, y1, x2, y2);
    var f := LineFrame(x1, y1, x2, y2);
    forall k | 0 <= k < |r|
      ensures r[k] != Pixel(x2, y2)
    {
      assert r[k] == LinePixel(x1, y1, x2, y2, k);
      PixelOfStep(x1, y1, x2, y2, k, MinorSteps(f.major, f.minor, k));
      if f.steep {
        ShortOfEnd(y1, y2, k);
      } else {
        ShortOfEnd(x1, x2, k);
      }
    }
  }

  /** Fewer than |b - a| signed unit steps from a do not reach b. */
  lemma ShortOfEnd(a: int, b: int, k: int)
    requires 0 <= k < Abs(b - a)
    ensures a + Signum(b - a) * k != b
  {
    if b > a {
      assert Signum(b - a) * k == k;
    } else {
      assert Signum(b - a) * k == -k;
    }
  }

  /** Between consecutive pixels the dominant coordinate moves by exactly
      the sign of its delta and the other coordinate by 0 or the sign of its
      delta: no pixel is skipped or duplicated along the dominant axis. */
  lemma LineSteps(x1: int, y1: int, x2: int, y2: int, k: nat)
    requires k + 1 < |IdealLine(x1, y1, x2, y2)|
    ensures var r := IdealLine(x1, y1, x2, y2);
            var sx := Signum(x2 - x1);
            var sy := Signum(y2 - y1);
            if Abs(y2 - y1) > Abs(x2 - x1) then
              r[k + 1].y - r[k].y == sy && r[k + 1].x - r[k].x in {0, sx}
            else
              r[k + 1].x - r[k].x == sx && r[k + 1].y - r[k].y in {0, sy}
  {
    var f := LineFrame(x1, y1, x2, y2);
    MinorStepsIncrement(f.major, f.minor, k);
    var m0 := MinorSteps(f.major, f.minor, k);
    var m1 := MinorSteps(f.major, f.minor, k + 1);
    var r := IdealLine(x1, y1, x2, y2);
    assert r[k] == LinePixel(x1, y1, x2, y2, k);
    assert r[k + 1] == LinePixel(x1, y1, x2, y2, k + 1);
    PixelOfStep(x1, y1, x2, y2, k, m0);
    PixelOfStep(x1, y1, x2, y2, k + 1, m1);
    MulSucc(f.signX, k);
    MulSucc(f.signY, k);
    if m1 != m0 {
      MulSucc(f.signX, m0);
      MulSucc(f.signY, m0);
    }
  }

  /** Every pixel lies inside the bounding box of the two end points. */
  lemma LineInBoundingBox(x1: int, y1: int, x2: int, y2: int, p: Pixel)
    requires p in IdealLine(x1, y1, x2, y2)
    ensures Min(x1, x2) <= p.x <= Max(x1, x2)
    ensures Min(y1, y2) <= p.y <= Max(y1, y2)
  {
    var r := IdealLine(x1, y1, x2, y2);
    var f := LineFrame(x1, y1, x2, y2);
    var k :| 0 <= k < |r| && r[k] == p;
    MinorStepsBounded(f.major, f.minor, k);
    var m := MinorSteps(f.major, f.minor, k);
    PixelOfStep(x1, y1, x2, y2, k, m);
    if f.steep {
      OffsetBetween(x1, x2, m);
      OffsetBetween(y1, y2, k);
    } else {
      OffsetBetween(x1, x2, k);
      OffsetBetween(y1, y2, m);
    }
  }

  /** An axis-aligned segment never moves along the other axis. */
  lemma AxisAlignedLineIsStraight(x1: int, y1: int, x2: int, y2: int, p: Pixel)
    requires x1 == x2 || y1 == y2
    requires p in IdealLine(x1, y1, x2, y2)
    ensures x1 == x2 ==> p.x == x1
    ensures y1 == y2 ==> p.y == y1
  {
    LineInBoundingBox(x1, y1, x2, y2, p);
  }

  /** A diagonal of five steps emits the five pixels (k, k) for k < 5: the
      end point (5, 5) is not part of the line. */
  lemma DiagonalExample()
    ensures |IdealLine(0, 0, 5, 5)| == 5
    ensures forall k :: 0 <= k < 5 ==> IdealLine(0, 0, 5, 5)[k] == Pixel(k, k)
  {
    forall k | 0 <= k < 5
      ensures IdealLine(0, 0, 5, 5)[k] == Pixel(k, k)
    {
      DivUnique(10 * k + 5, 10, k);
      PixelOfStep(0, 0, 5, 5, k, k);
    }
  }

  /** A horizontal line of ten steps emits ten pixels, all on y = 0. */
  lemma HorizontalExample(p: Pixel)
    ensures |IdealLine(0, 0, 10, 0)| == 10
    ensures p in IdealLine(0, 0, 10, 0) ==> p.y == 0
  {
    if p in IdealLine(0, 0, 10, 0) {
      AxisAlignedLineIsStraight(0, 0, 10, 0, p);
    }
  }
}
