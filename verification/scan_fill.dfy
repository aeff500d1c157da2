/** Scanline fill of a projected triangle (PaintablePanel.paintComponent,
    fillBottomFlatTriangle and fillTopFlatTriangle).

    The fill routines produce the sequence of pixels they hand to
    calcZBuffer. Edge intercepts are the source's accumulated `curx` values,
    modelled as exact reals; the (int) cast of each intercept is modelled
    exactly. Every routine is proved to visit exactly the pixels described by
    an independent closed form (`BottomVisits`, `TopVisits`), from which the
    clamping facts follow. */
module ScanFill {
  import opened ScreenTypes
  import opened JavaNum

  // ---------------------------------------------------------------------
  // One scanline.

  /** The x loop of both fill routines, from x up to xMax: stops when
      xMax < 0, jumps a negative x to 0 and stops past the width (the bound
      is inclusive: x == width is visited). */
  function SpanFrom(x: int, xMax: int, width: int): (r: seq<int>)
    ensures forall v :: v in r <==> xMax >= 0 && Max(x, 0) <= v <= Min(xMax, width)
    ensures forall i, j :: 0 <= i < j < |r| ==> r[i] < r[j]
    decreases xMax - x
  {
    if x > xMax || xMax < 0 then []
    else
      var x' := if x < 0 then 0 else x;
      if x' > width then []
      else
        var rest := SpanFrom(x' + 1, xMax, width);
        assert forall j :: 0 <= j < |rest| ==> rest[j] in rest;
        [x'] + rest
  }

  /** The x values visited on a scanline whose edge intercepts are c1, c2. */
  predicate InSpan(x: int, c1: real, c2: real, width: int) {
    var a := DoubleToInt(c1);
    var b := DoubleToInt(c2);
    Max(a, b) >= 0 && Max(Min(a, b), 0) <= x <= Min(Max(a, b), width)
  }

  /** The pixels (x, y) for the x values xs, in order. */
  function PixelsOnRow(xs: seq<int>, y: int): (r: seq<Pixel>)
    ensures forall p :: p in r <==> p.y == y && p.x in xs
  {
    if xs == [] then []
    else
      assert xs == [xs[0]] + xs[1..];
      [Pixel(xs[0], y)] + PixelsOnRow(xs[1..], y)
  }

  /** One scanline of either fill routine: the x loop over the truncated
      intercepts c1, c2. */
  function ScanlinePixels(c1: real, c2: real, y: int, width: int): seq<Pixel> {
    var a := DoubleToInt(c1);
    var b := DoubleToInt(c2);
    PixelsOnRow(SpanFrom(Min(a, b), Max(a, b), width), y)
  }

  lemma ScanlinePixelsVisits(c1: real, c2: real, y: int, width: int, p: Pixel)
    ensures p in ScanlinePixels(c1, c2, y, width) <==> p.y == y && InSpan(p.x, c1, c2, width)
  {
  }

  // ---------------------------------------------------------------------
  // Edge intercepts.

  /** The source's `curx` for one edge: it holds x0 on scanline y0 and moves
      by `slope` per scanline. */
  datatype Cursor = Cursor(x0: real, y0: int, slope: real)

  /** The value of `curx` on scanline y. The loops add the slope once per
      scanline; in exact arithmetic the running sum is this closed form. */
  function Intercept(e: Cursor, y: int): real {
    e.x0 + e.slope * (y - e.y0) as real
  }

  // ---------------------------------------------------------------------
  // Bottom-flat fill: scanlines from the apex downwards (increasing y).

  /** The pixels the bottom-flat loop visits from scanline s to scanline
      `last` for the edge cursors e1 and e2. */
  predicate BottomVisits(p: Pixel, s: int, last: int, e1: Cursor, e2: Cursor, width: int, height: int) {
    && last >= 0
    && Max(s, 0) <= p.y <= Min(last, height)
    && InSpan(p.x, Intercept(e1, p.y), Intercept(e2, p.y), width)
  }

  /** The scanline loop of fillBottomFlatTriangle from scanline s on: stops
      when the bottom lies above the buffer, clamps a scanline above the
      buffer to 0 and stops past scanline `height` (inclusive). */
  function BottomRows(s: int, last: int, e1: Cursor, e2: Cursor, width: int, height: int): seq<Pixel>
    decreases last - s
  {
    if s > last || last < 0 then []
    else
      var y := if s < 0 then 0 else s;
      if y > height then []
      else ScanlinePixels(Intercept(e1, y), Intercept(e2, y), y, width)
           + BottomRows(y + 1, last, e1, e2, width, height)
  }

  // ---------------------------------------------------------------------
  // Top-flat fill: scanlines from the bottom vertex upwards (decreasing y).

  /** The pixels the top-flat loop visits from scanline s upwards while the
      scanline is below `first`, for the edge cursors e1 and e2. When s lies
      below the buffer the loop jumps to scanline `height` without
      re-testing the loop guard, so scanline `first` itself is visited when
      first == height. */
  predicate TopVisits(p: Pixel, s: int, first: int, e1: Cursor, e2: Cursor, width: int, height: int) {
    && s > first
    && first <= height
    && 0 <= p.y <= Min(s, height)
    && (p.y > first || p.y == height)
    && InSpan(p.x, Intercept(e1, p.y), Intercept(e2, p.y), width)
  }

  /** The scanline loop of fillTopFlatTriangle from scanline s on: stops when
      the top lies below the buffer, clamps a scanline below the buffer to
      `height` and stops above scanline 0. */
  function TopRows(s: int, first: int, e1: Cursor, e2: Cursor, width: int, height: int): seq<Pixel>
    decreases s - first
  {
    if s <= first || first > height then []
    else
      var y := if s > height then height else s;
      if y < 0 then []
      else ScanlinePixels(Intercept(e1, y), Intercept(e2, y), y, width)
           + TopRows(y - 1, first, e1, e2, width, height)
  }

  // ---------------------------------------------------------------------
  // The loops visit exactly the closed-form pixel sets.

  lemma {:induction false} BottomRowsVisits(s: int, last: int, e1: Cursor, e2: Cursor,
                                            width: int, height: int, p: Pixel)
    ensures p in BottomRows(s, last, e1, e2, width, height)
            <==> BottomVisits(p, s, last, e1, e2, width, height)
    decreases last - s
  {
    if s > last || last < 0 {
    } else {
      var y := if s < 0 then 0 else s;
      if y <= height {
        BottomRowsVisits(y + 1, last, e1, e2, width, height, p);
        ScanlinePixelsVisits(Intercept(e1, y), Intercept(e2, y), y, width, p);
      }
    }
  }

  lemma {:induction false} TopRowsVisits(s: int, first: int, e1: Cursor, e2: Cursor,
                                         width: int, height: int, p: Pixel)
    ensures p in TopRows(s, first, e1, e2, width, height)
            <==> TopVisits(p, s, first, e1, e2, width, height)
    decreases s - first
  {
    if s <= first || first > height {
    } else {
      var y := if s > height then height else s;
      if y >= 0 {
        TopRowsVisits(y - 1, first, e1, e2, width, height, p);
        ScanlinePixelsVisits(Intercept(e1, y), Intercept(e2, y), y, width, p);
      }
    }
  }

  // ---------------------------------------------------------------------
  // The two fill routines.

  /** The inverse slope (a.x - b.x) / (a.y - b.y) of an edge: both
      differences are Java int subtractions, which wrap, and the quotient
      is taken in double. A horizontal edge divides by zero in the source;
      the fill routines never read such a slope on a scanline they visit,
      so 0 stands in for it. */
  function InvSlope(a: Pixel, b: Pixel): (s: real)
    ensures InIntRange(a.x - b.x) && InIntRange(a.y - b.y) && a.y != b.y ==>
              s * (a.y - b.y) as real == (a.x - b.x) as real
  {
    var dy := Wrap32(a.y - b.y);
    if dy == 0 then 0.0 else Wrap32(a.x - b.x) as real / dy as real
  }

  /** `curx` of fillBottomFlatTriangle on the first scanline its loop
      visits: the apex's x on the apex's scanline, or, for an apex above the
      buffer, the apex's x plus slope * (0 - apex.y) on scanline 0, where
      `0 - apex.y` is a wrapping int subtraction. Unless it wraps, the
      cursor lies on the line through the apex. */
  function BottomCursor(apex: Pixel, slope: real): (e: Cursor)
    ensures e.slope == slope
    ensures apex.y >= 0 ==> e.x0 == apex.x as real && e.y0 == apex.y
    ensures apex.y < 0 ==> e.y0 == 0
    ensures InIntRange(0 - apex.y) ==>
              forall y :: Intercept(e, y) == apex.x as real + slope * (y - apex.y) as real
  {
    if apex.y < 0 then Cursor(apex.x as real + slope * Wrap32(0 - apex.y) as real, 0, slope)
    else Cursor(apex.x as real, apex.y, slope)
  }

  /** `curx` of fillTopFlatTriangle on the first scanline its loop visits:
      the bottom vertex's x on its own scanline, or, for a vertex below the
      buffer, its x minus slope * (bottom.y - height) on scanline `height`,
      where the difference is a wrapping int subtraction. Unless it wraps,
      the cursor lies on the line through the bottom vertex. */
  function TopCursor(bottom: Pixel, slope: real, height: int): (e: Cursor)
    ensures e.slope == slope
    ensures bottom.y <= height ==> e.x0 == bottom.x as real && e.y0 == bottom.y
    ensures bottom.y > height ==> e.y0 == height
    ensures InIntRange(bottom.y - height) ==>
              forall y :: Intercept(e, y) == bottom.x as real + slope * (y - bottom.y) as real
  {
    if bottom.y > height then Cursor(bottom.x as real - slope * Wrap32(bottom.y - height) as real, height, slope)
    else Cursor(bottom.x as real, bottom.y, slope)
  }

  /** Without wrap-around, the cursor of the edge from v to w reads v.x on
      v's scanline and w.x on w's: it runs along that edge. */
  lemma CursorFollowsEdge(e: Cursor, v: Pixel, w: Pixel)
    requires v.y != w.y && InIntRange(w.x - v.x) && InIntRange(w.y - v.y)
    requires e.slope == InvSlope(w, v)
    requires forall y :: Intercept(e, y) == v.x as real + e.slope * (y - v.y) as real
    ensures Intercept(e, v.y) == v.x as real
    ensures Intercept(e, w.y) == w.x as real
  {
    assert Intercept(e, w.y) == v.x as real + e.slope * (w.y - v.y) as real;
  }

  /** fillBottomFlatTriangle(v1, v2, v3): v1 is the apex, v2 and v3 the two
      bottom vertices. */
  function FillBottomFlat(v1: Pixel, v2: Pixel, v3: Pixel, width: int, height: int): seq<Pixel>
    requires v2.y == v3.y
  {
    BottomRows(v1.y, v2.y, BottomCursor(v1, InvSlope(v2, v1)), BottomCursor(v1, InvSlope(v3, v1)), width, height)
  }

  /** fillTopFlatTriangle(v1, v2, v3): v1 and v2 are the two top vertices,
      v3 the bottom vertex. */
  function FillTopFlat(v1: Pixel, v2: Pixel, v3: Pixel, width: int, height: int): seq<Pixel>
    requires v1.y == v2.y
  {
    TopRows(v3.y, v1.y, TopCursor(v3, InvSlope(v1, v3), height), TopCursor(v3, InvSlope(v2, v3), height), width, height)
  }

  /** Exactly the pixels of the scanlines from max(v1.y, 0) to
      min(v2.y, height) are visited, each between its clamped truncated
      intercepts; in particular 0 <= x <= width and 0 <= y <= height, both
      bounds inclusive. */
  lemma FillBottomFlatVisits(v1: Pixel, v2: Pixel, v3: Pixel, width: int, height: int, p: Pixel)
    requires v2.y == v3.y
    ensures p in FillBottomFlat(v1, v2, v3, width, height) <==>
              && 0 <= v2.y
              && Max(v1.y, 0) <= p.y <= Min(v2.y, height)
              && InSpan(p.x, Intercept(BottomCursor(v1, InvSlope(v2, v1)), p.y),
                        Intercept(BottomCursor(v1, InvSlope(v3, v1)), p.y), width)
    ensures p in FillBottomFlat(v1, v2, v3, width, height) ==>
              0 <= p.x <= width && 0 <= p.y <= height && v1.y <= p.y <= v2.y
  {
    BottomRowsVisits(v1.y, v2.y, BottomCursor(v1, InvSlope(v2, v1)), BottomCursor(v1, InvSlope(v3, v1)), width, height, p);
  }

  /** Exactly the pixels of the scanlines strictly below v1.y (and at most
      min(v3.y, height)) are visited, each between its clamped truncated
      intercepts. The one exception is scanline v1.y itself when it equals
      `height` and v3 lies below the buffer: the clamp jumps there without
      re-testing the loop guard. */
  lemma FillTopFlatVisits(v1: Pixel, v2: Pixel, v3: Pixel, width: int, height: int, p: Pixel)
    requires v1.y == v2.y
    ensures p in FillTopFlat(v1, v2, v3, width, height) <==>
              && v1.y < v3.y
              && v1.y <= height
              && 0 <= p.y <= Min(v3.y, height)
              && (p.y > v1.y || p.y == height)
              && InSpan(p.x, Intercept(TopCursor(v3, InvSlope(v1, v3), height), p.y),
                        Intercept(TopCursor(v3, InvSlope(v2, v3), height), p.y), width)
    ensures p in FillTopFlat(v1, v2, v3, width, height) ==>
              && 0 <= p.x <= width && 0 <= p.y <= height && v1.y <= p.y <= v3.y
              && (p.y > v1.y || p.y == v1.y == height)
  {
    TopRowsVisits(v3.y, v1.y, TopCursor(v3, InvSlope(v1, v3), height), TopCursor(v3, InvSlope(v2, v3), height), width, height, p);
  }

  // ---------------------------------------------------------------------
  // Case dispatch of paintComponent.

  /** A Java int coordinate. */
  predicate IsJavaInt(p: Pixel) {
    InIntRange(p.x) && InIntRange(p.y)
  }

  /** The synthetic fourth vertex of the general case: on the long edge a-c
      at the height of b. The source computes (b.y - a.y) / (c.y - a.y) in
      double but the differences, and c.x - a.x, in wrapping int
      arithmetic, then casts the result back to int. */
  function SplitVertex(a: Pixel, b: Pixel, c: Pixel): (v4: Pixel)
    requires a.y < b.y < c.y
    requires IsJavaInt(a) && IsJavaInt(c)
    ensures v4.y == b.y && InIntRange(v4.x)
  {
    Wrap32NonZero(c.y - a.y);
    Pixel(Lerp(a.x, Wrap32(b.y - a.y), Wrap32(c.y - a.y), Wrap32(c.x - a.x)), b.y)
  }

  /** (int) (x + ((double) num / (double) den) * w). */
  function Lerp(x: int, num: int, den: int, w: int): int
    requires den != 0
  {
    DoubleToInt(x as real + (num as real / den as real) * w as real)
  }

  /** Unless c.y - a.y or c.x - a.x overflows an int, the fourth vertex lies
      on the long edge: its x is between a.x and c.x. */
  lemma SplitVertexOnLongEdge(a: Pixel, b: Pixel, c: Pixel)
    requires a.y < b.y < c.y
    requires IsJavaInt(a) && IsJavaInt(c)
    requires InIntRange(c.y - a.y) && InIntRange(c.x - a.x)
    ensures Min(a.x, c.x) <= SplitVertex(a, b, c).x <= Max(a.x, c.x)
  {
    var n, d, w := b.y - a.y, c.y - a.y, c.x - a.x;
    assert Wrap32(n) == n && Wrap32(d) == d && Wrap32(w) == w;
    LerpBetween(a.x, c.x, n, d);
  }

  lemma LerpBetween(x: int, y: int, n: int, d: int)
    requires 0 < n < d
    requires InIntRange(x) && InIntRange(y)
    ensures Min(x, y) <= Lerp(x, n, d, y - x) <= Max(x, y)
  {
    var t := n as real / d as real;
    var r := x as real + t * (y - x) as real;
    assert Lerp(x, n, d, y - x) == DoubleToInt(r);
    FractionInUnit(n, d);
    BetweenOnSegment(x, y, t);
    TruncBetween(r, Min(x, y), Max(x, y));
  }

  lemma FractionInUnit(n: int, d: int)
    requires 0 < n < d
    ensures 0.0 <= n as real / d as real <= 1.0
  {
  }

  /** When c.x - a.x overflows, the fourth vertex leaves the long edge: for
      a = (-1500000000, 0) and c = (1500000000, 2) the difference wraps to
      -1294967296 and the vertex lands at Integer.MIN_VALUE, far left of
      both end points. */
  lemma SplitVertexWraps()
    ensures SplitVertex(Pixel(-1500000000, 0), Pixel(0, 1), Pixel(1500000000, 2)).x == IntMin
  {
    assert Wrap32(1500000000 - -1500000000) == -1294967296;
  }

  /** a + t*(c - a) lies between a and c for 0 <= t <= 1. */
  lemma BetweenOnSegment(a: int, c: int, t: real)
    requires 0.0 <= t <= 1.0
    ensures Min(a, c) as real <= a as real + t * (c - a) as real <= Max(a, c) as real
  {
    var d := (c - a) as real;
    ProductSign(t, d);
    ProductSign(1.0 - t, d);
    assert t * d + (1.0 - t) * d == d;
  }

  lemma ProductSign(p: real, q: real)
    requires p >= 0.0
    ensures q >= 0.0 ==> p * q >= 0.0
    ensures q <= 0.0 ==> p * q <= 0.0
  {
  }

  /** Truncation toward zero keeps a value between two Java ints there. */
  lemma TruncBetween(x: real, lo: int, hi: int)
    requires IntMin <= lo && hi <= IntMax
    requires lo as real <= x <= hi as real
    ensures lo <= DoubleToInt(x) <= hi
  {
  }

  /** A call of one of the two fill routines, with its three vertices. */
  datatype FillCall =
    | BottomFlat(v1: Pixel, v2: Pixel, v3: Pixel)
    | TopFlat(v1: Pixel, v2: Pixel, v3: Pixel)
  {
    /** The flat side of the call really is flat. */
    predicate WellFormed() {
      if BottomFlat? then v2.y == v3.y else v1.y == v2.y
    }
  }

  /** The fill calls paintComponent makes for the vertices a, b, c sorted by
      y: bottom-flat when the last two share a scanline, else top-flat when
      the first two do, else split at b with the fourth vertex on a-c. */
  function FillPlan(a: Pixel, b: Pixel, c: Pixel): (plan: seq<FillCall>)
    requires a.y <= b.y <= c.y
    requires IsJavaInt(a) && IsJavaInt(b) && IsJavaInt(c)
    ensures forall k :: 0 <= k < |plan| ==> plan[k].WellFormed()
  {
    if b.y == c.y then [BottomFlat(a, b, c)]
    else if a.y == b.y then [TopFlat(a, b, c)]
    else
      var v4 := SplitVertex(a, b, c);
      [BottomFlat(a, b, v4), TopFlat(b, v4, c)]
  }

  function RunFill(call: FillCall, width: int, height: int): seq<Pixel>
    requires call.WellFormed()
  {
    match call
    case BottomFlat(v1, v2, v3) => FillBottomFlat(v1, v2, v3, width, height)
    case TopFlat(v1, v2, v3) => FillTopFlat(v1, v2, v3, width, height)
  }

  /** Every pixel the fill of a triangle hands to calcZBuffer, in order. */
  function FillTriangle(a: Pixel, b: Pixel, c: Pixel, width: int, height: int): seq<Pixel>
    requires a.y <= b.y <= c.y
    requires IsJavaInt(a) && IsJavaInt(b) && IsJavaInt(c)
  {
    var plan := FillPlan(a, b, c);
    if |plan| == 1 then RunFill(plan[0], width, height)
    else RunFill(plan[0], width, height) + RunFill(plan[1], width, height)
  }

  /** The case analysis: the plan splits the triangle exactly when no two
      vertices share a scanline, and then both halves meet at b's scanline
      in the fourth vertex. */
  lemma FillPlanCases(a: Pixel, b: Pixel, c: Pixel)
    requires a.y <= b.y <= c.y
    requires IsJavaInt(a) && IsJavaInt(b) && IsJavaInt(c)
    ensures var plan := FillPlan(a, b, c);
            && (|plan| == 1 || |plan| == 2)
            && (|plan| == 2 <==> a.y < b.y < c.y)
            && (b.y == c.y ==> plan == [BottomFlat(a, b, c)])
            && (a.y == b.y < c.y ==> plan == [TopFlat(a, b, c)])
            && (|plan| == 2 ==>
                  && plan[0].BottomFlat? && plan[1].TopFlat?
                  && plan[0].v1 == a && plan[0].v2 == b && plan[1].v1 == b && plan[1].v3 == c
                  && plan[0].v3 == plan[1].v2
                  && plan[0].v3 == SplitVertex(a, b, c)
                  && plan[0].v3.y == b.y)
  {
  }

  /** Every pixel handed to calcZBuffer lies in [0, width] x [0, height]
      (upper bounds inclusive) and between the top and bottom scanlines of
      the triangle. */
  lemma FillTriangleBounds(a: Pixel, b: Pixel, c: Pixel, width: int, height: int, p: Pixel)
    requires a.y <= b.y <= c.y
    requires IsJavaInt(a) && IsJavaInt(b) && IsJavaInt(c)
    requires p in FillTriangle(a, b, c, width, height)
    ensures 0 <= p.x <= width && 0 <= p.y <= height
    ensures a.y <= p.y <= c.y
  {
    var plan := FillPlan(a, b, c);
    if b.y == c.y {
      FillBottomFlatVisits(a, b, c, width, height, p);
    } else if a.y == b.y {
      FillTopFlatVisits(a, b, c, width, height, p);
    } else {
      var v4 := plan[0].v3;
      FillBottomFlatVisits(a, b, v4, width, height, p);
      FillTopFlatVisits(b, v4, c, width, height, p);
    }
  }

  /** In the split case the two halves share no scanline inside the buffer:
      the bottom-flat half ends at b's scanline and the top-flat half starts
      below it. They can only both visit scanline `height`, which is outside
      the buffer, when b lies on it. */
  lemma SplitHalvesDisjoint(a: Pixel, b: Pixel, c: Pixel, width: int, height: int, p: Pixel)
    requires a.y < b.y < c.y
    requires IsJavaInt(a) && IsJavaInt(b) && IsJavaInt(c)
    requires p in RunFill(FillPlan(a, b, c)[0], width, height)
    requires p in RunFill(FillPlan(a, b, c)[1], width, height)
    ensures p.y == b.y == height
  {
    var v4 := FillPlan(a, b, c)[0].v3;
    FillBottomFlatVisits(a, b, v4, width, height, p);
    FillTopFlatVisits(b, v4, c, width, height, p);
  }
}
