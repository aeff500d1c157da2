/** The Z-buffer of the rasterizer: a width x height grid of cells, each
    holding the colour and the depth (distance to the camera focus) of the
    closest surface point drawn there so far. Modelled as an immutable
    value; Set returns the updated buffer. */
module DepthBuffer {
  import opened Wrappers
  import opened ScreenTypes
  import opened JavaNum

  datatype Cell = Cell(color: Color, depth: real)

  /** The initial content of every cell: black at the largest double. */
  const Background: Cell := Cell(Black, DoubleMaxValue)

  /** The grid is indexed [x][y], as in the source. */
  datatype ZBuffer = ZBuffer(width: int, height: int, cells: seq<seq<Cell>>)
  {
    predicate Valid() {
      && 0 <= width && 0 <= height
      && |cells| == width
      && forall x :: 0 <= x < width ==> |cells[x]| == height
    }

    predicate InRange(x: int, y: int) {
      0 <= x < width && 0 <= y < height
    }

    /** Same dimensions as `other`. */
    predicate SameShape(other: ZBuffer) {
      width == other.width && height == other.height
    }
  }

  /** One write request: a pixel, a colour and a depth. */
  datatype Fragment = Fragment(x: int, y: int, color: Color, depth: real)

  /** The constructor. Java's array creation throws
      NegativeArraySizeException when either dimension is negative; that
      outcome is None. */
  function New(width: int, height: int): (r: Option<ZBuffer>)
    ensures r.None? <==> width < 0 || height < 0
    ensures r.Some? ==> r.value.Valid() && r.value.width == width && r.value.height == height
    ensures r.Some? ==> forall x, y :: r.value.InRange(x, y) ==> r.value.cells[x][y] == Background
  {
    if width < 0 || height < 0 then None
    else Some(ZBuffer(width, height, seq(width, _ => seq(height, _ => Background))))
  }

  /** set: an out-of-range pixel is ignored; otherwise the cell takes the
      new colour and depth exactly when the new depth is strictly smaller
      than the stored one. No other cell changes. */
  function Set(z: ZBuffer, x: int, y: int, color: Color, depth: real): (r: ZBuffer)
    requires z.Valid()
    ensures r.Valid() && r.SameShape(z)
    ensures !z.InRange(x, y) ==> r == z
    ensures z.InRange(x, y) ==>
              r.cells[x][y] == (if depth < z.cells[x][y].depth then Cell(color, depth) else z.cells[x][y])
    ensures forall i, j :: z.InRange(i, j) && (i != x || j != y) ==> r.cells[i][j] == z.cells[i][j]
  {
    if x >= z.width || y >= z.height || x < 0 || y < 0 then z
    else if depth < z.cells[x][y].depth then
      z.(cells := z.cells[x := z.cells[x][y := Cell(color, depth)]])
    else z
  }

  /** getDeepness: the stored depth, or Double.MIN_VALUE outside the grid. */
  function GetDeepness(z: ZBuffer, x: int, y: int): (d: real)
    requires z.Valid()
    ensures z.InRange(x, y) ==> d == z.cells[x][y].depth
    ensures !z.InRange(x, y) ==> d == DoubleMinValue && d > 0.0
  {
    if x >= z.width || y >= z.height || x < 0 || y < 0 then DoubleMinValue
    else z.cells[x][y].depth
  }

  /** getColor: the stored colour; an index outside the grid makes Java
      throw ArrayIndexOutOfBoundsException, which is None here. */
  function GetColor(z: ZBuffer, x: int, y: int): (c: Option<Color>)
    requires z.Valid()
    ensures c.Some? <==> z.InRange(x, y)
    ensures c.Some? ==> c.value == z.cells[x][y].color
  {
    if 0 <= x < z.width && 0 <= y < z.height then Some(z.cells[x][y].color) else None
  }

  function GetWidth(z: ZBuffer): (w: int)
    requires z.Valid()
    ensures w == |z.cells|
  {
    z.width
  }

  function GetHeight(z: ZBuffer): (h: int)
    requires z.Valid()
    ensures forall x :: 0 <= x < |z.cells| ==> h == |z.cells[x]|
  {
    z.height
  }

  /** getWidth and getHeight report the constructor's arguments. */
  lemma NewDimensions(width: int, height: int)
    requires 0 <= width && 0 <= height
    ensures GetWidth(New(width, height).value) == width
    ensures GetHeight(New(width, height).value) == height
  {
    var z := New(width, height).value;
    if width > 0 {
      assert |z.cells[0]| == height;
    }
  }

  // ---------------------------------------------------------------------
  // Properties of set.

  /** A write never makes a cell farther away. */
  lemma SetNeverIncreasesDepth(z: ZBuffer, x: int, y: int, color: Color, depth: real, i: int, j: int)
    requires z.Valid() && z.InRange(i, j)
    ensures Set(z, x, y, color, depth).cells[i][j].depth <= z.cells[i][j].depth
  {
  }

  /** Repeating a write changes nothing. */
  lemma SetIdempotent(z: ZBuffer, x: int, y: int, color: Color, depth: real)
    requires z.Valid()
    ensures var once := Set(z, x, y, color, depth);
            Set(once, x, y, color, depth) == once
  {
  }

  /** Two writes commute unless they hit the same pixel at the same depth
      (then the first one is kept). */
  lemma SetCommutes(z: ZBuffer, f: Fragment, g: Fragment)
    requires z.Valid()
    requires f.x != g.x || f.y != g.y || f.depth != g.depth
    ensures Set(Set(z, f.x, f.y, f.color, f.depth), g.x, g.y, g.color, g.depth)
         == Set(Set(z, g.x, g.y, g.color, g.depth), f.x, f.y, f.color, f.depth)
  {
    var fg := Set(Set(z, f.x, f.y, f.color, f.depth), g.x, g.y, g.color, g.depth);
    var gf := Set(Set(z, g.x, g.y, g.color, g.depth), f.x, f.y, f.color, f.depth);
    forall i | 0 <= i < z.width
      ensures fg.cells[i] == gf.cells[i]
    {
      forall j | 0 <= j < z.height
        ensures fg.cells[i][j] == gf.cells[i][j]
      {
      }
    }
  }

  /** At the same pixel and depth, the first writer keeps the cell. */
  lemma TieKeepsFirstWriter(z: ZBuffer, x: int, y: int, c1: Color, c2: Color, depth: real)
    requires z.Valid() && z.InRange(x, y) && depth < z.cells[x][y].depth
    ensures Set(Set(z, x, y, c1, depth), x, y, c2, depth).cells[x][y] == Cell(c1, depth)
  {
  }

  /** Two writes to one pixel at different depths: whichever comes first,
      the cell ends up with the closer one, provided it beats the stored
      depth. */
  lemma CloserWriteWinsEitherOrder(z: ZBuffer, x: int, y: int, c1: Color, d1: real, c2: Color, d2: real)
    requires z.Valid() && z.InRange(x, y)
    requires d1 < d2 && d1 < z.cells[x][y].depth
    ensures Set(Set(z, x, y, c1, d1), x, y, c2, d2).cells[x][y] == Cell(c1, d1)
    ensures Set(Set(z, x, y, c2, d2), x, y, c1, d1).cells[x][y] == Cell(c1, d1)
  {
  }

  // ---------------------------------------------------------------------
  // A sequence of writes.

  /** The buffer after the writes of `fs`, in order. */
  function Apply(z: ZBuffer, fs: seq<Fragment>): (r: ZBuffer)
    requires z.Valid()
    ensures r.Valid() && r.SameShape(z)
    decreases |fs|
  {
    if fs == [] then z
    else
      var last := fs[|fs| - 1];
      Set(Apply(z, fs[..|fs| - 1]), last.x, last.y, last.color, last.depth)
  }

  predicate At(f: Fragment, x: int, y: int) {
    f.x == x && f.y == y
  }

  /** fs[k] is the first of the closest writes to pixel (x, y): every earlier
      write there is strictly farther, every later one at least as far. */
  predicate FirstClosest(fs: seq<Fragment>, k: int, x: int, y: int) {
    && 0 <= k < |fs| && At(fs[k], x, y)
    && (forall j :: 0 <= j < k && At(fs[j], x, y) ==> fs[j].depth > fs[k].depth)
    && (forall j :: k < j < |fs| && At(fs[j], x, y) ==> fs[j].depth >= fs[k].depth)
  }

  /** The depth test makes the buffer order-insensitive up to ties: after
      any sequence of writes, a cell is no farther than its initial content
      and than every write to it. Either no write to it came strictly
      closer than its initial content, which it then keeps, or it holds the
      first of the closest writes, which did. */
  lemma {:induction false} ClosestWriteWins(z: ZBuffer, fs: seq<Fragment>, x: int, y: int)
    requires z.Valid() && z.InRange(x, y)
    ensures Apply(z, fs).cells[x][y].depth <= z.cells[x][y].depth
    ensures forall k :: 0 <= k < |fs| && At(fs[k], x, y) ==> Apply(z, fs).cells[x][y].depth <= fs[k].depth
    ensures || (&& Apply(z, fs).cells[x][y] == z.cells[x][y]
                && forall k :: 0 <= k < |fs| && At(fs[k], x, y) ==> fs[k].depth >= z.cells[x][y].depth)
            || exists k :: && FirstClosest(fs, k, x, y) && fs[k].depth < z.cells[x][y].depth
                           && Apply(z, fs).cells[x][y] == Cell(fs[k].color, fs[k].depth)
    decreases |fs|
  {
    if fs != [] {
      var init := fs[..|fs| - 1];
      var last := fs[|fs| - 1];
      var before := Apply(z, init);
      ClosestWriteWins(z, init, x, y);
      var after := Apply(z, fs);
      assert after == Set(before, last.x, last.y, last.color, last.depth);
      if At(last, x, y) && last.depth < before.cells[x][y].depth {
        assert after.cells[x][y] == Cell(last.color, last.depth);
        assert FirstClosest(fs, |fs| - 1, x, y) by {
          forall j | 0 <= j < |fs| - 1 && At(fs[j], x, y)
            ensures fs[j].depth > last.depth
          {
            assert init[j] == fs[j];
          }
        }
      } else {
        assert after.cells[x][y] == before.cells[x][y];
        forall k | 0 <= k < |fs| && At(fs[k], x, y)
          ensures after.cells[x][y].depth <= fs[k].depth
        {
          if k < |fs| - 1 {
            assert init[k] == fs[k];
          }
        }
        if exists k :: && FirstClosest(init, k, x, y) && init[k].depth < z.cells[x][y].depth
                       && before.cells[x][y] == Cell(init[k].color, init[k].depth) {
          var k :| && FirstClosest(init, k, x, y) && init[k].depth < z.cells[x][y].depth
                   && before.cells[x][y] == Cell(init[k].color, init[k].depth);
          assert FirstClosest(fs, k, x, y) by {
            forall j | 0 <= j < k && At(fs[j], x, y)
              ensures fs[j].depth > fs[k].depth
            {
              assert init[j] == fs[j];
            }
            forall j | k < j < |fs| && At(fs[j], x, y)
              ensures fs[j].depth >= fs[k].depth
            {
              if j < |fs| - 1 {
                assert init[j] == fs[j];
              }
            }
          }
        } else {
          forall k | 0 <= k < |fs| && At(fs[k], x, y)
            ensures fs[k].depth >= z.cells[x][y].depth
          {
            if k < |fs| - 1 {
              assert init[k] == fs[k];
            }
          }
        }
      }
    }
  }

  /** A pixel no write touches keeps its initial content. */
  lemma UntouchedPixelUnchanged(z: ZBuffer, fs: seq<Fragment>, x: int, y: int)
    requires z.Valid() && z.InRange(x, y)
    requires forall k :: 0 <= k < |fs| ==> !At(fs[k], x, y)
    ensures Apply(z, fs).cells[x][y] == z.cells[x][y]
  {
    ClosestWriteWins(z, fs, x, y);
  }
}
