/** The per-triangle passes of PaintablePanel.paintComponent and the
    per-pixel depth test of calcZBuffer.

    What calcZBuffer computes from the barycentric coordinates of a pixel
    (the reconstructed surface point, its distance to the camera focus and
    the three dot products of the Phong model) is an input: a `Sample`, or
    None when the barycentric constructor throws because the projected
    triangle is degenerate. */
module Render {
  import opened Wrappers
  import opened ScreenTypes
  import opened Bresenham
  import opened ScanFill
  import opened Shading
  import opened DepthBuffer
  import opened JavaNum

  /** What calcZBuffer derives for one pixel: the depth (the distance of the
      reconstructed point to the camera focus), the dot products N.L, V.N,
      V.R and pow(R.V, n). */
  datatype Sample = Sample(depth: real, nl: real, vn: real, vr: real, rvPow: real)

  /** The colour calcZBuffer stores: black without a light. */
  function ShadeColor(light: Option<Light>, s: Sample): Color {
    match light
    case None => Black
    case Some(l) => PhongColor(l, s.nl, s.vn, s.vr, s.rvPow)
  }

  /** calcZBuffer for pixel (x, y): nothing happens when the barycentric
      coordinates fail; otherwise the cell is written when the depth is
      strictly below the one getDeepness reports. */
  function CalcZBuffer(z: ZBuffer, x: int, y: int, sample: Option<Sample>, light: Option<Light>): (r: ZBuffer)
    requires z.Valid()
    ensures r.Valid() && r.SameShape(z)
    ensures sample.None? ==> r == z
    ensures !z.InRange(x, y) ==> r == z
    ensures z.InRange(x, y) && sample.Some? ==>
              r.cells[x][y] == (if sample.value.depth < z.cells[x][y].depth
                                then Cell(ShadeColor(light, sample.value), sample.value.depth)
                                else z.cells[x][y])
    ensures forall i, j :: z.InRange(i, j) && (i != x || j != y) ==> r.cells[i][j] == z.cells[i][j]
  {
    match sample
    case None => z
    case Some(s) =>
      if s.depth < GetDeepness(z, x, y) then Set(z, x, y, ShadeColor(light, s), s.depth) else z
  }

  /** The early depth test of calcZBuffer never decides anything that set
      would not: outside the grid the sentinel Double.MIN_VALUE lets a depth
      of 0 through, but set ignores the pixel. So calcZBuffer is exactly a
      set with the shaded colour. */
  lemma CalcZBufferIsSet(z: ZBuffer, x: int, y: int, s: Sample, light: Option<Light>)
    requires z.Valid()
    ensures CalcZBuffer(z, x, y, Some(s), light) == Set(z, x, y, ShadeColor(light, s), s.depth)
  {
  }

  /** Without a light every write is black. */
  lemma NoLightWritesBlack(z: ZBuffer, x: int, y: int, sample: Option<Sample>)
    requires z.Valid() && z.InRange(x, y)
    requires CalcZBuffer(z, x, y, sample, None).cells[x][y] != z.cells[x][y]
    ensures CalcZBuffer(z, x, y, sample, None).cells[x][y].color == Black
  {
  }

  // ---------------------------------------------------------------------
  // The fill pass of one triangle.

  /** The writes calcZBuffer makes for the pixels `ps`, dropping those whose
      barycentric coordinates fail. */
  function Fragments(ps: seq<Pixel>, sampler: Pixel -> Option<Sample>, light: Option<Light>): (fs: seq<Fragment>)
    ensures |fs| <= |ps|
    ensures forall k :: 0 <= k < |fs| ==> Pixel(fs[k].x, fs[k].y) in ps
  {
    if ps == [] then []
    else
      var p := ps[|ps| - 1];
      var rest := Fragments(ps[..|ps| - 1], sampler, light);
      assert forall k :: 0 <= k < |rest| ==> Pixel(rest[k].x, rest[k].y) in ps[..|ps| - 1];
      match sampler(p)
      case None => rest
      case Some(s) => rest + [Fragment(p.x, p.y, ShadeColor(light, s), s.depth)]
  }

  /** calcZBuffer applied to the pixels `ps` in order. */
  function ShadePixels(z: ZBuffer, ps: seq<Pixel>, sampler: Pixel -> Option<Sample>, light: Option<Light>): (r: ZBuffer)
    requires z.Valid()
    ensures r.Valid() && r.SameShape(z)
  {
    if ps == [] then z
    else
      var p := ps[|ps| - 1];
      CalcZBuffer(ShadePixels(z, ps[..|ps| - 1], sampler, light), p.x, p.y, sampler(p), light)
  }

  /** The fill pass is a sequence of plain set calls. */
  lemma {:induction false} ShadePixelsIsApply(z: ZBuffer, ps: seq<Pixel>, sampler: Pixel -> Option<Sample>, light: Option<Light>)
    requires z.Valid()
    ensures ShadePixels(z, ps, sampler, light) == Apply(z, Fragments(ps, sampler, light))
  {
    if ps != [] {
      var p := ps[|ps| - 1];
      var init := ps[..|ps| - 1];
      ShadePixelsIsApply(z, init, sampler, light);
      var rest := Fragments(init, sampler, light);
      match sampler(p)
      case None =>
      case Some(s) =>
        var fs := rest + [Fragment(p.x, p.y, ShadeColor(light, s), s.depth)];
        assert fs[..|fs| - 1] == rest;
        CalcZBufferIsSet(ShadePixels(z, init, sampler, light), p.x, p.y, s, light);
    }
  }

  // ---------------------------------------------------------------------
  // One triangle.

  /** The three projected vertices in triangle order and the same vertices
      sorted by y (QuickSortVertices is not part of this model), with the
      per-pixel sampler of this triangle. */
  datatype TriangleInput = TriangleInput(screen: seq<Pixel>, sorted: seq<Pixel>, sampler: Pixel -> Option<Sample>)
  {
    predicate Valid() {
      && |screen| == 3 && |sorted| == 3
      && multiset(sorted) == multiset(screen)
      && sorted[0].y <= sorted[1].y <= sorted[2].y
      && IsJavaInt(sorted[0]) && IsJavaInt(sorted[1]) && IsJavaInt(sorted[2])
    }
  }

  /** Edge i of the edge pass: drawLine from vertex i to vertex (i+1) % 3. */
  function EdgeLine(vs: seq<Pixel>, i: int): seq<Pixel>
    requires |vs| == 3 && 0 <= i < 3
  {
    var j := (i + 1) % 3;
    IdealLine(vs[i].x, vs[i].y, vs[j].x, vs[j].y)
  }

  /** The edge pass: the three edges in order. */
  function Wireframe(vs: seq<Pixel>): (r: seq<Pixel>)
    requires |vs| == 3
    ensures |r| == |EdgeLine(vs, 0)| + |EdgeLine(vs, 1)| + |EdgeLine(vs, 2)|
    ensures forall p :: p in r <==> p in EdgeLine(vs, 0) || p in EdgeLine(vs, 1) || p in EdgeLine(vs, 2)
  {
    EdgeLine(vs, 0) + EdgeLine(vs, 1) + EdgeLine(vs, 2)
  }

  /** Each drawLine starts at its first end point and leaves the second to
      the next edge, so the outline passes through every vertex that is
      not a repeat of the one after it. */
  lemma WireframeContainsVertices(vs: seq<Pixel>, i: int)
    requires |vs| == 3 && 0 <= i < 3
    requires vs[i] != vs[(i + 1) % 3]
    ensures vs[i] in Wireframe(vs)
  {
    var a := vs[i];
    var b := vs[(i + 1) % 3];
    LineEmptyIffDegenerate(a.x, a.y, b.x, b.y);
    LineStartsAtFirstEndpoint(a.x, a.y, b.x, b.y);
    assert EdgeLine(vs, i)[0] == a;
    assert a in EdgeLine(vs, i);
  }

  /** What paintComponent does for one triangle: the white pixels of the
      point pass, the white pixels of the edge pass, and the Z-buffer after
      the fill pass. */
  datatype TriangleDraw = TriangleDraw(points: seq<Pixel>, lines: seq<Pixel>, buffer: ZBuffer)

  /** The fill pass of a triangle over a buffer: the fill pixels of its
      sorted vertices, clamped to the buffer's own width and height (the
      panel and its Z-buffer have the same size). */
  function FillPass(z: ZBuffer, t: TriangleInput, light: Option<Light>): (r: ZBuffer)
    requires z.Valid() && t.Valid()
    ensures r.Valid() && r.SameShape(z)
  {
    ShadePixels(z, FillTriangle(t.sorted[0], t.sorted[1], t.sorted[2], z.width, z.height), t.sampler, light)
  }

  function RenderTriangle(z: ZBuffer, modes: DrawModes, t: TriangleInput, light: Option<Light>): (r: TriangleDraw)
    requires z.Valid() && t.Valid()
    ensures r.buffer.Valid() && r.buffer.SameShape(z)
    ensures modes.points ==> r.points == t.screen
    ensures !modes.points ==> r.points == []
    ensures modes.edges ==> r.lines == Wireframe(t.screen)
    ensures !modes.edges ==> r.lines == []
    ensures modes.faces ==> r.buffer == FillPass(z, t, light)
    ensures !modes.faces ==> r.buffer == z
  {
    TriangleDraw(
      if modes.points then t.screen else [],
      if modes.edges then Wireframe(t.screen) else [],
      if modes.faces then FillPass(z, t, light) else z)
  }

  /** A fill pass changes only pixels its fill visits, and leaves each of
      them no farther away than before. */
  lemma FillPassTouchesOnlyCovered(z: ZBuffer, t: TriangleInput, light: Option<Light>, x: int, y: int)
    requires z.Valid() && t.Valid() && z.InRange(x, y)
    ensures FillPass(z, t, light).cells[x][y].depth <= z.cells[x][y].depth
    ensures Pixel(x, y) !in FillTriangle(t.sorted[0], t.sorted[1], t.sorted[2], z.width, z.height) ==>
              FillPass(z, t, light).cells[x][y] == z.cells[x][y]
  {
    var ps := FillTriangle(t.sorted[0], t.sorted[1], t.sorted[2], z.width, z.height);
    var fs := Fragments(ps, t.sampler, light);
    ShadePixelsIsApply(z, ps, t.sampler, light);
    ClosestWriteWins(z, fs, x, y);
    if Pixel(x, y) !in ps {
      forall k | 0 <= k < |fs|
        ensures !At(fs[k], x, y)
      {
        assert Pixel(fs[k].x, fs[k].y) in ps;
      }
      UntouchedPixelUnchanged(z, fs, x, y);
    }
  }

  // ---------------------------------------------------------------------
  // A frame.

  /** The Z-buffer after the fill passes of the triangles `ts`, in scene
      order. */
  function RenderFaces(z: ZBuffer, ts: seq<TriangleInput>, light: Option<Light>): (r: ZBuffer)
    requires z.Valid()
    requires forall k :: 0 <= k < |ts| ==> ts[k].Valid()
    ensures r.Valid() && r.SameShape(z)
  {
    if ts == [] then z
    else FillPass(RenderFaces(z, ts[..|ts| - 1], light), ts[|ts| - 1], light)
  }

  /** All writes of a frame, triangle after triangle. */
  function FrameFragments(ts: seq<TriangleInput>, width: int, height: int, light: Option<Light>): seq<Fragment>
    requires forall k :: 0 <= k < |ts| ==> ts[k].Valid()
  {
    if ts == [] then []
    else
      var t := ts[|ts| - 1];
      assert t.Valid();
      FrameFragments(ts[..|ts| - 1], width, height, light)
        + Fragments(FillTriangle(t.sorted[0], t.sorted[1], t.sorted[2], width, height), t.sampler, light)
  }

  /** Applying writes in two batches is applying them all. */
  lemma {:induction false} ApplyAppend(z: ZBuffer, a: seq<Fragment>, b: seq<Fragment>)
    requires z.Valid()
    ensures Apply(z, a + b) == Apply(Apply(z, a), b)
    decreases |b|
  {
    if b != [] {
      var ab := a + b;
      var last := b[|b| - 1];
      assert ab[..|ab| - 1] == a + b[..|b| - 1];
      assert ab[|ab| - 1] == last;
      ApplyAppend(z, a, b[..|b| - 1]);
      assert Apply(z, ab) == Set(Apply(z, a + b[..|b| - 1]), last.x, last.y, last.color, last.depth);
      assert Apply(Apply(z, a), b) == Set(Apply(Apply(z, a), b[..|b| - 1]), last.x, last.y, last.color, last.depth);
    } else {
      assert a + b == a;
    }
  }

  /** A whole frame is one sequence of set calls. */
  lemma {:induction false} RenderFacesIsApply(z: ZBuffer, ts: seq<TriangleInput>, light: Option<Light>)
    requires z.Valid()
    requires forall k :: 0 <= k < |ts| ==> ts[k].Valid()
    ensures RenderFaces(z, ts, light) == Apply(z, FrameFragments(ts, z.width, z.height, light))
  {
    if ts != [] {
      var init := ts[..|ts| - 1];
      var t := ts[|ts| - 1];
      RenderFacesIsApply(z, init, light);
      var before := RenderFaces(z, init, light);
      var ps := FillTriangle(t.sorted[0], t.sorted[1], t.sorted[2], z.width, z.height);
      ShadePixelsIsApply(before, ps, t.sampler, light);
      ApplyAppend(z, FrameFragments(init, z.width, z.height, light), Fragments(ps, t.sampler, light));
    }
  }

  /** Closest wins across triangles: whatever the scene order, every cell
      of a frame is no farther than any write the frame made to it. It
      keeps its initial content when no write came strictly closer, and
      otherwise holds the first of the closest writes. */
  lemma FrameClosestWins(z: ZBuffer, ts: seq<TriangleInput>, light: Option<Light>, x: int, y: int)
    requires z.Valid() && z.InRange(x, y)
    requires forall k :: 0 <= k < |ts| ==> ts[k].Valid()
    ensures var fs := FrameFragments(ts, z.width, z.height, light);
            var cell := RenderFaces(z, ts, light).cells[x][y];
            && (forall k :: 0 <= k < |fs| && At(fs[k], x, y) ==> cell.depth <= fs[k].depth)
            && (|| (cell == z.cells[x][y] && forall k :: 0 <= k < |fs| && At(fs[k], x, y) ==> fs[k].depth >= z.cells[x][y].depth)
                || exists k :: && FirstClosest(fs, k, x, y) && fs[k].depth < z.cells[x][y].depth
                               && cell == Cell(fs[k].color, fs[k].depth))
  {
    RenderFacesIsApply(z, ts, light);
    ClosestWriteWins(z, FrameFragments(ts, z.width, z.height, light), x, y);
  }

  /** Without a light, a frame rendered into a fresh buffer is all black. */
  lemma {:induction false} NoLightFrameIsBlack(z: ZBuffer, ts: seq<TriangleInput>, x: int, y: int)
    requires z.Valid() && z.InRange(x, y)
    requires forall i, j :: z.InRange(i, j) ==> z.cells[i][j].color == Black
    requires forall k :: 0 <= k < |ts| ==> ts[k].Valid()
    ensures RenderFaces(z, ts, None).cells[x][y].color == Black
  {
    var fs := FrameFragments(ts, z.width, z.height, None);
    FrameClosestWins(z, ts, None, x, y);
    var cell := RenderFaces(z, ts, None).cells[x][y];
    if cell != z.cells[x][y] {
      var k :| FirstClosest(fs, k, x, y) && fs[k].depth < z.cells[x][y].depth && cell == Cell(fs[k].color, fs[k].depth);
      FrameFragmentsBlack(ts, z.width, z.height);
      assert fs[k].color == Black;
    }
  }

  /** Every write of the sequence paints black. */
  predicate AllBlack(fs: seq<Fragment>) {
    forall k :: 0 <= k < |fs| ==> fs[k].color == Black
  }

  /** Every write made without a light is black. */
  lemma {:induction false} FrameFragmentsBlack(ts: seq<TriangleInput>, width: int, height: int)
    requires forall i :: 0 <= i < |ts| ==> ts[i].Valid()
    ensures AllBlack(FrameFragments(ts, width, height, None))
  {
    if ts != [] {
      var init := ts[..|ts| - 1];
      var t := ts[|ts| - 1];
      assert t.Valid();
      assert forall i :: 0 <= i < |init| ==> init[i].Valid();
      var head := FrameFragments(init, width, height, None);
      var ps := FillTriangle(t.sorted[0], t.sorted[1], t.sorted[2], width, height);
      var tail := Fragments(ps, t.sampler, None);
      FrameFragmentsBlack(init, width, height);
      FragmentsBlack(ps, t.sampler);
      assert FrameFragments(ts, width, height, None) == head + tail;
      AllBlackAppend(head, tail);
    }
  }

  lemma {:induction false} FragmentsBlack(ps: seq<Pixel>, sampler: Pixel -> Option<Sample>)
    ensures AllBlack(Fragments(ps, sampler, None))
    decreases |ps|
  {
    if ps != [] {
      var rest := Fragments(ps[..|ps| - 1], sampler, None);
      FragmentsBlack(ps[..|ps| - 1], sampler);
      match sampler(ps[|ps| - 1])
      case None =>
      case Some(sp) =>
        AllBlackAppend(rest, [Fragment(ps[|ps| - 1].x, ps[|ps| - 1].y, ShadeColor(None, sp), sp.depth)]);
    }
  }

  lemma AllBlackAppend(a: seq<Fragment>, b: seq<Fragment>)
    requires AllBlack(a) && AllBlack(b)
    ensures AllBlack(a + b)
  {
    forall k | 0 <= k < |a + b|
      ensures (a + b)[k].color == Black
    {
      if k >= |a| {
        assert (a + b)[k] == b[k - |a|];
      }
    }
  }

  // ---------------------------------------------------------------------
  // paintComponent as a whole.

  /** The passes of every triangle of the scene in order: the white pixels
      of the point passes, the white pixels of the edge passes, and the
      Z-buffer after the fill passes. */
  function DrawAll(z: ZBuffer, modes: DrawModes, ts: seq<TriangleInput>, light: Option<Light>): (r: TriangleDraw)
    requires z.Valid()
    requires forall k :: 0 <= k < |ts| ==> ts[k].Valid()
    ensures r.buffer.Valid() && r.buffer.SameShape(z)
    ensures modes.faces ==> r.buffer == RenderFaces(z, ts, light)
    ensures !modes.faces ==> r.buffer == z
    ensures |r.points| == if modes.points then 3 * |ts| else 0
    ensures !modes.edges ==> r.lines == []
  {
    if ts == [] then TriangleDraw([], [], z)
    else
      var prev := DrawAll(z, modes, ts[..|ts| - 1], light);
      var d := RenderTriangle(prev.buffer, modes, ts[|ts| - 1], light);
      TriangleDraw(prev.points + d.points, prev.lines + d.lines, d.buffer)
  }

  /** With the point pass on, the white point pixels of a frame are the
      projected vertices of every triangle, three per triangle, in scene
      order. */
  lemma DrawAllPoints(z: ZBuffer, modes: DrawModes, ts: seq<TriangleInput>, light: Option<Light>,
                      k: int, i: int)
    requires z.Valid()
    requires forall j :: 0 <= j < |ts| ==> ts[j].Valid()
    requires modes.points && 0 <= k < |ts| && 0 <= i < 3
    ensures 3 * k + i < |DrawAll(z, modes, ts, light).points|
    ensures DrawAll(z, modes, ts, light).points[3 * k + i] == ts[k].screen[i]
  {
    DrawAllCorners(z, modes, ts, light);
    CornersAt(ts, k, i);
  }

  /** The vertices of all triangles, in scene order. */
  function Corners(ts: seq<TriangleInput>): seq<Pixel>
    requires forall k :: 0 <= k < |ts| ==> |ts[k].screen| == 3
  {
    if ts == [] then [] else Corners(ts[..|ts| - 1]) + ts[|ts| - 1].screen
  }

  lemma {:induction false} DrawAllCorners(z: ZBuffer, modes: DrawModes, ts: seq<TriangleInput>, light: Option<Light>)
    requires z.Valid()
    requires forall k :: 0 <= k < |ts| ==> ts[k].Valid()
    requires modes.points
    ensures DrawAll(z, modes, ts, light).points == Corners(ts)
  {
    if ts != [] {
      DrawAllCorners(z, modes, ts[..|ts| - 1], light);
    }
  }

  /** Corner 3k + i is vertex i of triangle k. */
  lemma {:induction false} CornersAt(ts: seq<TriangleInput>, k: int, i: int)
    requires forall j :: 0 <= j < |ts| ==> |ts[j].screen| == 3
    requires 0 <= k < |ts| && 0 <= i < 3
    ensures |Corners(ts)| == 3 * |ts|
    ensures Corners(ts)[3 * k + i] == ts[k].screen[i]
  {
    var init := ts[..|ts| - 1];
    var last := ts[|ts| - 1].screen;
    if k < |init| {
      CornersAt(init, k, i);
      assert init[k] == ts[k];
      assert (Corners(init) + last)[3 * k + i] == Corners(init)[3 * k + i];
    } else {
      if init != [] {
        CornersAt(init, 0, 0);
      }
      assert |Corners(init)| == 3 * |init|;
      assert (Corners(init) + last)[3 * k + i] == last[i];
    }
  }

  /** The edge passes of all triangles, in scene order. */
  function Outlines(ts: seq<TriangleInput>): seq<Pixel>
    requires forall k :: 0 <= k < |ts| ==> |ts[k].screen| == 3
  {
    if ts == [] then [] else Outlines(ts[..|ts| - 1]) + Wireframe(ts[|ts| - 1].screen)
  }

  /** With the edge pass on, the white outline pixels of a frame are the
      edge passes of all triangles, in scene order. */
  lemma {:induction false} DrawAllLines(z: ZBuffer, modes: DrawModes, ts: seq<TriangleInput>, light: Option<Light>)
    requires z.Valid()
    requires forall k :: 0 <= k < |ts| ==> ts[k].Valid()
    requires modes.edges
    ensures DrawAll(z, modes, ts, light).lines == Outlines(ts)
  {
    if ts != [] {
      DrawAllLines(z, modes, ts[..|ts| - 1], light);
    }
  }

  /** A pixel is on the outlines exactly when it is on the three drawLine
      calls of some triangle. */
  lemma OutlinesContain(ts: seq<TriangleInput>, p: Pixel)
    requires forall k :: 0 <= k < |ts| ==> |ts[k].screen| == 3
    ensures p in Outlines(ts) <==> exists k :: 0 <= k < |ts| && p in Wireframe(ts[k].screen)
  {
    if p in Outlines(ts) {
      var k := OutlineOwner(ts, p);
    }
    if exists k :: 0 <= k < |ts| && p in Wireframe(ts[k].screen) {
      var k :| 0 <= k < |ts| && p in Wireframe(ts[k].screen);
      OutlineOfEach(ts, k, p);
    }
  }

  /** The triangle whose edge pass drew an outline pixel. */
  lemma {:induction false} OutlineOwner(ts: seq<TriangleInput>, p: Pixel) returns (k: int)
    requires forall j :: 0 <= j < |ts| ==> |ts[j].screen| == 3
    requires p in Outlines(ts)
    ensures 0 <= k < |ts| && p in Wireframe(ts[k].screen)
  {
    var init := ts[..|ts| - 1];
    if p in Wireframe(ts[|ts| - 1].screen) {
      k := |ts| - 1;
    } else {
      k := OutlineOwner(init, p);
      assert init[k] == ts[k];
    }
  }

  /** Every pixel of every triangle's edge pass is on the outlines. */
  lemma {:induction false} OutlineOfEach(ts: seq<TriangleInput>, k: int, p: Pixel)
    requires forall j :: 0 <= j < |ts| ==> |ts[j].screen| == 3
    requires 0 <= k < |ts| && p in Wireframe(ts[k].screen)
    ensures p in Outlines(ts)
  {
    var init := ts[..|ts| - 1];
    if k < |init| {
      assert init[k] == ts[k];
      OutlineOfEach(init, k, p);
    }
  }

  /** The last loop of paintComponent: every pixel of the panel is painted
      with the colour getColor reports for it. */
  function Blit(z: ZBuffer): (image: seq<seq<Color>>)
    requires z.Valid()
    ensures |image| == z.width
    ensures forall x :: 0 <= x < z.width ==> |image[x]| == z.height
    ensures forall x, y :: z.InRange(x, y) ==> GetColor(z, x, y) == Some(image[x][y])
  {
    seq(z.width, x requires 0 <= x < z.width =>
      seq(z.height, y requires 0 <= y < z.height => z.cells[x][y].color))
  }

  /** What paintComponent leaves on a panel of the given size: the pixels
      the point and edge passes painted, and the image the final loop paints
      over the whole panel afterwards. */
  datatype PanelFrame = PanelFrame(points: seq<Pixel>, lines: seq<Pixel>, image: seq<seq<Color>>)

  /** The panel's own call passes `SelectModes(showVertices, showEdges,
      showFaces)` as `modes`; `ToggledPanelLines` states one consequence. */
  function PaintComponent(width: nat, height: nat, modes: DrawModes, ts: seq<TriangleInput>, light: Option<Light>)
    : (r: PanelFrame)
    requires forall k :: 0 <= k < |ts| ==> ts[k].Valid()
    ensures |r.image| == width && forall x :: 0 <= x < width ==> |r.image[x]| == height
  {
    var z := New(width, height).value;
    var d := DrawAll(z, modes, ts, light);
    PanelFrame(d.points, d.lines, Blit(d.buffer))
  }

  /** With the panel's toggles, the white outlines are drawn only when the
      edge toggle is on and the face toggle off, and they are then the edge
      passes of every triangle in scene order. */
  lemma ToggledPanelLines(width: nat, height: nat, showVertices: bool, showEdges: bool, showFaces: bool,
                          ts: seq<TriangleInput>, light: Option<Light>)
    requires forall k :: 0 <= k < |ts| ==> ts[k].Valid()
    ensures var r := PaintComponent(width, height, SelectModes(showVertices, showEdges, showFaces), ts, light);
            && (showEdges && !showFaces ==> r.lines == Outlines(ts))
            && (!(showEdges && !showFaces) ==> r.lines == [])
  {
    if showEdges && !showFaces {
      DrawAllLines(New(width, height).value, SelectModes(showVertices, showEdges, showFaces), ts, light);
    }
  }

  /** Without the fill pass the final loop paints the whole panel black,
      over the points and edges painted before it: the Z-buffer still holds
      its initial content. */
  lemma PanelBlackWithoutFaces(width: nat, height: nat, modes: DrawModes, ts: seq<TriangleInput>,
                               light: Option<Light>, x: int, y: int)
    requires forall k :: 0 <= k < |ts| ==> ts[k].Valid()
    requires !modes.faces
    requires 0 <= x < width && 0 <= y < height
    ensures PaintComponent(width, height, modes, ts, light).image[x][y] == Black
  {
    var z := New(width, height).value;
    assert z.InRange(x, y);
  }

  /** With the fill pass the panel shows the frame's Z-buffer: each pixel
      is the colour of the first of the closest writes the fill passes made
      to it, or black where no write came closer than Double.MAX_VALUE. */
  lemma PanelShowsClosestWrite(width: nat, height: nat, modes: DrawModes, ts: seq<TriangleInput>,
                               light: Option<Light>, x: int, y: int)
    requires forall k :: 0 <= k < |ts| ==> ts[k].Valid()
    requires modes.faces
    requires 0 <= x < width && 0 <= y < height
    ensures var fs := FrameFragments(ts, width, height, light);
            var c := PaintComponent(width, height, modes, ts, light).image[x][y];
            || (c == Black && forall k :: 0 <= k < |fs| && At(fs[k], x, y) ==> fs[k].depth >= DoubleMaxValue)
            || exists k :: FirstClosest(fs, k, x, y) && fs[k].depth < DoubleMaxValue && c == fs[k].color
  {
    var z := New(width, height).value;
    assert z.InRange(x, y);
    var fs := FrameFragments(ts, width, height, light);
    FrameClosestWins(z, ts, light, x, y);
  }
}
