# bcgproject1 rasterizer core in Dafny

This project models the integer and decision layer of the bcgproject1
software rasterizer. It covers:

- the Bresenham line drawer;
- the scanline fill of a projected triangle (flat-case dispatch, the
  synthetic fourth vertex, screen clamping);
- the draw-mode toggles;
- the special cases of the Phong shader and the channel clamp;
- the Z-buffer;
- the frame loop of `paintComponent`;
- the line-oriented scene-file loader of `SceneController`;
- the immutable `Triangle` record.

Everything is a pure function over immutable values. The Z-buffer is a value
that `Set` returns updated. A frame is the fold of the Z-buffer writes its
fill passes make.

Modules, one per component:

- `Bresenham` models `drawLine` and `signum`. `DrawLine` is a method that
  keeps the source's loops and error term. It is proved equal to `IdealLine`,
  an independent closed form: after k major steps the minor offset is
  k·minor/major, rounded to nearest. The line properties are lemmas about
  that closed form.
- `ScanFill` models `fillBottomFlatTriangle`, `fillTopFlatTriangle` and the
  case split of `paintComponent`. Each fill routine is proved to visit
  exactly the pixels given by a closed-form predicate.
- `Shading` models the mode toggles, the Phong special cases,
  `roundToColor`, and the per-channel sum of the ambient, diffuse and
  specular terms.
- `DepthBuffer` models `ZBuffer` and its `Cell`. `Apply` folds a sequence of
  writes, and `ClosestWriteWins` characterises its result.
- `Render` models `calcZBuffer`, the per-triangle passes, the whole frame
  and the final copy of the Z-buffer to the panel.
- `JavaNum` and `JavaText` model the Java library behaviour the core relies
  on:
  - the `(int)` cast of a double, `Math.round`, `Double.MAX_VALUE` and
    `Double.MIN_VALUE`;
  - `String.split(" ")`;
  - `Integer.valueOf`.
- `Triangles` models `Triangle`, `Edge` and `Vertex`.
- `SceneLoader` models `loadScene` as a function from lines and a scene to
  an `Outcome`. The outcome holds the scene as it stands when loading ends,
  and the error, if any. The error datatype separates the messages of
  `NonConformantSceneFile` from the Java runtime exceptions the loader lets
  escape.
- `SceneEncoding` is the loader's partner. It writes a mesh block from
  vertices and 0-based faces, and proves that loading the block yields
  exactly the triangles of those faces, in order.

Interfaces to code outside the core are parameters:

- `Double.valueOf` is `parseReal: string -> Option<real>`.
- `Edge.toString` is `show`.
- What `calcZBuffer` computes from barycentric coordinates is a per-pixel
  sampler: the depth, the three dot products and `pow(R·V, n)`. The sampler
  returns None where the barycentric constructor throws.
- The light is an `Option<Light>`, None when the scene has no light.

Notes on the code's behaviour, which the model follows as written:

- `drawLine` emits max(|Δx|, |Δy|) pixels and never the end point. From
  (0,0) to (10,0) that is 10 pixels, not 11. From (0,0) to (5,5) it is 5,
  not 6 (`Bresenham.DiagonalExample`, `Bresenham.HorizontalExample`).
- Fill mode does not always suppress the point pass. With vertices and faces
  on and edges off, points are still drawn (`Shading.FillSuppressesWireframe`).
- After all triangles, `paintComponent` paints every panel pixel with the
  Z-buffer's colour. Without the fill pass the buffer is still all black, so
  this final loop paints black over the points and edges drawn before it
  (`Render.PanelBlackWithoutFaces`).
- Both fill routines use inclusive bounds (`x <= width`,
  `scanlineY <= height`), so they hand `calcZBuffer` pixels one past the
  buffer. `set` then ignores those pixels.
- The top-flat fill never visits its flat scanline. The one exception is when
  that scanline is exactly `height` and the bottom vertex lies below the
  buffer: the clamp then jumps to it without re-testing the loop guard
  (`ScanFill.FillTopFlatVisits`).
- The fill code subtracts coordinates in 32-bit int arithmetic, which
  wraps. These are the slopes' differences, the clamping jumps
  `0 - scanlineY` and `scanlineY - getHeight()`, and the differences of the
  fourth vertex. With coordinates far apart, the fourth vertex leaves the
  long edge. For (-1500000000, 0), (0, 1), (1500000000, 2) it lands at
  Integer.MIN_VALUE (`ScanFill.SplitVertexWraps`).

## Model

Source paths are relative to the repository root.

| member | source | states |
|---|---|---|
| Bresenham.Signum | src/com/gmail/vitordeatorreao/screen/PaintablePanel.java:369-377 | the sign is -1, 0 or 1, multiplying it by abs(i) gives i back, and it is 0 exactly for 0 |
| Bresenham.LineFrame | src/com/gmail/vitordeatorreao/screen/PaintablePanel.java:216-228 | after the swap, the major extent is max(abs(dx),abs(dy)), the minor is min, and `changed` holds exactly when abs(dy) > abs(dx) |
| Bresenham.IdealLine | src/com/gmail/vitordeatorreao/screen/PaintablePanel.java:229-246 | the line has exactly max(abs(x2-x1),abs(y2-y1)) pixels, one per major step |
| Bresenham.DrawLine | src/com/gmail/vitordeatorreao/screen/PaintablePanel.java:210-247 | the source's loop, with its inner `while (e >= 0)` and its error term, emits exactly the closed-form reference line |
| Bresenham.LineEmptyIffDegenerate | src/com/gmail/vitordeatorreao/screen/PaintablePanel.java:229-230 | no pixel is drawn if and only if the two end points coincide |
| Bresenham.LineStartsAtFirstEndpoint | src/com/gmail/vitordeatorreao/screen/PaintablePanel.java:212-231 | the first pixel is (x1, y1) |
| Bresenham.LineExcludesEndpoint | src/com/gmail/vitordeatorreao/screen/PaintablePanel.java:230-246 | (x2, y2) is never drawn |
| Bresenham.LineSteps | src/com/gmail/vitordeatorreao/screen/PaintablePanel.java:219-245 | between consecutive pixels the dominant coordinate moves by exactly the sign of its delta, and the other one by 0 or its sign |
| Bresenham.LineInBoundingBox | src/com/gmail/vitordeatorreao/screen/PaintablePanel.java:222-245 | every pixel lies in the bounding box of the end points |
| Bresenham.AxisAlignedLineIsStraight | src/com/gmail/vitordeatorreao/screen/PaintablePanel.java:222-245 | on a horizontal or vertical segment the constant coordinate never changes |
| Bresenham.DiagonalExample | src/com/gmail/vitordeatorreao/screen/PaintablePanel.java:229-246 | the line from (0,0) to (5,5) is the five pixels (k, k) for k from 0 to 4 |
| Bresenham.HorizontalExample | src/com/gmail/vitordeatorreao/screen/PaintablePanel.java:229-246 | the line from (0,0) to (10,0) is ten pixels, all on y = 0 |
| ScanFill.SpanFrom | src/com/gmail/vitordeatorreao/screen/PaintablePanel.java:285-297 | the x loop visits exactly the x from max(xMin, 0) to min(xMax, width) when xMax >= 0, width included, in increasing order |
| ScanFill.ScanlinePixelsVisits | src/com/gmail/vitordeatorreao/screen/PaintablePanel.java:283-297 | a pixel is visited on a scanline exactly when its x lies in the clamped span between the (int)-cast intercepts |
| ScanFill.BottomRowsVisits | src/com/gmail/vitordeatorreao/screen/PaintablePanel.java:268-302 | the bottom-flat scanline loop, with its clamp to 0 and its stop past `height`, visits exactly the closed-form pixel set |
| ScanFill.TopRowsVisits | src/com/gmail/vitordeatorreao/screen/PaintablePanel.java:325-358 | the top-flat scanline loop, with its clamp to `height` and its stop below 0, visits exactly the closed-form pixel set |
| ScanFill.FillBottomFlatVisits | src/com/gmail/vitordeatorreao/screen/PaintablePanel.java:257-304 | fillBottomFlatTriangle visits a pixel iff v2 is not above the buffer, its scanline lies in max(v1.y,0)..min(v2.y,height), and its x lies in the clamped span between the two edge cursors; so 0 <= x <= width and 0 <= y <= height |
| ScanFill.FillTopFlatVisits | src/com/gmail/vitordeatorreao/screen/PaintablePanel.java:314-360 | fillTopFlatTriangle visits a pixel iff v1 is above v3 and not below the buffer, its scanline is strictly below v1.y (or is `height`, where the clamp jumps) and at most min(v3.y,height), and its x lies in the clamped span between the two edge cursors |
| ScanFill.InvSlope | src/com/gmail/vitordeatorreao/screen/PaintablePanel.java:260-263 | the inverse slope is dx/dy of the edge, taken from int differences that wrap; without wrap-around, slope times dy gives dx back |
| ScanFill.BottomCursor | src/com/gmail/vitordeatorreao/screen/PaintablePanel.java:265-277 | the bottom-flat cursor starts at the apex, or on scanline 0 after the clamp jump for an apex above the buffer; unless `0 - scanlineY` wraps, it lies on the line through the apex with the given slope |
| ScanFill.TopCursor | src/com/gmail/vitordeatorreao/screen/PaintablePanel.java:322-334 | the top-flat cursor starts at the bottom vertex, or on scanline `height` after the clamp jump for a vertex below the buffer; unless `scanlineY - getHeight()` wraps, it lies on the line through that vertex |
| ScanFill.CursorFollowsEdge | src/com/gmail/vitordeatorreao/screen/PaintablePanel.java:260-300 | without wrap-around, a cursor with the edge's inverse slope reads v.x on v's scanline and w.x on w's, so it runs along the edge from v to w |
| ScanFill.SplitVertex | src/com/gmail/vitordeatorreao/screen/PaintablePanel.java:158-164 | the fourth vertex lies on b's scanline and its x is an int, computed with the int differences wrapping as Java's do |
| ScanFill.SplitVertexOnLongEdge | src/com/gmail/vitordeatorreao/screen/PaintablePanel.java:158-164 | unless c.y - a.y or c.x - a.x overflows an int, the fourth vertex's x lies between a.x and c.x |
| ScanFill.LerpBetween | src/com/gmail/vitordeatorreao/screen/PaintablePanel.java:159-163 | truncating x + (n/d)·(y - x) with 0 < n < d gives an int between x and y |
| ScanFill.SplitVertexWraps | src/com/gmail/vitordeatorreao/screen/PaintablePanel.java:159-163 | for a = (-1500000000, 0), b = (0, 1), c = (1500000000, 2), c.x - a.x wraps and the fourth vertex lands at Integer.MIN_VALUE, off the long edge |
| ScanFill.FillPlan | src/com/gmail/vitordeatorreao/screen/PaintablePanel.java:144-173 | every fill call it issues is flat on the side its routine expects |
| ScanFill.FillPlanCases | src/com/gmail/vitordeatorreao/screen/PaintablePanel.java:143-173 | bottom-flat when the last two vertices share y, else top-flat when the first two do; a split happens exactly when all three y differ, the bottom-flat half running a, b, v4 and the top-flat half b, v4, c, with v4 the fourth vertex |
| ScanFill.FillTriangleBounds | src/com/gmail/vitordeatorreao/screen/PaintablePanel.java:257-360 | every pixel handed to calcZBuffer has 0 <= x <= width and 0 <= y <= height, and lies between the triangle's top and bottom scanlines |
| ScanFill.SplitHalvesDisjoint | src/com/gmail/vitordeatorreao/screen/PaintablePanel.java:158-173 | the two halves of a split share a pixel only on scanline `height`, when b lies on it |
| JavaNum.DoubleToInt | src/com/gmail/vitordeatorreao/screen/PaintablePanel.java:283-284 | the (int) cast truncates toward zero inside the int range and saturates outside it |
| JavaNum.Wrap32 | src/com/gmail/vitordeatorreao/screen/PaintablePanel.java:260-263 | int subtraction gives the one int congruent to the exact difference modulo 2^32, which is the exact difference whenever that fits in an int |
| JavaNum.MathRound | src/com/gmail/vitordeatorreao/screen/PaintablePanel.java:491-493 | Math.round gives the nearest long with ties rounded up inside the long range, Long.MAX_VALUE for every value at or above it and Long.MIN_VALUE for every value at or below it |
| Shading.SelectModes | src/com/gmail/vitordeatorreao/screen/PaintablePanel.java:105-126 | points iff showVertices and not (showEdges and showFaces); edges iff showEdges and not showFaces; faces iff showFaces |
| Shading.FillSuppressesWireframe | src/com/gmail/vitordeatorreao/screen/PaintablePanel.java:105-126 | with faces on, edges are never drawn, and points are drawn exactly when vertices are on and edges are off |
| Shading.TogglesIndependentWithoutFill | src/com/gmail/vitordeatorreao/screen/PaintablePanel.java:105-124 | with faces off, each toggle selects exactly its own pass |
| Shading.PhongFlags | src/com/gmail/vitordeatorreao/screen/PaintablePanel.java:446-461 | flip iff N·L < 0 and V·N < 0; no diffuse iff N·L < 0 and V·N >= 0; no specular iff that same case or V·R < 0 |
| Shading.PhongFlagsSound | src/com/gmail/vitordeatorreao/screen/PaintablePanel.java:446-483 | a computed diffuse term sees N·L >= 0 after the flip; a computed specular term has V·R >= 0; flip and diffuse suppression exclude each other |
| Shading.RoundToColor | src/com/gmail/vitordeatorreao/screen/PaintablePanel.java:503-511 | the result lies in 0..255; it is the identity inside that range and clamps to 0 or 255 outside |
| Shading.RoundToColorMonotone | src/com/gmail/vitordeatorreao/screen/PaintablePanel.java:503-511 | the clamp is monotone and idempotent |
| Shading.Channel | src/com/gmail/vitordeatorreao/screen/PaintablePanel.java:490-493 | a rounded and clamped channel always lies in 0..255 |
| Shading.PhongColor | src/com/gmail/vitordeatorreao/screen/PaintablePanel.java:463-495 | the shaded colour has every channel in 0..255, whatever the light and the dot products |
| Shading.LightBehindSurfaceIsAmbientOnly | src/com/gmail/vitordeatorreao/screen/PaintablePanel.java:449-495 | with the light behind a surface seen from the front, the colour is the ambient term alone |
| Shading.DiffuseNeverDarkens | src/com/gmail/vitordeatorreao/screen/PaintablePanel.java:449-483 | with non-negative coefficients, the diffuse term of each of the three channels is never negative, thanks to the flip |
| DepthBuffer.New | src/com/gmail/vitordeatorreao/screen/ZBuffer.java:31-42 | fails exactly on a negative dimension; otherwise every cell in range is (black, Double.MAX_VALUE) |
| DepthBuffer.NewDimensions | src/com/gmail/vitordeatorreao/screen/ZBuffer.java:31-34 | getWidth and getHeight return the constructor's arguments |
| DepthBuffer.Set | src/com/gmail/vitordeatorreao/screen/ZBuffer.java:51-61 | out of range nothing changes; in range the cell takes the new colour and depth exactly when the depth is strictly smaller; no other cell changes |
| DepthBuffer.GetDeepness | src/com/gmail/vitordeatorreao/screen/ZBuffer.java:69-75 | the stored depth, or the positive sentinel Double.MIN_VALUE out of range |
| DepthBuffer.GetColor | src/com/gmail/vitordeatorreao/screen/ZBuffer.java:83-85 | the stored colour, defined exactly in range (out of range Java throws) |
| DepthBuffer.GetWidth | src/com/gmail/vitordeatorreao/screen/ZBuffer.java:91-93 | the width is the number of columns of the grid |
| DepthBuffer.GetHeight | src/com/gmail/vitordeatorreao/screen/ZBuffer.java:99-101 | the height is the length of every column |
| DepthBuffer.SetNeverIncreasesDepth | src/com/gmail/vitordeatorreao/screen/ZBuffer.java:56-60 | no write makes any cell farther |
| DepthBuffer.SetIdempotent | src/com/gmail/vitordeatorreao/screen/ZBuffer.java:51-61 | repeating a write changes nothing |
| DepthBuffer.SetCommutes | src/com/gmail/vitordeatorreao/screen/ZBuffer.java:51-61 | two writes commute unless they hit the same pixel at the same depth |
| DepthBuffer.TieKeepsFirstWriter | src/com/gmail/vitordeatorreao/screen/ZBuffer.java:57-60 | on equal depth the earlier writer keeps the cell |
| DepthBuffer.CloserWriteWinsEitherOrder | src/com/gmail/vitordeatorreao/screen/ZBuffer.java:57-60 | writes at depths d1 < d2, in either order, leave d1's colour and depth |
| DepthBuffer.Apply | src/com/gmail/vitordeatorreao/screen/ZBuffer.java:51-61 | any sequence of writes keeps the buffer well formed and its dimensions unchanged |
| DepthBuffer.ClosestWriteWins | src/com/gmail/vitordeatorreao/screen/ZBuffer.java:51-61 | after any writes, a cell is no farther than its start or any write to it; it keeps its start when no write is strictly closer than the start, and otherwise holds the first of the closest writes |
| DepthBuffer.UntouchedPixelUnchanged | src/com/gmail/vitordeatorreao/screen/ZBuffer.java:51-61 | a pixel no write touches keeps its content |
| Render.CalcZBuffer | src/com/gmail/vitordeatorreao/screen/PaintablePanel.java:379-501 | no write when the barycentric coordinates fail or the pixel is off the buffer; otherwise the cell takes the shaded colour exactly when the depth is strictly smaller; no other cell changes |
| Render.CalcZBufferIsSet | src/com/gmail/vitordeatorreao/screen/PaintablePanel.java:416-498 | the early getDeepness gate adds nothing to set's own test, so the routine is a plain set |
| Render.NoLightWritesBlack | src/com/gmail/vitordeatorreao/screen/PaintablePanel.java:416-421 | without a light, every cell the routine changes becomes black |
| Render.Fragments | src/com/gmail/vitordeatorreao/screen/PaintablePanel.java:391-498 | every write lands on a pixel the fill handed over, and there are no more writes than pixels |
| Render.ShadePixelsIsApply | src/com/gmail/vitordeatorreao/screen/PaintablePanel.java:285-297 | the fill's calcZBuffer calls are one sequence of set calls |
| Render.Wireframe | src/com/gmail/vitordeatorreao/screen/PaintablePanel.java:116-124 | the edge pass draws exactly the pixels of the three drawLine calls, edge i running from vertex i to vertex (i+1) % 3 |
| Render.WireframeContainsVertices | src/com/gmail/vitordeatorreao/screen/PaintablePanel.java:116-124 | each vertex that differs from the next one is drawn by the edge pass |
| Render.RenderTriangle | src/com/gmail/vitordeatorreao/screen/PaintablePanel.java:105-174 | each pass draws exactly when its mode is on: the point pass the three vertices, the edge pass the three drawLine calls, the fill pass its calcZBuffer writes; a disabled pass draws nothing and leaves the buffer alone |
| Render.FillPassTouchesOnlyCovered | src/com/gmail/vitordeatorreao/screen/PaintablePanel.java:126-173 | the fill pass never makes a cell farther, and leaves every pixel its fill does not visit unchanged |
| Render.RenderFacesIsApply | src/com/gmail/vitordeatorreao/screen/PaintablePanel.java:63-176 | the fill passes of all triangles are one sequence of set calls, triangle after triangle |
| Render.FrameClosestWins | src/com/gmail/vitordeatorreao/screen/PaintablePanel.java:63-176 | in any scene order, each cell is no farther than every write to it; it keeps its start when no write is strictly closer, and otherwise holds the first of the closest writes |
| Render.NoLightFrameIsBlack | src/com/gmail/vitordeatorreao/screen/PaintablePanel.java:416-421 | without a light, a frame rendered into a black buffer stays black |
| Render.FrameFragmentsBlack | src/com/gmail/vitordeatorreao/screen/PaintablePanel.java:420-421 | without a light, every write of a frame is black |
| Render.DrawAll | src/com/gmail/vitordeatorreao/screen/PaintablePanel.java:63-176 | the frame loop draws three points per triangle in point mode and no lines without edges; its buffer equals the fill-only rendering, or the initial buffer when faces are off |
| Render.DrawAllPoints | src/com/gmail/vitordeatorreao/screen/PaintablePanel.java:105-114 | in point mode, point 3k+i of the frame is vertex i of triangle k |
| Render.DrawAllLines | src/com/gmail/vitordeatorreao/screen/PaintablePanel.java:116-124 | in edge mode, the frame's line pixels are the edge passes of all triangles, in scene order |
| Render.OutlinesContain | src/com/gmail/vitordeatorreao/screen/PaintablePanel.java:116-124 | a pixel is on the frame's outlines exactly when some triangle's three drawLine calls draw it |
| Render.Blit | src/com/gmail/vitordeatorreao/screen/PaintablePanel.java:179-184 | the final loop paints each pixel of the panel with the colour getColor reports for it |
| Render.PaintComponent | src/com/gmail/vitordeatorreao/screen/PaintablePanel.java:56-185 | the painted image covers exactly the panel's width x height |
| Render.ToggledPanelLines | src/com/gmail/vitordeatorreao/screen/PaintablePanel.java:105-126 | with the modes the three toggles select, outlines are drawn only with edges on and faces off, and are then every triangle's edge pass in scene order |
| Render.PanelBlackWithoutFaces | src/com/gmail/vitordeatorreao/screen/PaintablePanel.java:56-185 | with faces off, every panel pixel ends black, over the points and edges drawn earlier |
| Render.PanelShowsClosestWrite | src/com/gmail/vitordeatorreao/screen/PaintablePanel.java:56-185 | with faces on, each panel pixel shows the first of the closest writes to it when some write is strictly closer than Double.MAX_VALUE, and black otherwise |
| JavaText.JavaSplitSound | src/com/gmail/vitordeatorreao/scene/SceneController.java:55 | split(" ") characterised without its definition: no token holds a space; there are no tokens exactly when the line is non-empty and all spaces; otherwise the tokens joined with single spaces give the line without its trailing spaces, and the last token is empty only for the empty line |
| JavaText.TrimRight | src/com/gmail/vitordeatorreao/scene/SceneController.java:55 | the line without its trailing spaces is a prefix of it that does not end in a space, and everything cut off is a space |
| JavaText.DropTrailingEmptyPrefix | src/com/gmail/vitordeatorreao/scene/SceneController.java:55 | split keeps a prefix of the fields that ends in a non-empty one, and drops only empty fields |
| JavaText.JavaSplitJoin | src/com/gmail/vitordeatorreao/scene/SceneController.java:55 | splitting space-free tokens joined by single spaces, the last one non-empty, gives the tokens back |
| JavaText.ParseInt | src/com/gmail/vitordeatorreao/scene/SceneController.java:61-62 | Integer.valueOf yields an int in range, non-positive after a minus sign and non-negative otherwise |
| JavaText.ParseDigitsAccepts | src/com/gmail/vitordeatorreao/scene/SceneController.java:61-62 | a run of characters is read as a number exactly when it is non-empty and all decimal digits |
| JavaText.ParseIntAccepts | src/com/gmail/vitordeatorreao/scene/SceneController.java:61-62 | Integer.valueOf accepts a text exactly when it is an optional '+' or '-' followed by a non-empty run of decimal digits whose signed value fits in an int, and yields that value, negated after '-' |
| JavaText.ParseIntExamples | src/com/gmail/vitordeatorreao/scene/SceneController.java:61-62 | "+7" and "007" read as 7 and "-0" as 0; the empty text, a lone sign and letters are rejected |
| JavaText.ParseIntToString | src/com/gmail/vitordeatorreao/scene/SceneController.java:61-62 | parsing the decimal text of any int gives the int back |
| SceneLoader.ParseTriple | src/com/gmail/vitordeatorreao/scene/SceneController.java:85-95 | three coordinates are read exactly when three tokens exist and each one parses, and they are those values in order |
| SceneLoader.ReadVertices | src/com/gmail/vitordeatorreao/scene/SceneController.java:70-97 | on success it reads exactly n vertices, keeps those already read, and consumes exactly n - i lines |
| SceneLoader.MissingVerticesReported | src/com/gmail/vitordeatorreao/scene/SceneController.java:72-78 | a file ending after i good vertex lines of n reports "Expected n vertices, but found only i" |
| SceneLoader.ShortVertexReported | src/com/gmail/vitordeatorreao/scene/SceneController.java:79-84 | a vertex line of fewer than three tokens after i good vertex lines, before all n are read, stops the block with "All vertices must have at least 3 coordinates" |
| SceneLoader.MinusOne | src/com/gmail/vitordeatorreao/scene/SceneController.java:114 | int subtraction of 1 stays in the int range and is exact above Integer.MIN_VALUE |
| SceneLoader.VertexAt | src/com/gmail/vitordeatorreao/scene/SceneController.java:114-119 | an index token selects vertex (value - 1) exactly when it is an int from 1 to the vertex count; otherwise a NumberFormat or IndexOutOfBounds error |
| SceneLoader.TriangleOfEdges | src/com/gmail/vitordeatorreao/scene/SceneController.java:113-123 | "a b c" is accepted iff all three indices are valid, and gives the edges (v[a-1],v[b-1]), (v[b-1],v[c-1]), (v[c-1],v[a-1]) |
| SceneLoader.ReadTriangles | src/com/gmail/vitordeatorreao/scene/SceneController.java:100-125 | the triangle loop only appends closed triangles, leaves the camera alone and never un-reads a line |
| SceneLoader.MissingTrianglesReported | src/com/gmail/vitordeatorreao/scene/SceneController.java:100-106 | a file ending after good triangle lines, with i + k < n triangles read, reports "Expected n triangles, but found only i + k", keeping the earlier triangles and adding one per line |
| SceneLoader.ShortTriangleReported | src/com/gmail/vitordeatorreao/scene/SceneController.java:100-112 | a triangle line of fewer than three tokens after good triangle lines stops with "All triangles must have at least 3 vertices", keeping the earlier triangles plus one per good line, and reading stops after that line |
| SceneLoader.ReadCamera | src/com/gmail/vitordeatorreao/scene/SceneController.java:126-223 | a camera read succeeds only after consuming exactly five more lines |
| SceneLoader.CameraBlockConsumesFive | src/com/gmail/vitordeatorreao/scene/SceneController.java:126-223 | with well-formed lines, a file ending after k camera parameters reports "found only k"; otherwise the camera has focus C from the camera line and N, V, d, hx, hy from the five lines after it |
| SceneLoader.CameraBlockSetsCamera | src/com/gmail/vitordeatorreao/scene/SceneController.java:126-224 | a well-formed camera block stores its camera in the scene, replacing any earlier one, and loading resumes after its six lines; a file that is just the block ends with that camera and no error |
| SceneLoader.ParseHeader | src/com/gmail/vitordeatorreao/scene/SceneController.java:58-68 | the header is accepted exactly when both tokens are ints, and gives those ints |
| SceneLoader.LoadMesh | src/com/gmail/vitordeatorreao/scene/SceneController.java:56-125 | a mesh block only appends closed triangles and leaves the camera alone |
| SceneLoader.LoadLines | src/com/gmail/vitordeatorreao/scene/SceneController.java:50-225 | loading keeps the triangles already in the scene as a prefix and only appends closed triangles, even when it stops on an error |
| SceneLoader.LoadScene | src/com/gmail/vitordeatorreao/scene/SceneController.java:46-227 | loadScene never clears or reorders the scene's triangles; the new ones follow, each closed |
| SceneLoader.SkippedLine | src/com/gmail/vitordeatorreao/scene/SceneController.java:51-126 | a line whose split has neither 2 nor 3 tokens is skipped |
| SceneLoader.SkippedLinesLeaveSceneUnchanged | src/com/gmail/vitordeatorreao/scene/SceneController.java:51-126 | a file made only of such lines leaves the scene unchanged, with no error |
| SceneLoader.BadHeaderStops | src/com/gmail/vitordeatorreao/scene/SceneController.java:56-68 | a two-token line with a non-int token stops loading with "Expected two Integer values", the scene unchanged |
| SceneLoader.MissingVerticesStops | src/com/gmail/vitordeatorreao/scene/SceneController.java:56-78 | a mesh block whose file ends after i < n good vertex lines stops with "Expected n vertices, but found only i" |
| SceneLoader.TrianglesOnlyAppended | src/com/gmail/vitordeatorreao/scene/SceneController.java:100-124 | triangles already in the scene survive any load |
| SceneEncoding.ReadEncodedVertices | src/com/gmail/vitordeatorreao/scene/SceneController.java:70-97 | when the number printer's text for each written coordinate reads back as that coordinate, reading the written vertex lines gives the vertices back, with the rest of the lines untouched |
| SceneEncoding.ReadEncodedFace | src/com/gmail/vitordeatorreao/scene/SceneController.java:113-123 | reading a written face line gives the closed triangle of its three vertices |
| SceneEncoding.ReadEncodedFaces | src/com/gmail/vitordeatorreao/scene/SceneController.java:100-125 | reading the written face lines appends the triangles of the faces, in order, without error |
| SceneEncoding.LoadEncodedMesh | src/com/gmail/vitordeatorreao/scene/SceneController.java:56-125 | when each written coordinate reads back, loading a written mesh block appends exactly the triangles of its faces, in order, and reports no error |
| Triangles.Make | src/com/gmail/vitordeatorreao/scene/Triangle.java:31-36 | three edges, in argument order, with no label |
| Triangles.MakeLabelled | src/com/gmail/vitordeatorreao/scene/Triangle.java:47-53 | the same edges as the unlabelled constructor, plus the label |
| Triangles.GetLabel | src/com/gmail/vitordeatorreao/scene/Triangle.java:68-70 | "" without a label, the label otherwise |
| Triangles.AccessorsRoundTrip | src/com/gmail/vitordeatorreao/scene/Triangle.java:31-70 | getEdges gives back the edges in argument order; getLabel gives back the label, and reads an empty label like no label |
| Triangles.ToStringOfMade | src/com/gmail/vitordeatorreao/scene/Triangle.java:77-83 | the text is each edge's text followed by a tab, in edge order; a labelled triangle has the same text as the unlabelled one, so the label never appears |
| Triangles.EdgesToStringTabs | src/com/gmail/vitordeatorreao/scene/Triangle.java:77-83 | with tab-free edge texts, the text holds exactly one tab per edge |
| Triangles.FromVertices | src/com/gmail/vitordeatorreao/scene/SceneController.java:120-124 | the loader's triangle is closed: edge k runs from vertex k to vertex (k+1) % 3 |
| Triangles.ClosedIsFromVertices | src/com/gmail/vitordeatorreao/scene/SceneController.java:120-124 | every closed unlabelled triangle is the one the loader builds from its edge starts |

## Left out

- The perspective projection and device mapping (PaintablePanel.java
  lines 74-102) are left out. They are floating-point vector and matrix
  arithmetic over `Camera` and `Vector`, which are not part of this model.
  The projected vertices are inputs (`TriangleInput.screen`).
- Barycentric coordinates, the reconstructed surface point, the normal
  interpolation and the vector maths of calcZBuffer are left out, and so is
  the computed depth. All of these are float numerics. They enter as the
  per-pixel sampler of `Render.TriangleInput`, where None stands for the
  degenerate-triangle exception.
- `QuickSortVertices` is not part of this model. The y-sorted copy of the
  vertices is an input, required to be a permutation of the projected
  vertices sorted by y.
- The `Camera` constructor's basis computation is not part of this model.
  The loader records the six values it would receive.
- `Double.valueOf` is the parameter `parseReal`. NaN, infinities and the
  rounding of double arithmetic are not modelled: doubles are exact reals
  throughout, including the accumulated `curx` values of the fill loops.
- File reading, `BufferedReader`, closing the file and the singleton
  `SceneController` are left out. The loader takes the file's lines and the
  scene explicitly.
- Swing, AWT `Graphics`, `drawPixel` and the GUI (SwingPaint.java,
  ScreenPainter.java) are left out. Drawing is an output sequence of pixels
  or the image of the final loop.
- Bresenham.DrawLine: coordinates are unbounded integers. The source's 32-bit
  overflow of `x2 - x1` and of the error term for coordinates near the int
  range is not modelled.
- ScanFill.FillBottomFlatVisits: the loop counters `scanlineY++` and `x++`
  are exact. In Java they wrap only when the panel's height or width is
  Integer.MAX_VALUE, and the loop would then never end, which no
  terminating function can express.
- ScanFill.FillTopFlatVisits: the `x++` counter
  (PaintablePanel.java:342) is exact. In Java it wraps only when the panel's
  width is Integer.MAX_VALUE, and the loop would then never end. The
  scanline counter cannot wrap in Java either: the loop stops at
  `scanlineY > v1[1]` (:325) and breaks on `scanlineY < 0` (:336) before
  every decrement.
- ScanFill.InvSlope: a horizontal edge divides by zero, which gives NaN or
  an infinity in Java. The model returns 0 there; no scanline the fill
  visits reads that slope.
- JavaText.ParseInt: only ASCII digits are accepted. `Integer.valueOf` also
  accepts digits of other Unicode scripts.
- Shading.PhongColor: the dot products and pow(R·V, n) are inputs, not
  computed from vectors.
- SceneLoader.VertexAt: requires at most Integer.MAX_VALUE vertices, the
  largest length a Java array can have.
- Render.PaintComponent: the panel size is a natural number, as
  Swing's getWidth() and getHeight() are never negative.
- The `line.equals("\n")` test of loadScene is modelled as written. It can
  never fire, because readLine strips line terminators.
