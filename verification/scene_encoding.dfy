/** The inverse of the scene loader: the lines of a mesh block written
    from vertices and faces, and the proof that loading them gives back
    exactly the triangles of the mesh, in order. */
module SceneEncoding {
  import opened Wrappers
  import opened JavaNum
  import opened JavaText
  import opened Triangles
  import opened SceneLoader

  /** A face as three 0-based vertex indices. */
  datatype Face = Face(a: int, b: int, c: int)

  predicate FaceIn(f: Face, n: int) {
    0 <= f.a < n && 0 <= f.b < n && 0 <= f.c < n
  }

  /** The text showReal writes for r is one non-empty token without a
      space that the loader's parser reads back as r. */
  predicate PrintsReal(r: real, showReal: real -> string, parseReal: string -> Option<real>) {
    NoSpace(showReal(r)) && showReal(r) != "" && parseReal(showReal(r)) == Some(r)
  }

  /** Every coordinate of every vertex written survives the round trip
      through its text (for Double.valueOf: every coordinate is a double
      printed exactly). */
  predicate Prints(vs: seq<Vertex>, showReal: real -> string, parseReal: string -> Option<real>) {
    forall k :: 0 <= k < |vs| ==> PrintsVertex(vs[k], showReal, parseReal)
  }

  predicate PrintsVertex(v: Vertex, showReal: real -> string, parseReal: string -> Option<real>) {
    PrintsReal(v.x, showReal, parseReal) && PrintsReal(v.y, showReal, parseReal) && PrintsReal(v.z, showReal, parseReal)
  }

  function VertexText(v: Vertex, showReal: real -> string): string {
    Join([showReal(v.x), showReal(v.y), showReal(v.z)])
  }

  /** A face line holds the 1-based indices. */
  function FaceText(f: Face): string {
    Join([IntToString(f.a + 1), IntToString(f.b + 1), IntToString(f.c + 1)])
  }

  function VertexLines(vs: seq<Vertex>, showReal: real -> string): (r: seq<string>)
    ensures |r| == |vs|
  {
    if vs == [] then [] else [VertexText(vs[0], showReal)] + VertexLines(vs[1..], showReal)
  }

  function FaceLines(fs: seq<Face>): (r: seq<string>)
    ensures |r| == |fs|
  {
    if fs == [] then [] else [FaceText(fs[0])] + FaceLines(fs[1..])
  }

  /** The lines of a mesh block: the header, the vertices, the faces. */
  function EncodeMesh(vs: seq<Vertex>, fs: seq<Face>, showReal: real -> string): (lines: seq<string>)
    ensures |lines| == 1 + |vs| + |fs|
  {
    [Join([IntToString(|vs|), IntToString(|fs|)])] + (VertexLines(vs, showReal) + FaceLines(fs))
  }

  /** The triangles the faces describe, in order. */
  function MeshTriangles(vs: seq<Vertex>, fs: seq<Face>): (ts: seq<Triangle>)
    requires forall k :: 0 <= k < |fs| ==> FaceIn(fs[k], |vs|)
    ensures |ts| == |fs|
  {
    if fs == [] then []
    else
      assert FaceIn(fs[0], |vs|);
      [FromVertices(vs[fs[0].a], vs[fs[0].b], vs[fs[0].c])] + MeshTriangles(vs, fs[1..])
  }

  lemma SplitThree(a: string, b: string, c: string)
    requires NoSpace(a) && NoSpace(b) && NoSpace(c) && c != ""
    ensures JavaSplit(Join([a, b, c])) == [a, b, c]
  {
    JavaSplitJoin([a, b, c]);
  }

  /** Reading the vertex lines of vs[j..] after vs[..j] gives all of vs. */
  lemma {:induction false} ReadEncodedVertices(vs: seq<Vertex>, j: int, tail: seq<string>,
                                               showReal: real -> string, parseReal: string -> Option<real>)
    requires 0 <= j <= |vs|
    requires Prints(vs, showReal, parseReal)
    ensures ReadVertices(VertexLines(vs[j..], showReal) + tail, |vs|, vs[..j], parseReal) == Read(vs, tail)
    decreases |vs| - j
  {
    var lines := VertexLines(vs[j..], showReal) + tail;
    if j == |vs| {
      assert vs[j..] == [];
      assert lines == tail;
      assert vs[..j] == vs;
    } else {
      var v := vs[j];
      var text := VertexText(v, showReal);
      assert PrintsVertex(v, showReal, parseReal);
      assert vs[j..][0] == v;
      assert vs[j..][1..] == vs[j + 1..];
      assert lines[0] == text;
      assert lines[1..] == VertexLines(vs[j + 1..], showReal) + tail;
      assert NoSpace(showReal(v.x)) && NoSpace(showReal(v.y)) && NoSpace(showReal(v.z)) && showReal(v.z) != "";
      SplitThree(showReal(v.x), showReal(v.y), showReal(v.z));
      assert parseReal(showReal(v.x)) == Some(v.x);
      assert parseReal(showReal(v.y)) == Some(v.y);
      assert parseReal(showReal(v.z)) == Some(v.z);
      assert ParseTriple(JavaSplit(text), parseReal) == Some(Vector3(v.x, v.y, v.z));
      assert vs[..j] + [Vertex(v.x, v.y, v.z)] == vs[..j + 1];
      ReadEncodedVertices(vs, j + 1, tail, showReal, parseReal);
    }
  }

  /** Reading a face line gives the triangle of the face. */
  lemma ReadEncodedFace(vs: seq<Vertex>, f: Face)
    requires |vs| <= IntMax && FaceIn(f, |vs|)
    ensures |JavaSplit(FaceText(f))| >= 3
    ensures TriangleOf(JavaSplit(FaceText(f)), vs) == Read(FromVertices(vs[f.a], vs[f.b], vs[f.c]), [])
  {
    var ta := IntToString(f.a + 1);
    var tb := IntToString(f.b + 1);
    var tc := IntToString(f.c + 1);
    SplitThree(ta, tb, tc);
    var values := JavaSplit(FaceText(f));
    assert values == [ta, tb, tc];
    VertexAtText(f.a, vs);
    VertexAtText(f.b, vs);
    VertexAtText(f.c, vs);
  }

  /** The text of index i + 1 selects vertex i. */
  lemma VertexAtText(i: int, vs: seq<Vertex>)
    requires |vs| <= IntMax && 0 <= i < |vs|
    ensures VertexAt(IntToString(i + 1), vs) == Read(vs[i], [])
  {
    ParseIntToString(i + 1);
  }

  /** Reading the line of face f appends the face's triangle and moves
      on. */
  lemma ReadFaceLineStep(lines: seq<string>, n: int, i: int, vs: seq<Vertex>, scene: Scene, f: Face)
    requires |vs| <= IntMax && FaceIn(f, |vs|) && i < n
    requires lines != [] && lines[0] == FaceText(f)
    ensures ReadTriangles(lines, n, i, vs, scene)
         == ReadTriangles(lines[1..], n, i + 1, vs,
                          scene.(triangles := scene.triangles + [FromVertices(vs[f.a], vs[f.b], vs[f.c])]))
  {
    ReadEncodedFace(vs, f);
  }

  lemma FaceLinesHead(fs: seq<Face>)
    requires fs != []
    ensures FaceLines(fs) != [] && FaceLines(fs)[0] == FaceText(fs[0]) && FaceLines(fs)[1..] == FaceLines(fs[1..])
  {
  }

  lemma FacesInTail(vs: seq<Vertex>, fs: seq<Face>)
    requires fs != [] && forall k :: 0 <= k < |fs| ==> FaceIn(fs[k], |vs|)
    ensures FaceIn(fs[0], |vs|) && forall k :: 0 <= k < |fs[1..]| ==> FaceIn(fs[1..][k], |vs|)
  {
    forall k | 0 <= k < |fs[1..]| ensures FaceIn(fs[1..][k], |vs|) {
      assert fs[1..][k] == fs[k + 1];
    }
  }

  /** The step of ReadEncodedFaces: the first face line, then the rest. */
  lemma ReadEncodedFacesCons(lines: seq<string>, vs: seq<Vertex>, fs: seq<Face>, i: int, n: int, scene: Scene,
                             next: Scene)
    requires |vs| <= IntMax && fs != []
    requires forall k :: 0 <= k < |fs| ==> FaceIn(fs[k], |vs|)
    requires lines == FaceLines(fs) && i < n
    requires FaceIn(fs[0], |vs|)
    requires next == scene.(triangles := scene.triangles + [FromVertices(vs[fs[0].a], vs[fs[0].b], vs[fs[0].c])])
    requires ReadTriangles(lines[1..], n, i + 1, vs, next)
               == Partial(next.(triangles := next.triangles + MeshTriangles(vs, fs[1..])), [], None)
    ensures ReadTriangles(lines, n, i, vs, scene)
         == Partial(scene.(triangles := scene.triangles + MeshTriangles(vs, fs)), [], None)
  {
    FaceLinesHead(fs);
    ReadFaceLineStep(lines, n, i, vs, scene, fs[0]);
    MeshTrianglesCons(vs, fs, scene.triangles);
  }

  lemma MeshTrianglesCons(vs: seq<Vertex>, fs: seq<Face>, prefix: seq<Triangle>)
    requires fs != [] && forall k :: 0 <= k < |fs| ==> FaceIn(fs[k], |vs|)
    ensures FaceIn(fs[0], |vs|)
    ensures prefix + [FromVertices(vs[fs[0].a], vs[fs[0].b], vs[fs[0].c])] + MeshTriangles(vs, fs[1..])
         == prefix + MeshTriangles(vs, fs)
  {
    assert FaceIn(fs[0], |vs|);
  }

  /** Reading the face lines of fs after i of n triangles appends the
      faces' triangles and consumes all the lines. */
  lemma {:induction false} ReadEncodedFaces(lines: seq<string>, vs: seq<Vertex>, fs: seq<Face>, i: int, n: int,
                                            scene: Scene)
    requires |vs| <= IntMax
    requires forall k :: 0 <= k < |fs| ==> FaceIn(fs[k], |vs|)
    requires lines == FaceLines(fs) && n == i + |fs|
    ensures ReadTriangles(lines, n, i, vs, scene)
         == Partial(scene.(triangles := scene.triangles + MeshTriangles(vs, fs)), [], None)
    decreases |fs|
  {
    if fs == [] {
      assert scene.triangles + [] == scene.triangles;
    } else {
      var f := fs[0];
      FacesInTail(vs, fs);
      FaceLinesHead(fs);
      var next := scene.(triangles := scene.triangles + [FromVertices(vs[f.a], vs[f.b], vs[f.c])]);
      ReadEncodedFaces(lines[1..], vs, fs[1..], i + 1, n, next);
      ReadEncodedFacesCons(lines, vs, fs, i, n, scene, next);
    }
  }

  /** A mesh block that loads without error hands the rest of the file to
      the line loop. */
  lemma LoadLinesMeshStep(lines: seq<string>, scene: Scene, parseReal: string -> Option<real>, nv: int, nt: int)
    requires lines != [] && lines[0] != "\n"
    requires |JavaSplit(lines[0])| == 2 && ParseHeader(JavaSplit(lines[0])) == Some((nv, nt))
    requires LoadMesh(nv, nt, lines[1..], scene, parseReal).error.None?
    ensures var p := LoadMesh(nv, nt, lines[1..], scene, parseReal);
            LoadLines(lines, scene, parseReal) == LoadLines(p.rest, p.scene, parseReal)
  {
  }

  /** The header line of a mesh block splits into the two counts. */
  lemma HeaderLine(nv: int, nt: int)
    requires 0 <= nv <= IntMax && 0 <= nt <= IntMax
    ensures var header := Join([IntToString(nv), IntToString(nt)]);
            && header != "\n"
            && |JavaSplit(header)| == 2
            && ParseHeader(JavaSplit(header)) == Some((nv, nt))
  {
    var header := Join([IntToString(nv), IntToString(nt)]);
    JavaSplitJoin([IntToString(nv), IntToString(nt)]);
    ParseIntToString(nv);
    ParseIntToString(nt);
    assert header[|IntToString(nv)|] == ' ';
  }

  /** The body of an encoded mesh block loads without error. */
  lemma LoadEncodedBody(vs: seq<Vertex>, fs: seq<Face>, scene: Scene,
                        showReal: real -> string, parseReal: string -> Option<real>)
    requires |vs| <= IntMax
    requires forall k :: 0 <= k < |fs| ==> FaceIn(fs[k], |vs|)
    requires Prints(vs, showReal, parseReal)
    ensures LoadMesh(|vs|, |fs|, VertexLines(vs, showReal) + FaceLines(fs), scene, parseReal)
         == Partial(scene.(triangles := scene.triangles + MeshTriangles(vs, fs)), [], None)
  {
    assert vs[0..] == vs && vs[..0] == [];
    ReadEncodedVertices(vs, 0, FaceLines(fs), showReal, parseReal);
    ReadEncodedFaces(FaceLines(fs), vs, fs, 0, |fs|, scene);
  }

  /** Loading the encoding of a mesh adds exactly the mesh's triangles, in
      face order, with no error and the camera untouched. */
  lemma LoadEncodedMesh(vs: seq<Vertex>, fs: seq<Face>, scene: Scene,
                        showReal: real -> string, parseReal: string -> Option<real>)
    requires |vs| <= IntMax && |fs| <= IntMax
    requires forall k :: 0 <= k < |fs| ==> FaceIn(fs[k], |vs|)
    requires Prints(vs, showReal, parseReal)
    ensures LoadScene(EncodeMesh(vs, fs, showReal), scene, parseReal)
         == Outcome(scene.(triangles := scene.triangles + MeshTriangles(vs, fs)), None)
  {
    var lines := EncodeMesh(vs, fs, showReal);
    EncodeMeshParts(vs, fs, showReal);
    HeaderLine(|vs|, |fs|);
    LoadEncodedBody(vs, fs, scene, showReal, parseReal);
    LoadLinesMeshStep(lines, scene, parseReal, |vs|, |fs|);
  }

  lemma EncodeMeshParts(vs: seq<Vertex>, fs: seq<Face>, showReal: real -> string)
    ensures var lines := EncodeMesh(vs, fs, showReal);
            && lines != []
            && lines[0] == Join([IntToString(|vs|), IntToString(|fs|)])
            && lines[1..] == VertexLines(vs, showReal) + FaceLines(fs)
  {
    var h := Join([IntToString(|vs|), IntToString(|fs|)]);
    var body := VertexLines(vs, showReal) + FaceLines(fs);
    assert EncodeMesh(vs, fs, showReal) == [h] + body;
    assert ([h] + body)[1..] == body;
  }
}
