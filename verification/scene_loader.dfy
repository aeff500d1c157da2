/** SceneController.loadScene: the scene-file parser, as a function over the
    lines of the file and the scene it adds to.

    A line of two space-separated tokens "nv nt" starts a mesh block: nv
    vertex lines "x y z" and then nt triangle lines "a b c" of 1-based
    vertex indices. A line of three tokens starts a camera block: the focus
    C on that line, then N and V on one line each and d, hx, hy on one line
    each. Every other line is skipped.

    Double.valueOf is the parameter `parseReal`; Integer.valueOf is
    modelled (JavaText.ParseInt). */
module SceneLoader {
  import opened Wrappers
  import opened JavaNum
  import opened JavaText
  import opened Triangles

  datatype Vector3 = Vector3(x: real, y: real, z: real)

  /** The six values the Camera constructor receives. */
  datatype Camera = Camera(focus: Vertex, n: Vector3, v: Vector3, d: real, hx: real, hy: real)

  /** The part of the scene loadScene writes: the triangles, appended to,
      and the camera, replaced. */
  datatype Scene = Scene(triangles: seq<Triangle>, camera: Option<Camera>)

  /** Why loading stopped. The first nine are the messages of
      NonConformantSceneFile; the last three are Java runtime exceptions
      that loadScene does not catch. */
  datatype LoadError =
    | BadHeader(first: string, second: string)     // "Expected two Integer values, but found ..."
    | MissingVertices(expected: int, found: int)   // "Expected n vertices, but found only i"
    | ShortVertex                                  // "All vertices must have at least 3 coordinates"
    | BadVertex(line: string)                      // "Expected 3 double-point precision values, ..."
    | MissingTriangles(expected: int, found: int)  // "Expected n triangles, but found only i"
    | ShortTriangle                                // "All triangles must have at least 3 vertices"
    | MissingCameraParameters(found: int)          // "Expected to find more camera parameters, ..."
    | BadCameraTriple(line: string)                // "Expected 3 double-point precision values, ..."
    | BadCameraScalar(line: string)                // "Expected a double-point precision value, ..."
    | NumberFormat(token: string)                  // Integer.valueOf on a triangle index
    | IndexOutOfBounds(index: int)                 // vs[index] with an index outside the vertices
    | NegativeArraySize(size: int)                 // new Vertex[nv] with nv < 0

  /** The result of loadScene: the scene as it stands when loading ends
      (triangles added before an error stay in it) and the error, if any. */
  datatype Outcome = Outcome(scene: Scene, error: Option<LoadError>)

  /** `later` is `earlier` with zero or more closed triangles appended. */
  predicate Extends(earlier: Scene, later: Scene) {
    && |earlier.triangles| <= |later.triangles|
    && later.triangles[..|earlier.triangles|] == earlier.triangles
    && forall k :: |earlier.triangles| <= k < |later.triangles| ==> Closed(later.triangles[k])
  }

  lemma ExtendsTransitive(a: Scene, b: Scene, c: Scene)
    requires Extends(a, b) && Extends(b, c)
    ensures Extends(a, c)
  {
    assert c.triangles[..|a.triangles|] == c.triangles[..|b.triangles|][..|a.triangles|];
  }

  /** A block reader's result: a value and the lines after it, or an error. */
  datatype Read<T> = Read(value: T, rest: seq<string>) | ReadError(error: LoadError)

  /** The three leading tokens of a split line, read as doubles; None when a
      token is missing or does not parse (the source catches both in one
      handler). */
  function ParseTriple(tokens: seq<string>, parseReal: string -> Option<real>): (r: Option<Vector3>)
    ensures r.Some? <==> |tokens| >= 3 && parseReal(tokens[0]).Some?
                          && parseReal(tokens[1]).Some? && parseReal(tokens[2]).Some?
    ensures r.Some? ==> r.value == Vector3(parseReal(tokens[0]).value,
                                           parseReal(tokens[1]).value, parseReal(tokens[2]).value)
  {
    if |tokens| < 3 then None
    else
      match parseReal(tokens[0])
      case None => None
      case Some(a) =>
        match parseReal(tokens[1])
        case None => None
        case Some(b) =>
          match parseReal(tokens[2])
          case None => None
          case Some(c) => Some(Vector3(a, b, c))
  }

  // ---------------------------------------------------------------------
  // The vertex lines of a mesh block.

  /** Reads the vertices |vs| .. n-1 of a block of n. */
  function ReadVertices(lines: seq<string>, n: int, vs: seq<Vertex>, parseReal: string -> Option<real>)
    : (r: Read<seq<Vertex>>)
    requires |vs| <= n
    ensures r.Read? ==> |r.value| == n && r.value[..|vs|] == vs
    ensures r.Read? ==> n - |vs| <= |lines| && r.rest == lines[n - |vs|..]
    decreases n - |vs|
  {
    if |vs| == n then Read(vs, lines)
    else if lines == [] then ReadError(MissingVertices(n, |vs|))
    else
      var values := JavaSplit(lines[0]);
      if |values| < 3 then ReadError(ShortVertex)
      else
        match ParseTriple(values, parseReal)
        case None => ReadError(BadVertex(lines[0]))
        case Some(c) =>
          var r := ReadVertices(lines[1..], n, vs + [Vertex(c.x, c.y, c.z)], parseReal);
          if r.Read? then
            assert r.value[..|vs|] == (vs + [Vertex(c.x, c.y, c.z)])[..|vs|];
            r
          else r
  }

  /** A line that is a well-formed vertex line. */
  predicate VertexLine(line: string, parseReal: string -> Option<real>) {
    |JavaSplit(line)| >= 3 && ParseTriple(JavaSplit(line), parseReal).Some?
  }

  /** Running out of lines after i well-formed vertex lines of n reports
      "found only i", i counting all vertices read, not just this call's. */
  lemma {:induction false} MissingVerticesReported(lines: seq<string>, n: int, vs: seq<Vertex>,
                                                   parseReal: string -> Option<real>)
    requires |vs| <= n && |vs| + |lines| < n
    requires forall k :: 0 <= k < |lines| ==> VertexLine(lines[k], parseReal)
    ensures ReadVertices(lines, n, vs, parseReal) == ReadError(MissingVertices(n, |vs| + |lines|))
    decreases n - |vs|
  {
    if lines != [] {
      var c := ParseTriple(JavaSplit(lines[0]), parseReal).value;
      assert VertexLine(lines[0], parseReal);
      forall k | 0 <= k < |lines[1..]|
        ensures VertexLine(lines[1..][k], parseReal)
      {
        assert lines[1..][k] == lines[k + 1];
      }
      MissingVerticesReported(lines[1..], n, vs + [Vertex(c.x, c.y, c.z)], parseReal);
    }
  }

  /** A vertex line with fewer than three tokens after i well-formed vertex
      lines, before all n were read, stops the block with "All vertices must
      have at least 3 coordinates". */
  lemma {:induction false} ShortVertexReported(lines: seq<string>, n: int, vs: seq<Vertex>, i: int,
                                               parseReal: string -> Option<real>)
    requires |vs| <= n && 0 <= i < |lines| && |vs| + i < n
    requires forall k :: 0 <= k < i ==> VertexLine(lines[k], parseReal)
    requires |JavaSplit(lines[i])| < 3
    ensures ReadVertices(lines, n, vs, parseReal) == ReadError(ShortVertex)
    decreases i
  {
    if i > 0 {
      var c := ParseTriple(JavaSplit(lines[0]), parseReal).value;
      assert VertexLine(lines[0], parseReal);
      forall k | 0 <= k < i - 1
        ensures VertexLine(lines[1..][k], parseReal)
      {
        assert lines[1..][k] == lines[k + 1];
      }
      assert lines[1..][i - 1] == lines[i];
      ShortVertexReported(lines[1..], n, vs + [Vertex(c.x, c.y, c.z)], i - 1, parseReal);
    }
  }

  // ---------------------------------------------------------------------
  // The triangle lines of a mesh block.

  /** Java int subtraction of 1, wrapping at the bottom of the range. */
  function MinusOne(i: int): (r: int)
    requires IntMin <= i <= IntMax
    ensures IntMin <= r <= IntMax
    ensures i > IntMin ==> r == i - 1
  {
    if i == IntMin then IntMax else i - 1
  }

  /** A token that is an int from 1 to the number of vertices. */
  predicate ValidIndex(token: string, vs: seq<Vertex>) {
    ParseInt(token).Some? && 1 <= ParseInt(token).value <= |vs|
  }

  /** One vertex index token: Integer.valueOf(token) - 1 used as an index
      into the vertices. */
  function VertexAt(token: string, vs: seq<Vertex>): (r: Read<Vertex>)
    requires |vs| <= IntMax  // the length of a Java array
    ensures r.Read? <==> ValidIndex(token, vs)
    ensures r.Read? ==> r.value == vs[ParseInt(token).value - 1]
    ensures r.Read? ==> r.rest == []
  {
    match ParseInt(token)
    case None => ReadError(NumberFormat(token))
    case Some(i) =>
      var index := MinusOne(i);
      if 0 <= index < |vs| then Read(vs[index], []) else ReadError(IndexOutOfBounds(index))
  }

  /** The triangle of a split triangle line with at least three tokens:
      the three indices are read in order, each checked before the next is
      parsed. */
  function TriangleOf(values: seq<string>, vs: seq<Vertex>): (r: Read<Triangle>)
    requires |values| >= 3 && |vs| <= IntMax
  {
    match VertexAt(values[0], vs)
    case ReadError(e) => ReadError(e)
    case Read(a, _) =>
      match VertexAt(values[1], vs)
      case ReadError(e) => ReadError(e)
      case Read(b, _) =>
        match VertexAt(values[2], vs)
        case ReadError(e) => ReadError(e)
        case Read(c, _) => Read(FromVertices(a, b, c), [])
  }

  /** A triangle line "a b c" gives the edges (v[a-1], v[b-1]),
      (v[b-1], v[c-1]), (v[c-1], v[a-1]), and is accepted exactly when the
      three tokens are integers from 1 to the number of vertices. */
  lemma TriangleOfEdges(values: seq<string>, vs: seq<Vertex>)
    requires |values| >= 3 && |vs| <= IntMax
    ensures TriangleOf(values, vs).Read? <==>
              ValidIndex(values[0], vs) && ValidIndex(values[1], vs) && ValidIndex(values[2], vs)
    ensures TriangleOf(values, vs).Read? ==>
              var a := vs[ParseInt(values[0]).value - 1];
              var b := vs[ParseInt(values[1]).value - 1];
              var c := vs[ParseInt(values[2]).value - 1];
              TriangleOf(values, vs).value.edges == [Edge(a, b), Edge(b, c), Edge(c, a)]
  {
  }

  /** The state of a mesh block's triangle loop. */
  datatype Partial = Partial(scene: Scene, rest: seq<string>, error: Option<LoadError>)

  /** Reads the triangles i .. n-1 of a block of n, appending each to the
      scene as soon as it is built. */
  function ReadTriangles(lines: seq<string>, n: int, i: int, vs: seq<Vertex>, scene: Scene): (r: Partial)
    requires |vs| <= IntMax
    ensures |r.rest| <= |lines|
    ensures r.scene.camera == scene.camera
    ensures Extends(scene, r.scene)
    decreases n - i
  {
    if i >= n then Partial(scene, lines, None)
    else if lines == [] then Partial(scene, lines, Some(MissingTriangles(n, i)))
    else
      var values := JavaSplit(lines[0]);
      if |values| < 3 then Partial(scene, lines[1..], Some(ShortTriangle))
      else
        match TriangleOf(values, vs)
        case ReadError(e) => Partial(scene, lines[1..], Some(e))
        case Read(t, _) =>
          var next := scene.(triangles := scene.triangles + [t]);
          var r := ReadTriangles(lines[1..], n, i + 1, vs, next);
          assert next.triangles[..|scene.triangles|] == scene.triangles;
          ExtendsTransitive(scene, next, r.scene);
          r
  }

  /** A well-formed triangle line: at least three tokens, each a valid
      1-based vertex index. */
  predicate TriangleLine(line: string, vs: seq<Vertex>)
    requires |vs| <= IntMax
  {
    |JavaSplit(line)| >= 3 && TriangleOf(JavaSplit(line), vs).Read?
  }

  /** A well-formed triangle line appends its triangle and moves on. */
  lemma ReadTrianglesStep(lines: seq<string>, n: int, i: int, vs: seq<Vertex>, scene: Scene)
    requires |vs| <= IntMax && i < n && lines != [] && TriangleLine(lines[0], vs)
    ensures ReadTriangles(lines, n, i, vs, scene)
         == ReadTriangles(lines[1..], n, i + 1, vs,
                          scene.(triangles := scene.triangles + [TriangleOf(JavaSplit(lines[0]), vs).value]))
  {
  }

  /** A triangle line with fewer than three tokens ends the block. */
  lemma ShortTriangleStep(short: string, tail: seq<string>, n: int, i: int, vs: seq<Vertex>, scene: Scene)
    requires |vs| <= IntMax && i < n && |JavaSplit(short)| < 3
    ensures ReadTriangles([short] + tail, n, i, vs, scene) == Partial(scene, tail, Some(ShortTriangle))
  {
    assert ([short] + tail)[0] == short && ([short] + tail)[1..] == tail;
  }

  /** Every one of `lines` is a well-formed triangle line. */
  predicate TriangleLines(lines: seq<string>, vs: seq<Vertex>)
    requires |vs| <= IntMax
    decreases |lines|
  {
    lines == [] || (TriangleLine(lines[0], vs) && TriangleLines(lines[1..], vs))
  }

  lemma MissingTrianglesError(e: Option<LoadError>, n: int, found: int)
    requires e.Some? && e.value.MissingTriangles? && e.value.expected == n && e.value.found == found
    ensures e == Some(MissingTriangles(n, found))
  {
  }

  /** Running out of lines after the well-formed triangle lines of the
      file, with i of n triangles read before them, reports "Expected n
      triangles, but found only i + |lines|", and the scene keeps every
      triangle added before the error: the old ones first, then one per
      line. */
  lemma {:induction false} MissingTrianglesReported(lines: seq<string>, n: int, i: int, vs: seq<Vertex>, scene: Scene)
    requires |vs| <= IntMax && i + |lines| < n
    requires TriangleLines(lines, vs)
    ensures var r := ReadTriangles(lines, n, i, vs, scene);
            && r.error == Some(MissingTriangles(n, i + |lines|))
            && |r.scene.triangles| == |scene.triangles| + |lines|
            && r.scene.triangles[..|scene.triangles|] == scene.triangles
    decreases |lines|
  {
    if lines != [] {
      var t := TriangleOf(JavaSplit(lines[0]), vs).value;
      var next := scene.(triangles := scene.triangles + [t]);
      ReadTrianglesStep(lines, n, i, vs, scene);
      MissingTrianglesReported(lines[1..], n, i + 1, vs, next);
      var r := ReadTriangles(lines[1..], n, i + 1, vs, next);
      assert |next.triangles| == |scene.triangles| + 1;
      assert |lines[1..]| == |lines| - 1;
      MissingTrianglesError(r.error, n, i + |lines|);
      assert ReadTriangles(lines, n, i, vs, scene).error == Some(MissingTriangles(n, i + |lines|));
      assert r.scene.triangles[..|scene.triangles|] == r.scene.triangles[..|next.triangles|][..|scene.triangles|];
    } else {
      MissingTrianglesError(ReadTriangles(lines, n, i, vs, scene).error, n, i + |lines|);
      assert scene.triangles[..|scene.triangles|] == scene.triangles;
    }
  }

  /** A triangle line with fewer than three tokens after the well-formed
      lines `good`, before all n triangles were read, stops the block with
      "All triangles must have at least 3 vertices"; the triangles of
      `good` stay in the scene, after the old ones, and reading stops after
      the short line. */
  lemma {:induction false} ShortTriangleReported(good: seq<string>, short: string, tail: seq<string>, n: int, i: int,
                                                 vs: seq<Vertex>, scene: Scene)
    requires |vs| <= IntMax && i + |good| < n
    requires TriangleLines(good, vs)
    requires |JavaSplit(short)| < 3
    ensures var r := ReadTriangles(good + [short] + tail, n, i, vs, scene);
            && r.error == Some(ShortTriangle)
            && r.rest == tail
            && |r.scene.triangles| == |scene.triangles| + |good|
            && r.scene.triangles[..|scene.triangles|] == scene.triangles
    decreases |good|
  {
    var lines := good + [short] + tail;
    if good != [] {
      var t := TriangleOf(JavaSplit(good[0]), vs).value;
      var next := scene.(triangles := scene.triangles + [t]);
      assert lines[0] == good[0];
      assert lines[1..] == good[1..] + [short] + tail;
      ReadTrianglesStep(lines, n, i, vs, scene);
      ShortTriangleReported(good[1..], short, tail, n, i + 1, vs, next);
      var r := ReadTriangles(lines[1..], n, i + 1, vs, next);
      assert |next.triangles| == |scene.triangles| + 1;
      assert r.scene.triangles[..|scene.triangles|] == r.scene.triangles[..|next.triangles|][..|scene.triangles|];
    } else {
      assert lines == [short] + tail;
      ShortTriangleStep(short, tail, n, i, vs, scene);
      assert scene.triangles[..|scene.triangles|] == scene.triangles;
    }
  }

  // ---------------------------------------------------------------------
  // The camera block.

  /** The five lines after a camera line: N, V, d, hx, hy. `cLine` is the
      camera line itself and `args` its three tokens. */
  function ReadCamera(cLine: string, args: seq<string>, lines: seq<string>, parseReal: string -> Option<real>)
    : (r: Read<Camera>)
    requires |args| == 3
    ensures r.Read? ==> 5 <= |lines| && r.rest == lines[5..]
  {
    match ParseTriple(args, parseReal)
    case None => ReadError(BadCameraTriple(cLine))
    case Some(c) =>
      if |lines| < 1 then ReadError(MissingCameraParameters(1))
      else match ParseTriple(JavaSplit(lines[0]), parseReal)
      case None => ReadError(BadCameraTriple(lines[0]))
      case Some(n) =>
        if |lines| < 2 then ReadError(MissingCameraParameters(2))
        else match ParseTriple(JavaSplit(lines[1]), parseReal)
        case None => ReadError(BadCameraTriple(lines[1]))
        case Some(v) =>
          if |lines| < 3 then ReadError(MissingCameraParameters(3))
          else match parseReal(lines[2])
          case None => ReadError(BadCameraScalar(lines[2]))
          case Some(d) =>
            if |lines| < 4 then ReadError(MissingCameraParameters(4))
            else match parseReal(lines[3])
            case None => ReadError(BadCameraScalar(lines[3]))
            case Some(hx) =>
              if |lines| < 5 then ReadError(MissingCameraParameters(5))
              else match parseReal(lines[4])
              case None => ReadError(BadCameraScalar(lines[4]))
              case Some(hy) => Read(Camera(Vertex(c.x, c.y, c.z), n, v, d, hx, hy), lines[5..])
  }

  /** The lines of a camera block after the camera line, all well formed. */
  predicate CameraLines(lines: seq<string>, parseReal: string -> Option<real>) {
    && (|lines| > 0 ==> ParseTriple(JavaSplit(lines[0]), parseReal).Some?)
    && (|lines| > 1 ==> ParseTriple(JavaSplit(lines[1]), parseReal).Some?)
    && (forall k :: 2 <= k < |lines| && k < 5 ==> parseReal(lines[k]).Some?)
  }

  /** A camera block with well-formed lines either ends the file early,
      saying how many parameters it found (the camera line counts as one),
      or reads the camera from the camera line's three tokens (the focus C)
      and exactly the five lines after it (N, V, d, hx, hy). */
  lemma CameraBlockConsumesFive(cLine: string, args: seq<string>, lines: seq<string>,
                                parseReal: string -> Option<real>)
    requires |args| == 3 && ParseTriple(args, parseReal).Some?
    requires CameraLines(lines, parseReal)
    ensures |lines| < 5 ==> ReadCamera(cLine, args, lines, parseReal) == ReadError(MissingCameraParameters(|lines| + 1))
    ensures |lines| >= 5 ==> ReadCamera(cLine, args, lines, parseReal).Read?
    ensures |lines| >= 5 ==>
              var cam := ReadCamera(cLine, args, lines, parseReal).value;
              var c := ParseTriple(args, parseReal).value;
              && cam.focus == Vertex(c.x, c.y, c.z)
              && cam.d == parseReal(lines[2]).value
              && cam.hx == parseReal(lines[3]).value
              && cam.hy == parseReal(lines[4]).value
              && cam.n == ParseTriple(JavaSplit(lines[0]), parseReal).value
              && cam.v == ParseTriple(JavaSplit(lines[1]), parseReal).value
  {
    if |lines| > 2 { assert parseReal(lines[2]).Some?; }
    if |lines| > 3 { assert parseReal(lines[3]).Some?; }
    if |lines| > 4 { assert parseReal(lines[4]).Some?; }
  }

  // ---------------------------------------------------------------------
  // The line loop.

  /** The header of a mesh block: both tokens must be ints. */
  function ParseHeader(args: seq<string>): (r: Option<(int, int)>)
    requires |args| == 2
    ensures r.Some? <==> ParseInt(args[0]).Some? && ParseInt(args[1]).Some?
    ensures r.Some? ==> r.value.0 == ParseInt(args[0]).value && r.value.1 == ParseInt(args[1]).value
  {
    match ParseInt(args[0])
    case None => None
    case Some(nv) =>
      match ParseInt(args[1])
      case None => None
      case Some(nt) => Some((nv, nt))
  }

  /** A mesh block after a valid header: nv vertex lines, then nt triangle
      lines. */
  function LoadMesh(nv: int, nt: int, lines: seq<string>, scene: Scene, parseReal: string -> Option<real>)
    : (p: Partial)
    requires nv <= IntMax
    ensures |p.rest| <= |lines|
    ensures p.scene.camera == scene.camera
    ensures Extends(scene, p.scene)
  {
    if nv < 0 then Partial(scene, lines, Some(NegativeArraySize(nv)))
    else
      match ReadVertices(lines, nv, [], parseReal)
      case ReadError(e) => Partial(scene, lines, Some(e))
      case Read(vs, afterVertices) => ReadTriangles(afterVertices, nt, 0, vs, scene)
  }

  /** loadScene over the remaining lines, adding to `scene`. */
  function LoadLines(lines: seq<string>, scene: Scene, parseReal: string -> Option<real>): (o: Outcome)
    ensures Extends(scene, o.scene)
    decreases |lines|
  {
    if lines == [] then Outcome(scene, None)
    else
      var line := lines[0];
      var rest := lines[1..];
      if line == "\n" then LoadLines(rest, scene, parseReal)
      else
        var args := JavaSplit(line);
        if |args| == 2 then
          match ParseHeader(args)
          case None => Outcome(scene, Some(BadHeader(args[0], args[1])))
          case Some(counts) =>
            var p := LoadMesh(counts.0, counts.1, rest, scene, parseReal);
            if p.error.Some? then Outcome(p.scene, p.error)
            else
              var o := LoadLines(p.rest, p.scene, parseReal);
              ExtendsTransitive(scene, p.scene, o.scene);
              o
        else if |args| == 3 then
          match ReadCamera(line, args, rest, parseReal)
          case ReadError(e) => Outcome(scene, Some(e))
          case Read(cam, afterCamera) =>
            var next := scene.(camera := Some(cam));
            var o := LoadLines(afterCamera, next, parseReal);
            assert scene.triangles == next.triangles;
            o
        else LoadLines(rest, scene, parseReal)
  }

  /** loadScene on a whole file: the triangles already in the scene stay
      and the new ones follow, each one closed. */
  function LoadScene(lines: seq<string>, scene: Scene, parseReal: string -> Option<real>): (o: Outcome)
    ensures Extends(scene, o.scene)
  {
    LoadLines(lines, scene, parseReal)
  }

  /** A well-formed camera block stores its camera in the scene, replacing
      any earlier one, and loading goes on after the block's six lines with
      the triangles untouched; a file that is just that block ends with
      exactly that camera. */
  lemma CameraBlockSetsCamera(lines: seq<string>, scene: Scene, parseReal: string -> Option<real>)
    requires 6 <= |lines| && lines[0] != "\n"
    requires |JavaSplit(lines[0])| == 3 && ParseTriple(JavaSplit(lines[0]), parseReal).Some?
    requires CameraLines(lines[1..], parseReal)
    ensures ReadCamera(lines[0], JavaSplit(lines[0]), lines[1..], parseReal).Read?
    ensures var cam := ReadCamera(lines[0], JavaSplit(lines[0]), lines[1..], parseReal).value;
            LoadLines(lines, scene, parseReal) == LoadLines(lines[6..], scene.(camera := Some(cam)), parseReal)
    ensures var cam := ReadCamera(lines[0], JavaSplit(lines[0]), lines[1..], parseReal).value;
            |lines| == 6 ==> LoadLines(lines, scene, parseReal) == Outcome(scene.(camera := Some(cam)), None)
  {
    CameraBlockConsumesFive(lines[0], JavaSplit(lines[0]), lines[1..], parseReal);
    assert lines[1..][5..] == lines[6..];
  }

  /** A line that splits into neither two nor three tokens is skipped. */
  lemma SkippedLine(lines: seq<string>, scene: Scene, parseReal: string -> Option<real>)
    requires lines != []
    requires |JavaSplit(lines[0])| != 2 && |JavaSplit(lines[0])| != 3
    ensures LoadLines(lines, scene, parseReal) == LoadLines(lines[1..], scene, parseReal)
  {
  }

  /** A file of such lines leaves the scene as it was, without error. */
  lemma {:induction false} SkippedLinesLeaveSceneUnchanged(lines: seq<string>, scene: Scene, parseReal: string -> Option<real>)
    requires forall k :: 0 <= k < |lines| ==> |JavaSplit(lines[k])| != 2 && |JavaSplit(lines[k])| != 3
    ensures LoadLines(lines, scene, parseReal) == Outcome(scene, None)
    decreases |lines|
  {
    if lines != [] {
      assert |JavaSplit(lines[0])| != 2 && |JavaSplit(lines[0])| != 3;
      forall k | 0 <= k < |lines[1..]|
        ensures |JavaSplit(lines[1..][k])| != 2 && |JavaSplit(lines[1..][k])| != 3
      {
        assert lines[1..][k] == lines[k + 1];
      }
      SkippedLinesLeaveSceneUnchanged(lines[1..], scene, parseReal);
    }
  }

  /** A mesh header whose tokens are not both ints stops loading with the
      scene unchanged. */
  lemma BadHeaderStops(lines: seq<string>, scene: Scene, parseReal: string -> Option<real>)
    requires lines != [] && lines[0] != "\n"
    requires |JavaSplit(lines[0])| == 2
    requires ParseInt(JavaSplit(lines[0])[0]).None? || ParseInt(JavaSplit(lines[0])[1]).None?
    ensures LoadLines(lines, scene, parseReal)
         == Outcome(scene, Some(BadHeader(JavaSplit(lines[0])[0], JavaSplit(lines[0])[1])))
  {
  }

  /** A mesh block with n vertices whose file ends after i < n well-formed
      vertex lines reports "Expected n vertices, but found only i". */
  lemma MissingVerticesStops(lines: seq<string>, scene: Scene, parseReal: string -> Option<real>)
    requires lines != [] && lines[0] != "\n"
    requires |JavaSplit(lines[0])| == 2
    requires ParseHeader(JavaSplit(lines[0])).Some?
    requires var nv := ParseHeader(JavaSplit(lines[0])).value.0; 0 <= |lines| - 1 < nv
    requires forall k :: 1 <= k < |lines| ==> VertexLine(lines[k], parseReal)
    ensures LoadLines(lines, scene, parseReal)
         == Outcome(scene, Some(MissingVertices(ParseHeader(JavaSplit(lines[0])).value.0, |lines| - 1)))
  {
    var rest := lines[1..];
    forall k | 0 <= k < |rest|
      ensures VertexLine(rest[k], parseReal)
    {
      assert rest[k] == lines[k + 1];
    }
    MissingVerticesReported(rest, ParseHeader(JavaSplit(lines[0])).value.0, [], parseReal);
  }

  /** Triangles are only ever appended: loading more lines never removes
      or reorders what an earlier prefix of the file added, even when the
      later lines fail. */
  lemma TrianglesOnlyAppended(lines: seq<string>, scene: Scene, parseReal: string -> Option<real>)
    ensures var o := LoadScene(lines, scene, parseReal);
            o.scene.triangles[..|scene.triangles|] == scene.triangles
  {
  }
}
