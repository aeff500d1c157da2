/** The immutable mesh records the pipeline reads: a vertex in world
    coordinates, an edge between two vertices and a triangle of three
    edges with an optional label (Triangle.java). The per-vertex normal is
    computed outside the loader and is not part of this model. */
module Triangles {
  import opened Wrappers

  datatype Vertex = Vertex(x: real, y: real, z: real)

  /** An edge from `start` (the vertex paintComponent projects) to `end`. */
  datatype Edge = Edge(start: Vertex, end: Vertex)

  /** `givenLabel` is None when the unlabelled constructor was used (the Java
      field stays null). */
  datatype Triangle = Triangle(edges: seq<Edge>, givenLabel: Option<string>)

  /** The three-edge constructor: the edges in argument order, no label. */
  function Make(e1: Edge, e2: Edge, e3: Edge): (t: Triangle)
    ensures |t.edges| == 3
    ensures t.edges[0] == e1 && t.edges[1] == e2 && t.edges[2] == e3
    ensures t.givenLabel.None?
  {
    Triangle([e1, e2, e3], None)
  }

  /** The labelled constructor: the same edges, plus the label. Labels are
      not required to be unique. */
  function MakeLabelled(name: string, e1: Edge, e2: Edge, e3: Edge): (t: Triangle)
    ensures t.edges == Make(e1, e2, e3).edges
    ensures t.givenLabel == Some(name)
  {
    Triangle([e1, e2, e3], Some(name))
  }

  function GetEdges(t: Triangle): seq<Edge> {
    t.edges
  }

  /** getLabel: the label, or "" for an unlabelled triangle. */
  function GetLabel(t: Triangle): (l: string)
    ensures t.givenLabel.None? ==> l == ""
    ensures t.givenLabel.Some? ==> l == t.givenLabel.value
  {
    match t.givenLabel
    case None => ""
    case Some(s) => s
  }

  /** The accessors give back what the constructors were given: the edges
      in argument order and the label, or "" without one. A label is not a
      key: the empty label reads like no label at all. */
  lemma AccessorsRoundTrip(name: string, e1: Edge, e2: Edge, e3: Edge)
    ensures GetEdges(Make(e1, e2, e3)) == [e1, e2, e3]
    ensures GetEdges(MakeLabelled(name, e1, e2, e3)) == [e1, e2, e3]
    ensures GetLabel(MakeLabelled(name, e1, e2, e3)) == name
    ensures GetLabel(Make(e1, e2, e3)) == ""
    ensures GetLabel(MakeLabelled("", e1, e2, e3)) == GetLabel(Make(e1, e2, e3))
  {
  }

  /** toString: each edge's text followed by a tab, in edge order;
      Edge.toString is a parameter. */
  function ToString(t: Triangle, show: Edge -> string): string {
    EdgesToString(t.edges, show)
  }

  function EdgesToString(es: seq<Edge>, show: Edge -> string): (s: string)
    ensures |s| >= |es|
  {
    if es == [] then "" else EdgesToString(es[..|es| - 1], show) + show(es[|es| - 1]) + "\t"
  }

  /** The text of a triangle made of e1, e2, e3 is the three edge texts,
      each followed by a tab, whatever its label. */
  lemma ToStringOfMade(name: string, e1: Edge, e2: Edge, e3: Edge, show: Edge -> string)
    ensures ToString(Make(e1, e2, e3), show) == show(e1) + "\t" + show(e2) + "\t" + show(e3) + "\t"
    ensures ToString(MakeLabelled(name, e1, e2, e3), show) == ToString(Make(e1, e2, e3), show)
  {
    var es := [e1, e2, e3];
    assert es[..2] == [e1, e2];
    assert [e1, e2][..1] == [e1];
    assert [e1][..0] == [];
    assert EdgesToString([e1], show) == show(e1) + "\t";
    assert EdgesToString([e1, e2], show) == show(e1) + "\t" + show(e2) + "\t";
    assert EdgesToString(es, show) == show(e1) + "\t" + show(e2) + "\t" + show(e3) + "\t";
  }

  /** The text of a triangle ends in a tab whenever it has an edge, and
      contains one tab for every edge whose own text has none. */
  lemma {:induction false} EdgesToStringTabs(es: seq<Edge>, show: Edge -> string)
    requires forall k :: 0 <= k < |es| ==> '\t' !in show(es[k])
    ensures multiset(EdgesToString(es, show))['\t'] == |es|
  {
    if es != [] {
      EdgesToStringTabs(es[..|es| - 1], show);
      var front := EdgesToString(es[..|es| - 1], show);
      var e := show(es[|es| - 1]);
      assert multiset(e)['\t'] == 0;
      assert multiset(front + e + "\t") == multiset(front) + multiset(e) + multiset("\t");
    }
  }

  /** The edges run around the triangle: each one ends where the next
      starts. */
  predicate Closed(t: Triangle) {
    && |t.edges| == 3
    && t.edges[0].end == t.edges[1].start
    && t.edges[1].end == t.edges[2].start
    && t.edges[2].end == t.edges[0].start
  }

  /** The triangle the loader builds from three vertices: edge k runs from
      vertex k to vertex (k + 1) % 3. */
  function FromVertices(a: Vertex, b: Vertex, c: Vertex): (t: Triangle)
    ensures Closed(t)
    ensures t.edges[0].start == a && t.edges[1].start == b && t.edges[2].start == c
    ensures t.givenLabel.None?
  {
    Make(Edge(a, b), Edge(b, c), Edge(c, a))
  }

  /** A closed triangle is the one built from its edge starts. */
  lemma ClosedIsFromVertices(t: Triangle)
    requires Closed(t) && t.givenLabel.None?
    ensures t == FromVertices(t.edges[0].start, t.edges[1].start, t.edges[2].start)
  {
    assert t.edges == [t.edges[0], t.edges[1], t.edges[2]];
  }
}
