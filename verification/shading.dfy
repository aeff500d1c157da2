/** The decision layer of PaintablePanel: which passes draw a triangle, the
    special cases of the Phong model in calcZBuffer, and the clamp of each
    colour channel (roundToColor).

    Vectors are left out: the three dot products the special cases test are
    inputs, and so is the float value pow(R.V, n). */
module Shading {
  import opened ScreenTypes
  import opened JavaNum

  // ---------------------------------------------------------------------
  // Draw modes.

  /** Which of the three passes paintComponent runs for every triangle. */
  datatype DrawModes = DrawModes(points: bool, edges: bool, faces: bool)

  /** The tests of paintComponent on the showVertices, showEdges and
      showFaces toggles. */
  function SelectModes(showVertices: bool, showEdges: bool, showFaces: bool): (m: DrawModes)
    ensures m.points <==> showVertices && !(showEdges && showFaces)
    ensures m.edges <==> showEdges && !showFaces
    ensures m.faces <==> showFaces
  {
    DrawModes(showVertices && (!showEdges || !showFaces), showEdges && !showFaces, showFaces)
  }

  /** Fill mode always suppresses the wireframe, and suppresses the points
      only when the wireframe toggle is on as well: with vertices and faces
      on and edges off, the points are drawn next to the filled faces. */
  lemma FillSuppressesWireframe(showVertices: bool, showEdges: bool, showFaces: bool)
    requires showFaces
    ensures !SelectModes(showVertices, showEdges, showFaces).edges
    ensures SelectModes(showVertices, showEdges, showFaces).points <==> showVertices && !showEdges
  {
  }

  /** With fill off, every toggle selects its own pass and nothing else. */
  lemma TogglesIndependentWithoutFill(showVertices: bool, showEdges: bool)
    ensures SelectModes(showVertices, showEdges, false) == DrawModes(showVertices, showEdges, false)
  {
  }

  // ---------------------------------------------------------------------
  // Phong special cases.

  /** The flags of calcZBuffer's special cases. */
  datatype ShadeFlags = ShadeFlags(flipNormal: bool, noDiffuse: bool, noSpecular: bool)

  /** The special cases for the dot products N.L, V.N and V.R, all taken
      with the interpolated normal before any flip (R is computed before
      the flip as well). */
  function PhongFlags(nl: real, vn: real, vr: real): (f: ShadeFlags)
    ensures f.flipNormal <==> nl < 0.0 && vn < 0.0
    ensures f.noDiffuse <==> nl < 0.0 && vn >= 0.0
    ensures f.noSpecular <==> (nl < 0.0 && vn >= 0.0) || vr < 0.0
  {
    var flip := nl < 0.0 && vn < 0.0;
    var noDiffuse := nl < 0.0 && !(vn < 0.0);
    var noSpecular := noDiffuse || vr < 0.0;
    ShadeFlags(flip, noDiffuse, noSpecular)
  }

  /** N.L as the diffuse term reads it: negated when the normal was flipped. */
  function EffectiveNL(f: ShadeFlags, nl: real): real {
    if f.flipNormal then -nl else nl
  }

  /** Whenever the diffuse term is computed, the light is on the front side
      of the (possibly flipped) normal, and whenever the specular term is
      computed the reflection points towards the viewer; a flip never
      happens together with a suppressed diffuse term. */
  lemma PhongFlagsSound(nl: real, vn: real, vr: real)
    ensures var f := PhongFlags(nl, vn, vr);
            && (!f.noDiffuse ==> EffectiveNL(f, nl) >= 0.0)
            && (!f.noSpecular ==> vr >= 0.0)
            && !(f.flipNormal && f.noDiffuse)
            && (f.noDiffuse ==> f.noSpecular)
  {
  }

  // ---------------------------------------------------------------------
  // Colour channels.

  /** roundToColor: clamps a rounded channel value into 0..255. */
  function RoundToColor(l: int): (c: int)
    ensures 0 <= c <= 255
    ensures 0 <= l <= 255 ==> c == l
    ensures l > 255 ==> c == 255
    ensures l < 0 ==> c == 0
  {
    if l > 255 then 255 else if l < 0 then 0 else l
  }

  /** The clamp is monotone and idempotent. */
  lemma RoundToColorMonotone(l1: int, l2: int)
    requires l1 <= l2
    ensures RoundToColor(l1) <= RoundToColor(l2)
    ensures RoundToColor(RoundToColor(l1)) == RoundToColor(l1)
  {
  }

  /** One output channel: roundToColor(Math.round(Ia + Is + Id)), with the
      ambient, specular and diffuse terms as inputs. */
  function Channel(ia: real, spec: real, id: real): (c: int)
    ensures 0 <= c <= 255
  {
    RoundToColor(MathRound(ia + spec + id))
  }

  /** An RGB triple of reals (a light colour read as doubles, or a
      per-channel coefficient vector). */
  datatype Rgb = Rgb(r: real, g: real, b: real)

  /** The parameters of the point light that the shader reads: ambient,
      diffuse (per channel) and specular coefficients, diffuse reflectance,
      incident and ambient intensities. */
  datatype Light = Light(kA: real, kD: Rgb, kS: real, oD: Rgb, iL: Rgb, iAmb: Rgb)

  /** The colour calcZBuffer stores for a pixel lit by `light`, given the
      three dot products and the value pow(R.V, n) of the float library. */
  function PhongColor(light: Light, nl: real, vn: real, vr: real, rvPow: real): (c: Color)
    ensures 0 <= c.red <= 255 && 0 <= c.green <= 255 && 0 <= c.blue <= 255
  {
    var f := PhongFlags(nl, vn, vr);
    var m := rvPow * light.kS;
    var sp := if f.noSpecular then Rgb(0.0, 0.0, 0.0)
              else Rgb(m * light.iL.r, m * light.iL.g, m * light.iL.b);
    var nlEff := EffectiveNL(f, nl);
    var id := if f.noDiffuse then Rgb(0.0, 0.0, 0.0)
              else Rgb(light.kD.r * nlEff * light.oD.r * light.iL.r,
                       light.kD.g * nlEff * light.oD.g * light.iL.g,
                       light.kD.b * nlEff * light.oD.b * light.iL.b);
    var ia := Rgb(light.kA * light.iAmb.r, light.kA * light.iAmb.g, light.kA * light.iAmb.b);
    Color(Channel(ia.r, sp.r, id.r), Channel(ia.g, sp.g, id.g), Channel(ia.b, sp.b, id.b))
  }

  /** The ambient-only colour. */
  function AmbientColor(light: Light): Color {
    Color(Channel(light.kA * light.iAmb.r, 0.0, 0.0),
          Channel(light.kA * light.iAmb.g, 0.0, 0.0),
          Channel(light.kA * light.iAmb.b, 0.0, 0.0))
  }

  /** A light behind the surface seen from the front leaves only the ambient
      term, whatever the other inputs are. */
  lemma LightBehindSurfaceIsAmbientOnly(light: Light, nl: real, vn: real, vr: real, rvPow: real)
    requires nl < 0.0 && vn >= 0.0
    ensures PhongColor(light, nl, vn, vr, rvPow) == AmbientColor(light)
  {
  }

  /** The flip keeps the diffuse term non-negative for non-negative
      coefficients: a light on either side of a surface seen from that same
      side lights it, in every channel. */
  lemma DiffuseNeverDarkens(light: Light, nl: real, vn: real, vr: real)
    requires light.kD.r >= 0.0 && light.oD.r >= 0.0 && light.iL.r >= 0.0
    requires light.kD.g >= 0.0 && light.oD.g >= 0.0 && light.iL.g >= 0.0
    requires light.kD.b >= 0.0 && light.oD.b >= 0.0 && light.iL.b >= 0.0
    requires !PhongFlags(nl, vn, vr).noDiffuse
    ensures var e := EffectiveNL(PhongFlags(nl, vn, vr), nl);
            && light.kD.r * e * light.oD.r * light.iL.r >= 0.0
            && light.kD.g * e * light.oD.g * light.iL.g >= 0.0
            && light.kD.b * e * light.oD.b * light.iL.b >= 0.0
  {
    var e := EffectiveNL(PhongFlags(nl, vn, vr), nl);
    PhongFlagsSound(nl, vn, vr);
    ProductNonNegative(light.kD.r, e, light.oD.r, light.iL.r);
    ProductNonNegative(light.kD.g, e, light.oD.g, light.iL.g);
    ProductNonNegative(light.kD.b, e, light.oD.b, light.iL.b);
  }

  lemma ProductNonNegative(k: real, e: real, o: real, i: real)
    requires k >= 0.0 && e >= 0.0 && o >= 0.0 && i >= 0.0
    ensures k * e * o * i >= 0.0
  {
    assert k * e >= 0.0;
    assert k * e * o >= 0.0;
  }
}
