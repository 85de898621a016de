/**
 * The vertex-transform arithmetic of the shader stage: the column-major
 * matrix-vector product, the model-view-projection chain, the guarded
 * perspective divide, the viewport mapping, the direction transform of
 * normals, and the fragment shader's dependence on its inputs.
 *
 * Arithmetic is over the reals; `normalize` and `cos`, which need square
 * roots and trigonometry, are taken as function parameters.
 */
module Shaders {
  import opened Values

  // ---------------------------------------------------------------------------
  // Matrices and vectors

  /** Entry `m[k]` of the sixteen, `k = row + 4 * col`. */
  function Entry(m: Mat4, k: nat): real
    requires k < 16
  {
    match k
    case 0 => m.m0   case 1 => m.m1   case 2 => m.m2   case 3 => m.m3
    case 4 => m.m4   case 5 => m.m5   case 6 => m.m6   case 7 => m.m7
    case 8 => m.m8   case 9 => m.m9   case 10 => m.m10 case 11 => m.m11
    case 12 => m.m12 case 13 => m.m13 case 14 => m.m14 case _ => m.m15
  }

  /** Component `i` of a 4-vector: x, y, z, w. */
  function Component(v: Vec4, i: nat): real
    requires i < 4
  {
    match i
    case 0 => v.x
    case 1 => v.y
    case 2 => v.z
    case _ => v.w
  }

  /** One row of `multiply_matrix_vector4`: the row's four entries weighted by the vector's components. */
  function Dot(a: real, b: real, c: real, d: real, v: Vec4): real {
    a * v.x + b * v.y + c * v.z + d * v.w
  }

  /** `multiply_matrix_vector4`. */
  function MulMatVec(m: Mat4, v: Vec4): Vec4 {
    Vec4(
      Dot(m.m0, m.m4, m.m8, m.m12, v),
      Dot(m.m1, m.m5, m.m9, m.m13, v),
      Dot(m.m2, m.m6, m.m10, m.m14, v),
      Dot(m.m3, m.m7, m.m11, m.m15, v))
  }

  /** The product is column-major: output component `i` weighs column `c` by input component `c`. */
  lemma MulMatVecIsColumnMajor(m: Mat4, v: Vec4, i: nat)
    requires i < 4
    ensures Component(MulMatVec(m, v), i) ==
      Entry(m, i) * v.x + Entry(m, i + 4) * v.y + Entry(m, i + 8) * v.z + Entry(m, i + 12) * v.w
  {
  }

  const Identity: Mat4 := Mat4(
    1.0, 0.0, 0.0, 0.0,
    0.0, 1.0, 0.0, 0.0,
    0.0, 0.0, 1.0, 0.0,
    0.0, 0.0, 0.0, 1.0)

  lemma MulIdentity(v: Vec4)
    ensures MulMatVec(Identity, v) == v
  {
  }

  function Scale4(v: Vec4, k: real): Vec4 {
    Vec4(k * v.x, k * v.y, k * v.z, k * v.w)
  }

  /** One row of the product is linear in the vector. */
  lemma DotScale(a: real, b: real, c: real, d: real, v: Vec4, k: real)
    ensures Dot(a, b, c, d, Scale4(v, k)) == k * Dot(a, b, c, d, v)
  {
    assert a * (k * v.x) == k * (a * v.x);
    assert b * (k * v.y) == k * (b * v.y);
    assert c * (k * v.z) == k * (c * v.z);
    assert d * (k * v.w) == k * (d * v.w);
  }

  /** The product is linear: scaling the input scales the output. */
  lemma MulMatVecScale(m: Mat4, v: Vec4, k: real)
    ensures MulMatVec(m, Scale4(v, k)) == Scale4(MulMatVec(m, v), k)
  {
    DotScale(m.m0, m.m4, m.m8, m.m12, v, k);
    DotScale(m.m1, m.m5, m.m9, m.m13, v, k);
    DotScale(m.m2, m.m6, m.m10, m.m14, v, k);
    DotScale(m.m3, m.m7, m.m11, m.m15, v, k);
  }

  /** Column `c` of a matrix, as a 4-vector. */
  function Column(m: Mat4, c: nat): Vec4
    requires c < 4
  {
    match c
    case 0 => Vec4(m.m0, m.m1, m.m2, m.m3)
    case 1 => Vec4(m.m4, m.m5, m.m6, m.m7)
    case 2 => Vec4(m.m8, m.m9, m.m10, m.m11)
    case _ => Vec4(m.m12, m.m13, m.m14, m.m15)
  }

  /** The matrix product `a * b`: column `c` of the product is `a` applied to column `c` of `b`. */
  function MulMat(a: Mat4, b: Mat4): Mat4 {
    var c0 := MulMatVec(a, Column(b, 0));
    var c1 := MulMatVec(a, Column(b, 1));
    var c2 := MulMatVec(a, Column(b, 2));
    var c3 := MulMatVec(a, Column(b, 3));
    Mat4(c0.x, c0.y, c0.z, c0.w, c1.x, c1.y, c1.z, c1.w,
         c2.x, c2.y, c2.z, c2.w, c3.x, c3.y, c3.z, c3.w)
  }

  /** A factor distributes over a row's weights. */
  lemma DotScaleWeights(k: real, p: real, q: real, r: real, t: real, v: Vec4)
    ensures k * Dot(p, q, r, t, v) == Dot(k * p, k * q, k * r, k * t, v)
  {
    assert k * (p * v.x) == (k * p) * v.x;
    assert k * (q * v.y) == (k * q) * v.y;
    assert k * (r * v.z) == (k * r) * v.z;
    assert k * (t * v.w) == (k * t) * v.w;
  }

  /** Rows against the same vector add weight by weight. */
  lemma DotAddWeights(p1: real, q1: real, r1: real, t1: real, p2: real, q2: real, r2: real, t2: real, v: Vec4)
    ensures Dot(p1, q1, r1, t1, v) + Dot(p2, q2, r2, t2, v) == Dot(p1 + p2, q1 + q2, r1 + r2, t1 + t2, v)
  {
    assert (p1 + p2) * v.x == p1 * v.x + p2 * v.x;
    assert (q1 + q2) * v.y == q1 * v.y + q2 * v.y;
    assert (r1 + r2) * v.z == r1 * v.z + r2 * v.z;
    assert (t1 + t2) * v.w == t1 * v.w + t2 * v.w;
  }

  /** One row of `a * (b * v)`: a row of `a` against `b * v` is that row times `b`, against `v`. */
  lemma DotOfProduct(a0: real, a1: real, a2: real, a3: real, b: Mat4, v: Vec4)
    ensures Dot(a0, a1, a2, a3, MulMatVec(b, v)) ==
      Dot(Dot(a0, a1, a2, a3, Column(b, 0)), Dot(a0, a1, a2, a3, Column(b, 1)),
          Dot(a0, a1, a2, a3, Column(b, 2)), Dot(a0, a1, a2, a3, Column(b, 3)), v)
  {
    var bv := MulMatVec(b, v);
    assert Dot(a0, a1, a2, a3, bv) == a0 * bv.x + a1 * bv.y + a2 * bv.z + a3 * bv.w;
    DotScaleWeights(a0, b.m0, b.m4, b.m8, b.m12, v);
    DotScaleWeights(a1, b.m1, b.m5, b.m9, b.m13, v);
    DotScaleWeights(a2, b.m2, b.m6, b.m10, b.m14, v);
    DotScaleWeights(a3, b.m3, b.m7, b.m11, b.m15, v);
    DotAddWeights(a0 * b.m0, a0 * b.m4, a0 * b.m8, a0 * b.m12, a1 * b.m1, a1 * b.m5, a1 * b.m9, a1 * b.m13, v);
    DotAddWeights(a0 * b.m0 + a1 * b.m1, a0 * b.m4 + a1 * b.m5, a0 * b.m8 + a1 * b.m9, a0 * b.m12 + a1 * b.m13,
                  a2 * b.m2, a2 * b.m6, a2 * b.m10, a2 * b.m14, v);
    DotAddWeights(a0 * b.m0 + a1 * b.m1 + a2 * b.m2, a0 * b.m4 + a1 * b.m5 + a2 * b.m6,
                  a0 * b.m8 + a1 * b.m9 + a2 * b.m10, a0 * b.m12 + a1 * b.m13 + a2 * b.m14,
                  a3 * b.m3, a3 * b.m7, a3 * b.m11, a3 * b.m15, v);
  }

  /** Applying `a * b` is applying `b` and then `a`. */
  lemma MulMatAssociates(a: Mat4, b: Mat4, v: Vec4)
    ensures MulMatVec(MulMat(a, b), v) == MulMatVec(a, MulMatVec(b, v))
  {
    DotOfProduct(a.m0, a.m4, a.m8, a.m12, b, v);
    DotOfProduct(a.m1, a.m5, a.m9, a.m13, b, v);
    DotOfProduct(a.m2, a.m6, a.m10, a.m14, b, v);
    DotOfProduct(a.m3, a.m7, a.m11, a.m15, b, v);
  }

  /** Two matrices that agree everywhere except in their translation column `m12..m15`. */
  predicate SameLinearPart(m1: Mat4, m2: Mat4) {
    m1.m0 == m2.m0 && m1.m1 == m2.m1 && m1.m2 == m2.m2 && m1.m3 == m2.m3 &&
    m1.m4 == m2.m4 && m1.m5 == m2.m5 && m1.m6 == m2.m6 && m1.m7 == m2.m7 &&
    m1.m8 == m2.m8 && m1.m9 == m2.m9 && m1.m10 == m2.m10 && m1.m11 == m2.m11
  }

  // ---------------------------------------------------------------------------
  // The vertex shader

  /** The per-draw-call matrices (and clock) every shader invocation receives. */
  datatype Uniforms = Uniforms(model: Mat4, view: Mat4, projection: Mat4, viewport: Mat4, time: real)

  datatype Vertex = Vertex(position: Vec3, normal: Vec3, texCoords: Vec2, color: Vec3,
                           transformedPosition: Vec3, transformedNormal: Vec3)

  /** A point (w = 1) through the model, view and projection matrices, in that order. */
  function ClipPosition(u: Uniforms, p: Vec3): Vec4 {
    var world := MulMatVec(u.model, Vec4(p.x, p.y, p.z, 1.0));
    var view := MulMatVec(u.view, world);
    MulMatVec(u.projection, view)
  }

  /** The clip position is the single matrix `projection * view * model` applied to `(p, 1)`. */
  lemma ClipPositionIsProduct(u: Uniforms, p: Vec3)
    ensures ClipPosition(u, p) == MulMatVec(MulMat(u.projection, MulMat(u.view, u.model)), Vec4(p.x, p.y, p.z, 1.0))
  {
    var h := Vec4(p.x, p.y, p.z, 1.0);
    MulMatAssociates(u.view, u.model, h);
    MulMatAssociates(u.projection, MulMat(u.view, u.model), h);
  }

  /**
   * The guarded perspective divide: by `w` when `w != 0`, otherwise the clip
   * coordinates unchanged, so nothing is ever divided by zero.
   */
  function PerspectiveDivide(clip: Vec4): (ndc: Vec3)
    ensures clip.w != 0.0 ==> ndc.x * clip.w == clip.x && ndc.y * clip.w == clip.y && ndc.z * clip.w == clip.z
    ensures clip.w == 0.0 ==> ndc == Vec3(clip.x, clip.y, clip.z)
  {
    if clip.w != 0.0 then
      Vec3(clip.x / clip.w, clip.y / clip.w, clip.z / clip.w)
    else
      Vec3(clip.x, clip.y, clip.z)
  }

  /** A common non-zero factor cancels in a quotient. */
  lemma DivCancel(a: real, w: real, k: real)
    requires w != 0.0 && k != 0.0
    ensures (k * a) / (k * w) == a / w
  {
    var q := a / w;
    assert q * w == a;
    assert q * (k * w) == k * a;
  }

  /** Homogeneous coordinates: a non-zero multiple of a clip position divides to the same point. */
  lemma PerspectiveDivideScaleInvariant(clip: Vec4, k: real)
    requires clip.w != 0.0 && k != 0.0
    ensures PerspectiveDivide(Scale4(clip, k)) == PerspectiveDivide(clip)
  {
    DivCancel(clip.x, clip.w, k);
    DivCancel(clip.y, clip.w, k);
    DivCancel(clip.z, clip.w, k);
  }

  /** The viewport mapping: `viewport * (ndc, 1)` with its fourth component dropped. */
  function ViewportMap(viewport: Mat4, ndc: Vec3): Vec3 {
    var s := MulMatVec(viewport, Vec4(ndc.x, ndc.y, ndc.z, 1.0));
    Vec3(s.x, s.y, s.z)
  }

  /** The viewport maps the NDC origin to its own translation column (the screen centre for the usual viewport matrix). */
  lemma ViewportMapOrigin(viewport: Mat4)
    ensures ViewportMap(viewport, Vec3(0.0, 0.0, 0.0)) == Vec3(viewport.m12, viewport.m13, viewport.m14)
  {
  }

  /** `transform_normal` before its `normalize` call: the normal as a direction (w = 0). */
  function NormalDirection(normal: Vec3, model: Mat4): Vec3 {
    var n := MulMatVec(model, Vec4(normal.x, normal.y, normal.z, 0.0));
    Vec3(n.x, n.y, n.z)
  }

  /** A direction (w = 0) is unaffected by the translation column `m12..m15`. */
  lemma NormalDirectionIgnoresTranslation(normal: Vec3, m1: Mat4, m2: Mat4)
    requires SameLinearPart(m1, m2)
    ensures NormalDirection(normal, m1) == NormalDirection(normal, m2)
  {
  }

  /**
   * `vertex_shader`: the attributes of the input vertex are copied unchanged and
   * only the two transformed fields are computed. `normalize` stands for raylib's
   * `Vector3::normalize`.
   */
  function VertexShader(vertex: Vertex, u: Uniforms, normalize: Vec3 -> Vec3): (r: Vertex)
    ensures r.position == vertex.position && r.normal == vertex.normal
    ensures r.texCoords == vertex.texCoords && r.color == vertex.color
  {
    var ndc := PerspectiveDivide(ClipPosition(u, vertex.position));
    Vertex(vertex.position, vertex.normal, vertex.texCoords, vertex.color,
           ViewportMap(u.viewport, ndc),
           normalize(NormalDirection(vertex.normal, u.model)))
  }

  /** The screen position depends on the object-space position and the four matrices only. */
  lemma VertexShaderPositionDependsOnPosition(v1: Vertex, v2: Vertex, u1: Uniforms, u2: Uniforms,
                                              n1: Vec3 -> Vec3, n2: Vec3 -> Vec3)
    requires v1.position == v2.position
    requires u1.model == u2.model && u1.view == u2.view
    requires u1.projection == u2.projection && u1.viewport == u2.viewport
    ensures VertexShader(v1, u1, n1).transformedPosition == VertexShader(v2, u2, n2).transformedPosition
  {
  }

  /** With identity model, view and projection matrices a point reaches clip space unchanged, with w = 1. */
  lemma ClipPositionUnderIdentity(u: Uniforms, p: Vec3)
    requires u.model == Identity && u.view == Identity && u.projection == Identity
    ensures ClipPosition(u, p) == Vec4(p.x, p.y, p.z, 1.0)
  {
    var o := Vec4(p.x, p.y, p.z, 1.0);
    MulIdentity(o);
  }

  /** With identity model, view and projection matrices the object-space origin lands on the viewport's translation column. */
  lemma VertexShaderOriginToViewportCentre(v: Vertex, u: Uniforms, normalize: Vec3 -> Vec3)
    requires v.position == Vec3(0.0, 0.0, 0.0)
    requires u.model == Identity && u.view == Identity && u.projection == Identity
    ensures VertexShader(v, u, normalize).transformedPosition == Vec3(u.viewport.m12, u.viewport.m13, u.viewport.m14)
  {
    var o := Vec4(0.0, 0.0, 0.0, 1.0);
    ClipPositionUnderIdentity(u, v.position);
    assert PerspectiveDivide(o) == Vec3(0.0, 0.0, 0.0);
    ViewportMapOrigin(u.viewport);
  }

  /**
   * A projection sends every non-zero multiple of a homogeneous point to the
   * same normalised device coordinates, whenever the divide happens.
   */
  lemma ProjectionOfMultipleIsSamePoint(projection: Mat4, v: Vec4, k: real)
    requires k != 0.0 && MulMatVec(projection, v).w != 0.0
    ensures PerspectiveDivide(MulMatVec(projection, Scale4(v, k))) == PerspectiveDivide(MulMatVec(projection, v))
  {
    MulMatVecScale(projection, v, k);
    PerspectiveDivideScaleInvariant(MulMatVec(projection, v), k);
  }

  // ---------------------------------------------------------------------------
  // The fragment shader

  datatype Fragment = Fragment(position: Vec2, color: Vec3, depth: real)

  /**
   * `fragment_shaders`: 40% of the fragment's colour lifted by 0.2 plus 60% of a
   * pattern of its screen position. `cos` stands for `f32::cos`.
   */
  function FragmentShader(fragment: Fragment, u: Uniforms, cos: real -> real): Vec3 {
    var base := Vec3(fragment.color.x + 0.2, fragment.color.y + 0.2, fragment.color.z + 0.2);
    var xPattern := (fragment.position.x / 20.0) * 0.35 + 0.1;
    var yPattern := cos(fragment.position.y / 250.0) * 0.9 + 0.1;
    var pattern := Vec3(xPattern, yPattern, cos(xPattern + yPattern) - 0.9);
    Vec3(base.x * 0.4 + pattern.x * 0.6, base.y * 0.4 + pattern.y * 0.6, base.z * 0.4 + pattern.z * 0.6)
  }

  /** The fragment shader reads only the fragment's colour and position: not its depth, not the uniforms. */
  lemma FragmentShaderReadsColorAndPosition(f1: Fragment, f2: Fragment, u1: Uniforms, u2: Uniforms, cos: real -> real)
    requires f1.position == f2.position && f1.color == f2.color
    ensures FragmentShader(f1, u1, cos) == FragmentShader(f2, u2, cos)
  {
  }

  /** The red channel is an affine function of the fragment's red and x with no trigonometry in it. */
  lemma FragmentShaderRedIsAffine(f: Fragment, u: Uniforms, cos: real -> real)
    ensures FragmentShader(f, u, cos).x == 0.4 * f.color.x + 0.0105 * f.position.x + 0.14
  {
  }
}
