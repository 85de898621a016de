/**
 * The render driver: `transform` (three rotations, then a scale and a
 * translation of x and y) and `render`, which transforms a vertex array
 * element by element and then hands consecutive triples to the triangle
 * routine, dropping one or two leftover vertices.
 *
 * The rotation angles enter only through their sines and cosines, which are
 * taken as given; what the triangle routine draws is not modelled, so `render`
 * returns the triangles it hands over, in order.
 */
module Driver {
  import opened Values

  /** The sine and cosine of each rotation angle, as `transform` computes them with `sin_cos`. */
  datatype Rotation = Rotation(sinX: real, cosX: real, sinY: real, cosY: real, sinZ: real, cosZ: real)

  /** The sines and cosines of a zero rotation. */
  const NoRotation: Rotation := Rotation(0.0, 1.0, 0.0, 1.0, 0.0, 1.0)

  function RotateX(v: Vec3, s: real, c: real): Vec3 {
    Vec3(v.x, v.y * c - v.z * s, v.y * s + v.z * c)
  }

  function RotateY(v: Vec3, s: real, c: real): Vec3 {
    Vec3(v.x * c + v.z * s, v.y, -v.x * s + v.z * c)
  }

  function RotateZ(v: Vec3, s: real, c: real): Vec3 {
    Vec3(v.x * c - v.y * s, v.x * s + v.y * c, v.z)
  }

  function SquaredLength(v: Vec3): real {
    v.x * v.x + v.y * v.y + v.z * v.z
  }

  /** A sine and cosine of one angle. */
  predicate UnitPair(s: real, c: real) {
    s * s + c * c == 1.0
  }

  lemma RotatePlanePreservesLength(a: real, b: real, s: real, c: real)
    requires UnitPair(s, c)
    ensures (a * c - b * s) * (a * c - b * s) + (a * s + b * c) * (a * s + b * c) == a * a + b * b
  {
    calc {
      (a * c - b * s) * (a * c - b * s) + (a * s + b * c) * (a * s + b * c);
      a * a * (c * c + s * s) + b * b * (s * s + c * c);
      a * a + b * b;
    }
  }

  /** The three rotations of `transform`, about x, then y, then z. */
  function Rotate(v: Vec3, r: Rotation): Vec3 {
    RotateZ(RotateY(RotateX(v, r.sinX, r.cosX), r.sinY, r.cosY), r.sinZ, r.cosZ)
  }

  /** When each pair is the sine and cosine of an angle, the rotations keep the vertex's distance from the origin. */
  lemma RotatePreservesLength(v: Vec3, r: Rotation)
    requires UnitPair(r.sinX, r.cosX) && UnitPair(r.sinY, r.cosY) && UnitPair(r.sinZ, r.cosZ)
    ensures SquaredLength(Rotate(v, r)) == SquaredLength(v)
  {
    var p := RotateX(v, r.sinX, r.cosX);
    RotatePlanePreservesLength(v.y, v.z, r.sinX, r.cosX);
    assert SquaredLength(p) == SquaredLength(v);
    var q := RotateY(p, r.sinY, r.cosY);
    RotatePlanePreservesLength(p.z, p.x, r.sinY, r.cosY);
    assert q.x == p.z * r.sinY + p.x * r.cosY;
    assert SquaredLength(q) == SquaredLength(p);
    RotatePlanePreservesLength(q.x, q.y, r.sinZ, r.cosZ);
  }

  /** `transform`: rotate, then scale and translate x and y. */
  function Transform(v: Vec3, translation: Vec2, scale: real, r: Rotation): Vec3 {
    var p := Rotate(v, r);
    Vec3(p.x * scale + translation.x, p.y * scale + translation.y, p.z)
  }

  /** Scale and translation reach x and y only: z is the rotated z, whatever they are. */
  lemma TransformKeepsRotatedZ(v: Vec3, t1: Vec2, s1: real, t2: Vec2, s2: real, r: Rotation)
    ensures Transform(v, t1, s1, r).z == Transform(v, t2, s2, r).z == Rotate(v, r).z
  {
  }

  /** On x and y, `transform` is the rotation followed by a scale and then a translation. */
  lemma TransformIsAffineInXY(v: Vec3, t: Vec2, s: real, r: Rotation)
    ensures var plain := Transform(v, Vec2(0.0, 0.0), 1.0, r);
      Transform(v, t, s, r).x == plain.x * s + t.x && Transform(v, t, s, r).y == plain.y * s + t.y
  {
  }

  /** Without rotation, `transform` is `(x * scale + tx, y * scale + ty, z)`. */
  lemma TransformWithoutRotation(v: Vec3, t: Vec2, s: real)
    ensures Transform(v, t, s, NoRotation) == Vec3(v.x * s + t.x, v.y * s + t.y, v.z)
  {
    assert Rotate(v, NoRotation) == v;
  }

  // ---------------------------------------------------------------------------
  // Triangle assembly

  /** The three vertices one call of the triangle routine receives. */
  datatype Triangle = Triangle(a: Vec3, b: Vec3, c: Vec3)

  /** The triangles of a vertex list read three at a time, leftovers dropped. */
  function Assemble(vs: seq<Vec3>): seq<Triangle>
    decreases |vs|
  {
    if |vs| < 3 then [] else [Triangle(vs[0], vs[1], vs[2])] + Assemble(vs[3..])
  }

  /** `Assemble` yields `|vs| / 3` triangles, the `k`-th from vertices `3k`, `3k+1` and `3k+2`. */
  lemma {:induction false} AssembleShape(vs: seq<Vec3>)
    ensures |Assemble(vs)| == |vs| / 3
    ensures forall k :: 0 <= k < |vs| / 3 ==>
      Assemble(vs)[k] == Triangle(vs[3 * k], vs[3 * k + 1], vs[3 * k + 2])
    decreases |vs|
  {
    if |vs| >= 3 {
      var rest := vs[3..];
      AssembleShape(rest);
      forall k | 1 <= k < |vs| / 3
        ensures Assemble(vs)[k] == Triangle(vs[3 * k], vs[3 * k + 1], vs[3 * k + 2])
      {
        assert Assemble(vs)[k] == Assemble(rest)[k - 1];
        assert rest[3 * (k - 1)] == vs[3 * k];
        assert rest[3 * (k - 1) + 1] == vs[3 * k + 1];
        assert rest[3 * (k - 1) + 2] == vs[3 * k + 2];
      }
    }
  }

  /** `render`'s first loop: every vertex transformed, in order. */
  method TransformVertices(vertexArray: seq<Vec3>, translation: Vec2, scale: real, rotation: Rotation)
    returns (transformed: seq<Vec3>)
    ensures |transformed| == |vertexArray|
    ensures forall k :: 0 <= k < |vertexArray| ==> transformed[k] == Transform(vertexArray[k], translation, scale, rotation)
  {
    transformed := [];
    for i := 0 to |vertexArray|
      invariant |transformed| == i
      invariant forall k :: 0 <= k < i ==> transformed[k] == Transform(vertexArray[k], translation, scale, rotation)
    {
      transformed := transformed + [Transform(vertexArray[i], translation, scale, rotation)];
    }
  }

  /**
   * `render`'s second loop: indices 0, 3, 6, ... below the length, and a
   * triangle only where `i + 2` is still an index.
   */
  method AssembleTriangles(vs: seq<Vec3>) returns (triangles: seq<Triangle>)
    ensures |triangles| == |vs| / 3
    ensures forall k :: 0 <= k < |triangles| ==>
      3 * k + 2 < |vs| && triangles[k] == Triangle(vs[3 * k], vs[3 * k + 1], vs[3 * k + 2])
    ensures triangles == Assemble(vs)
  {
    triangles := [];
    var i := 0;
    while i < |vs|
      invariant i % 3 == 0 && 0 <= i
      invariant i <= |vs| + 2
      invariant |triangles| == (if i <= |vs| then i else |vs|) / 3
      invariant forall k :: 0 <= k < |triangles| ==>
        3 * k + 2 < |vs| && triangles[k] == Triangle(vs[3 * k], vs[3 * k + 1], vs[3 * k + 2])
      decreases |vs| - i
    {
      if i + 2 < |vs| {
        triangles := triangles + [Triangle(vs[i], vs[i + 1], vs[i + 2])];
      }
      i := i + 3;
    }
    AssembleShape(vs);
  }

  /**
   * `render`: the triangles handed to the triangle routine, in order. There are
   * `len / 3` of them, the `k`-th made of the transforms of input vertices `3k`,
   * `3k+1` and `3k+2`, and one or two trailing vertices are dropped.
   */
  method Render(translation: Vec2, scale: real, rotation: Rotation, vertexArray: seq<Vec3>)
    returns (drawn: seq<Triangle>)
    ensures |drawn| == |vertexArray| / 3 && 0 <= |vertexArray| - 3 * |drawn| < 3
    ensures forall k :: 0 <= k < |drawn| ==>
      3 * k + 2 < |vertexArray| &&
      drawn[k] == Triangle(Transform(vertexArray[3 * k], translation, scale, rotation),
                           Transform(vertexArray[3 * k + 1], translation, scale, rotation),
                           Transform(vertexArray[3 * k + 2], translation, scale, rotation))
  {
    var transformedVertices := TransformVertices(vertexArray, translation, scale, rotation);
    drawn := AssembleTriangles(transformedVertices);
  }
}
