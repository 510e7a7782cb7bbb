/** Triangle rasterization (src/triangle.rs): an integer bounding box scanned
    row by row, barycentric weights at each pixel centre, and one fragment per
    pixel whose weights all lie in [0, 1]. */
module Raster {
  import opened Glm
  import opened Casts
  import opened Colors
  import opened Fragments
  import opened Vertices

  /** An inclusive integer pixel range per axis. */
  datatype Box = Box(minX: int, minY: int, maxX: int, maxY: int)

  datatype Weights = Weights(w1: real, w2: real, w3: real)

  /** Below this magnitude the weight system is taken as singular. */
  const DegenerateEpsilon: real := 0.00000001

  /** The slack allowed on the sum of the weights. */
  const SumTolerance: real := 0.001

  /** The light direction, fixed along +Z in view space. */
  const LightDir: Vec3 := Vec3(0.0, 0.0, 1.0)

  predicate FitsI32(v: Vec3) {
    I32_MIN as real <= v.x <= I32_MAX as real && I32_MIN as real <= v.y <= I32_MAX as real
  }

  predicate InBox(r: Box, v: Vec3) {
    r.minX as real <= v.x <= r.maxX as real && r.minY as real <= v.y <= r.maxY as real
  }

  function Min3(p: real, q: real, r: real): real {
    Min(Min(p, q), r)
  }

  function Max3(p: real, q: real, r: real): real {
    Max(Max(p, q), r)
  }

  /** `calculate_bounding_box`: floor of the minimum and ceiling of the maximum
      per axis, cast to i32. When the coordinates fit in i32 the box is exactly
      that, and it holds all three vertices. */
  function BoundingBox(a: Vec3, b: Vec3, c: Vec3): (r: Box)
    ensures FitsI32(a) && FitsI32(b) && FitsI32(c) ==>
      && r.minX == Floor(Min3(a.x, b.x, c.x)) && r.maxX == Ceil(Max3(a.x, b.x, c.x))
      && r.minY == Floor(Min3(a.y, b.y, c.y)) && r.maxY == Ceil(Max3(a.y, b.y, c.y))
      && InBox(r, a) && InBox(r, b) && InBox(r, c)
  {
    Box(AsI32(Floor(Min3(a.x, b.x, c.x)) as real),
        AsI32(Floor(Min3(a.y, b.y, c.y)) as real),
        AsI32(Ceil(Max3(a.x, b.x, c.x)) as real),
        AsI32(Ceil(Max3(a.y, b.y, c.y)) as real))
  }

  /** Twice the signed area of the screen-space triangle (a, b, c); z is ignored. */
  function Cross(a: Vec3, b: Vec3, c: Vec3): real {
    (b.x - a.x) * (c.y - a.y) - (b.y - a.y) * (c.x - a.x)
  }

  /** `Vec3::new(to.x - from.x, to.y - from.y, 0.0)`: an offset in the screen plane. */
  function PlanarOffset(from: Vec3, to: Vec3): Vec3 {
    Vec3(to.x - from.x, to.y - from.y, 0.0)
  }

  /** `dot00 * dot11 - dot01 * dot01` for the edge vectors v0 = b - a and
      v1 = c - a: the Gram determinant of the weight system. */
  function Denominator(a: Vec3, b: Vec3, c: Vec3): real {
    var v0, v1 := PlanarOffset(a, b), PlanarOffset(a, c);
    Dot3(v0, v0) * Dot3(v1, v1) - Dot3(v0, v1) * Dot3(v0, v1)
  }

  /** `dot11 * dot20 - dot01 * dot21`, with v2 = p - a: the numerator of w2. */
  function Numerator2(p: Vec3, a: Vec3, b: Vec3, c: Vec3): real {
    var v0, v1, v2 := PlanarOffset(a, b), PlanarOffset(a, c), PlanarOffset(a, p);
    Dot3(v1, v1) * Dot3(v2, v0) - Dot3(v0, v1) * Dot3(v2, v1)
  }

  /** `dot00 * dot21 - dot01 * dot20`: the numerator of w3. */
  function Numerator3(p: Vec3, a: Vec3, b: Vec3, c: Vec3): real {
    var v0, v1, v2 := PlanarOffset(a, b), PlanarOffset(a, c), PlanarOffset(a, p);
    Dot3(v0, v0) * Dot3(v2, v1) - Dot3(v0, v1) * Dot3(v2, v0)
  }

  /** `barycentric_coordinates`: the weights of `p` against (a, b, c) from the
      normal equations, or nothing when the determinant is below 1e-8 in
      magnitude. Only the x and y components of the four points are read. */
  function Barycentric(p: Vec3, a: Vec3, b: Vec3, c: Vec3): Option<Weights> {
    var denom := Denominator(a, b, c);
    if Abs(denom) < DegenerateEpsilon then None
    else
      var invDenom := 1.0 / denom;
      var w2 := Numerator2(p, a, b, c) * invDenom;
      var w3 := Numerator3(p, a, b, c) * invDenom;
      var w1 := 1.0 - w2 - w3;
      Some(Weights(w1, w2, w3))
  }

  /** The rasterizer's acceptance test on one pixel's weights. */
  predicate Accepted(w: Weights) {
    && 0.0 <= w.w1 <= 1.0
    && 0.0 <= w.w2 <= 1.0
    && 0.0 <= w.w3 <= 1.0
    && Abs(w.w1 + w.w2 + w.w3 - 1.0) < SumTolerance
  }

  /** Weights of a point inside or on the triangle. */
  predicate Convex(w: Weights) {
    0.0 <= w.w1 && 0.0 <= w.w2 && 0.0 <= w.w3 && w.w1 + w.w2 + w.w3 == 1.0
  }

  /** The weights reproduce `p` in the screen plane. */
  predicate Reproduces(w: Weights, a: Vec3, b: Vec3, c: Vec3, p: Vec3) {
    Blend(w, a.x, b.x, c.x) == p.x && Blend(w, a.y, b.y, c.y) == p.y
  }

  /** `p` lies in the closed triangle (a, b, c), by exact geometry. */
  ghost predicate Covers(a: Vec3, b: Vec3, c: Vec3, p: Vec3) {
    exists w: Weights :: Convex(w) && Reproduces(w, a, b, c, p)
  }

  /** The weighted sum `p1 * w1 + p2 * w2 + p3 * w3`. */
  function Interpolate(p1: Vec3, p2: Vec3, p3: Vec3, w: Weights): Vec3 {
    Add3(Add3(Scale3(p1, w.w1), Scale3(p2, w.w2)), Scale3(p3, w.w3))
  }

  /** The weighted sum `w1 * p + w2 * q + w3 * r` of three scalars. */
  function Blend(w: Weights, p: real, q: real, r: real): real {
    w.w1 * p + w.w2 * q + w.w3 * r
  }

  /** The point sampled for pixel (x, y): its centre. */
  function Centre(x: int, y: int): Vec3 {
    Vec3(x as real + 0.5, y as real + 0.5, 0.0)
  }

  /** The body of the rasterizer's inner loop for pixel (x, y): the fragment it
      emits there, if any. */
  function PixelFragment(v1: Vertex, v2: Vertex, v3: Vertex, lib: Library, x: int, y: int): Option<Fragment> {
    var a, b, c := v1.transformedPosition, v2.transformedPosition, v3.transformedPosition;
    match Barycentric(Centre(x, y), a, b, c)
    case None => None
    case Some(w) =>
      if Accepted(w) then
        var depth := Blend(w, a.z, b.z, c.z);
        var normal := lib.normalize(Interpolate(v1.transformedNormal, v2.transformedNormal, v3.transformedNormal, w));
        var vertexPosition := Interpolate(v1.position, v2.position, v3.position, w);
        var intensity := Max(Dot3(normal, LightDir), 0.0);
        Some(Fragment(Vec2(x as real, y as real), depth, White, normal, vertexPosition, intensity))
      else None
  }

  function Emit(o: Option<Fragment>): seq<Fragment> {
    if o.Some? then [o.value] else []
  }

  /** Fragments of the pixels (x0, y), ..., (x - 1, y), left to right. */
  function RowFragments(v1: Vertex, v2: Vertex, v3: Vertex, lib: Library, y: int, x0: int, x: int): seq<Fragment>
    decreases x - x0
  {
    if x <= x0 then []
    else RowFragments(v1, v2, v3, lib, y, x0, x - 1) + Emit(PixelFragment(v1, v2, v3, lib, x - 1, y))
  }

  /** Fragments of the rows r.minY, ..., y - 1 of the box, top to bottom. */
  function BoxFragments(v1: Vertex, v2: Vertex, v3: Vertex, lib: Library, r: Box, y: int): seq<Fragment>
    decreases y - r.minY
  {
    if y <= r.minY then []
    else BoxFragments(v1, v2, v3, lib, r, y - 1) + RowFragments(v1, v2, v3, lib, y - 1, r.minX, r.maxX + 1)
  }

  function TriangleBox(v1: Vertex, v2: Vertex, v3: Vertex): Box {
    BoundingBox(v1.transformedPosition, v2.transformedPosition, v3.transformedPosition)
  }

  /** What `triangle` returns: every fragment of its bounding box, rows by
      ascending y, and within a row by ascending x. */
  function Rasterize(v1: Vertex, v2: Vertex, v3: Vertex, lib: Library): seq<Fragment> {
    var r := TriangleBox(v1, v2, v3);
    BoxFragments(v1, v2, v3, lib, r, r.maxY + 1)
  }

  /** `triangle`: scans the bounding box and collects the fragments. */
  method Triangle(v1: Vertex, v2: Vertex, v3: Vertex, lib: Library) returns (fragments: seq<Fragment>)
    ensures fragments == Rasterize(v1, v2, v3, lib)
  {
    fragments := [];
    var a := v1.transformedPosition;
    var b := v2.transformedPosition;
    var c := v3.transformedPosition;
    var r := BoundingBox(a, b, c);
    var y := r.minY;
    while y <= r.maxY
      invariant r.minY <= y
      invariant y <= r.maxY + 1 || y == r.minY
      invariant fragments == BoxFragments(v1, v2, v3, lib, r, y)
    {
      ghost var before := fragments;
      fragments := ScanRow(v1, v2, v3, lib, r, y, fragments);
      BoxLoopStep(v1, v2, v3, lib, r, y, before, fragments);
      y := y + 1;
    }
  }

  /** The inner loop of `triangle`: the fragments of row `y`, left to right,
      appended to those collected so far. */
  method ScanRow(v1: Vertex, v2: Vertex, v3: Vertex, lib: Library, r: Box, y: int, prefix: seq<Fragment>)
    returns (fragments: seq<Fragment>)
    ensures fragments == prefix + RowFragments(v1, v2, v3, lib, y, r.minX, r.maxX + 1)
  {
    fragments := prefix;
    var x := r.minX;
    while x <= r.maxX
      invariant r.minX <= x
      invariant x <= r.maxX + 1 || x == r.minX
      invariant fragments == prefix + RowFragments(v1, v2, v3, lib, y, r.minX, x)
    {
      ghost var before := fragments;
      var f := Sample(v1, v2, v3, lib, x, y);
      if f.Some? {
        fragments := fragments + [f.value];
      }
      RowLoopStep(v1, v2, v3, lib, y, r.minX, x, f, prefix, before, fragments);
      x := x + 1;
    }
  }

  /** The body of the inner loop of `triangle`, written as the statements it
      runs: the loop-body form of `PixelFragment`, which it is proved equal
      to and which the lemmas about fragments describe. */
  method Sample(v1: Vertex, v2: Vertex, v3: Vertex, lib: Library, x: int, y: int) returns (f: Option<Fragment>)
    ensures f == PixelFragment(v1, v2, v3, lib, x, y)
  {
    var a := v1.transformedPosition;
    var b := v2.transformedPosition;
    var c := v3.transformedPosition;
    var point := Centre(x, y);
    var bary := Barycentric(point, a, b, c);
    f := None;
    if bary.Some? {
      var w := bary.value;
      if Accepted(w) {
        var depth := Blend(w, a.z, b.z, c.z);
        var normal := lib.normalize(Interpolate(v1.transformedNormal, v2.transformedNormal, v3.transformedNormal, w));
        var vertexPosition := Interpolate(v1.position, v2.position, v3.position, w);
        var intensity := Max(Dot3(normal, LightDir), 0.0);
        f := Some(Fragment(Vec2(x as real, y as real), depth, White, normal, vertexPosition, intensity));
      }
    }
  }

  /** One row of the outer loop of `triangle` extends the box by that row. */
  lemma BoxLoopStep(v1: Vertex, v2: Vertex, v3: Vertex, lib: Library, r: Box, y: int, before: seq<Fragment>, after: seq<Fragment>)
    requires r.minY <= y
    requires before == BoxFragments(v1, v2, v3, lib, r, y)
    requires after == before + RowFragments(v1, v2, v3, lib, y, r.minX, r.maxX + 1)
    ensures after == BoxFragments(v1, v2, v3, lib, r, y + 1)
  {
    BoxStep(v1, v2, v3, lib, r, y);
  }

  /** One pixel of the inner loop of `triangle` extends the row by that
      pixel's fragment, if any. */
  lemma RowLoopStep(v1: Vertex, v2: Vertex, v3: Vertex, lib: Library, y: int, x0: int, x: int,
                    f: Option<Fragment>, prefix: seq<Fragment>, before: seq<Fragment>, after: seq<Fragment>)
    requires x0 <= x
    requires f == PixelFragment(v1, v2, v3, lib, x, y)
    requires before == prefix + RowFragments(v1, v2, v3, lib, y, x0, x)
    requires after == before + Emit(f)
    ensures after == prefix + RowFragments(v1, v2, v3, lib, y, x0, x + 1)
  {
    RowStep(v1, v2, v3, lib, y, x0, x);
  }

  lemma RowStep(v1: Vertex, v2: Vertex, v3: Vertex, lib: Library, y: int, x0: int, x: int)
    requires x0 <= x
    ensures RowFragments(v1, v2, v3, lib, y, x0, x + 1)
         == RowFragments(v1, v2, v3, lib, y, x0, x) + Emit(PixelFragment(v1, v2, v3, lib, x, y))
  {
  }

  lemma BoxStep(v1: Vertex, v2: Vertex, v3: Vertex, lib: Library, r: Box, y: int)
    requires r.minY <= y
    ensures BoxFragments(v1, v2, v3, lib, r, y + 1)
         == BoxFragments(v1, v2, v3, lib, r, y) + RowFragments(v1, v2, v3, lib, y, r.minX, r.maxX + 1)
  {
  }

  // ---------------------------------------------------------------------------
  // The algebra of the weights

  /** Lagrange's identity in the plane: the Gram determinant is the squared cross product. */
  lemma Lagrange(x0: real, y0: real, x1: real, y1: real)
    ensures (x0 * x0 + y0 * y0) * (x1 * x1 + y1 * y1) - (x0 * x1 + y0 * y1) * (x0 * x1 + y0 * y1)
         == (x0 * y1 - y0 * x1) * (x0 * y1 - y0 * x1)
  {
  }

  /** The Binet-Cauchy identity in the plane. */
  lemma BinetCauchy(a1: real, a2: real, b1: real, b2: real, c1: real, c2: real, d1: real, d2: real)
    ensures (a1 * c1 + a2 * c2) * (b1 * d1 + b2 * d2) - (a1 * d1 + a2 * d2) * (b1 * c1 + b2 * c2)
         == (a1 * b2 - a2 * b1) * (c1 * d2 - c2 * d1)
  {
  }

  /** Cramer's rule in the plane, checked as a polynomial identity. */
  lemma CramerX(x0: real, y0: real, x1: real, y1: real, x2: real, y2: real)
    ensures (x2 * y1 - y2 * x1) * x0 + (x0 * y2 - y0 * x2) * x1 == (x0 * y1 - y0 * x1) * x2
    ensures (x2 * y1 - y2 * x1) * y0 + (x0 * y2 - y0 * x2) * y1 == (x0 * y1 - y0 * x1) * y2
  {
  }

  /** The cross products of a combination of the edge vectors. */
  lemma CrossOfCombination(x0: real, y0: real, x1: real, y1: real, s: real, t: real)
    ensures (s * x0 + t * x1) * y1 - (s * y0 + t * y1) * x1 == s * (x0 * y1 - y0 * x1)
    ensures x0 * (s * y0 + t * y1) - y0 * (s * x0 + t * x1) == t * (x0 * y1 - y0 * x1)
  {
  }

  lemma DivCancel(n: real, c: real)
    requires c != 0.0
    ensures (n * c) * (1.0 / (c * c)) == n / c
  {
    assert (n * c) * (1.0 / (c * c)) == (n * c) / (c * c);
  }

  lemma DivCombine(p: real, q: real, c: real, u: real, v: real)
    requires c != 0.0
    ensures (p / c) * u + (q / c) * v == (p * u + q * v) / c
  {
  }

  lemma NonNegCombination(w1: real, w2: real, w3: real, d1: real, d2: real, d3: real)
    requires 0.0 <= w1 && 0.0 <= w2 && 0.0 <= w3 && 0.0 <= d1 && 0.0 <= d2 && 0.0 <= d3
    ensures 0.0 <= w1 * d1 + w2 * d2 + w3 * d3
  {
    assert 0.0 <= w1 * d1;
    assert 0.0 <= w2 * d2;
    assert 0.0 <= w3 * d3;
  }

  lemma ShiftCombination(w1: real, w2: real, w3: real, p: real, q: real, r: real, k: real)
    requires w1 + w2 + w3 == 1.0
    ensures w1 * p + w2 * q + w3 * r - k == w1 * (p - k) + w2 * (q - k) + w3 * (r - k)
  {
  }

  lemma Between(w1: real, w2: real, w3: real, p: real, q: real, r: real, lo: real, hi: real)
    requires 0.0 <= w1 && 0.0 <= w2 && 0.0 <= w3 && w1 + w2 + w3 == 1.0
    requires lo <= p <= hi && lo <= q <= hi && lo <= r <= hi
    ensures lo <= w1 * p + w2 * q + w3 * r <= hi
  {
    ShiftCombination(w1, w2, w3, p, q, r, lo);
    NonNegCombination(w1, w2, w3, p - lo, q - lo, r - lo);
    ShiftCombination(w1, w2, w3, p, q, r, hi);
    NonNegCombination(w1, w2, w3, hi - p, hi - q, hi - r);
  }

  /** The dot products the rasterizer forms, in terms of the edge vectors
      v0 = (x0, y0), v1 = (x1, y1) and the sample offset v2 = (x2, y2): its
      determinant and its two numerators are products of cross products. */
  lemma GramDeterminant(x0: real, y0: real, x1: real, y1: real, d00: real, d01: real, d11: real, cr: real)
    requires d00 == x0 * x0 + y0 * y0 && d01 == x0 * x1 + y0 * y1 && d11 == x1 * x1 + y1 * y1
    requires cr == x0 * y1 - y0 * x1
    ensures d00 * d11 - d01 * d01 == cr * cr
  {
    Lagrange(x0, y0, x1, y1);
  }

  lemma GramNumerator2(x0: real, y0: real, x1: real, y1: real, x2: real, y2: real,
                       d01: real, d11: real, d20: real, d21: real, cr: real, c21: real)
    requires d01 == x0 * x1 + y0 * y1 && d11 == x1 * x1 + y1 * y1
    requires d20 == x2 * x0 + y2 * y0 && d21 == x2 * x1 + y2 * y1
    requires cr == x0 * y1 - y0 * x1 && c21 == x2 * y1 - y2 * x1
    ensures d11 * d20 - d01 * d21 == c21 * cr
  {
  }

  lemma GramNumerator3(x0: real, y0: real, x1: real, y1: real, x2: real, y2: real,
                       d00: real, d01: real, d20: real, d21: real, cr: real, c02: real)
    requires d00 == x0 * x0 + y0 * y0 && d01 == x0 * x1 + y0 * y1
    requires d20 == x2 * x0 + y2 * y0 && d21 == x2 * x1 + y2 * y1
    requires cr == x0 * y1 - y0 * x1 && c02 == x0 * y2 - y0 * x2
    ensures d00 * d21 - d01 * d20 == c02 * cr
  {
  }

  lemma SquareNonnegative(c: real)
    ensures c * c >= 0.0
  {
  }

  lemma SquareNonzero(c: real)
    requires c != 0.0
    ensures c * c != 0.0
  {
  }

  lemma SquareOfZero(c: real)
    requires c == 0.0
    ensures c * c == 0.0
  {
  }

  /** A product the solver has to see through is stepped through with calc:
      each step is checked on its own and the chain is closed by transitivity. */
  lemma SquareZero(d: real, c: real)
    requires d == c * c
    ensures d >= 0.0
    ensures d == 0.0 <==> c == 0.0
  {
    calc {
      d;
    ==
      c * c;
    >=  { SquareNonnegative(c); }
      0.0;
    }
    if c != 0.0 {
      calc {
        d;
      ==
        c * c;
      !=  { SquareNonzero(c); }
        0.0;
      }
    } else {
      calc {
        d;
      ==
        c * c;
      ==  { SquareOfZero(c); }
        0.0;
      }
    }
  }

  /** The last step of Cramer's rule: the quotients the rasterizer forms
      reduce to the numerators' cross products over the signed area. */
  lemma CramerQuotients(den: real, n2: real, n3: real, cr: real, c21: real, c02: real, s: real, t: real)
    requires den == cr * cr && n2 == c21 * cr && n3 == c02 * cr
    requires !(Abs(den) < DegenerateEpsilon)
    requires s == n2 * (1.0 / den) && t == n3 * (1.0 / den)
    ensures cr != 0.0 && s == c21 / cr && t == c02 / cr
  {
    SquareZero(den, cr);
    DivCancel(c21, cr);
    DivCancel(c02, cr);
  }

  /** The determinant the rasterizer tests is the square of twice the signed
      area, so it is never negative and it vanishes exactly on collinear vertices. */
  lemma DenominatorIsSquaredCross(a: Vec3, b: Vec3, c: Vec3)
    ensures Denominator(a, b, c) == Cross(a, b, c) * Cross(a, b, c)
    ensures Denominator(a, b, c) >= 0.0
    ensures Denominator(a, b, c) == 0.0 <==> Cross(a, b, c) == 0.0
  {
    var v0, v1 := PlanarOffset(a, b), PlanarOffset(a, c);
    PlanarDot(a, b, b);
    PlanarDot(a, b, c);
    PlanarDot(a, c, c);
    GramDeterminant(b.x - a.x, b.y - a.y, c.x - a.x, c.y - a.y, Dot3(v0, v0), Dot3(v0, v1), Dot3(v1, v1), Cross(a, b, c));
    SquareZero(Denominator(a, b, c), Cross(a, b, c));
  }

  /** The dot product of two planar offsets from the same point. */
  lemma PlanarDot(a: Vec3, b: Vec3, c: Vec3)
    ensures Dot3(PlanarOffset(a, b), PlanarOffset(a, c)) == (b.x - a.x) * (c.x - a.x) + (b.y - a.y) * (c.y - a.y)
  {
  }

  /** Cramer's numerators: cross products of the sample offset with the edges. */
  function CrossW2(p: Vec3, a: Vec3, c: Vec3): real {
    (p.x - a.x) * (c.y - a.y) - (p.y - a.y) * (c.x - a.x)
  }

  function CrossW3(p: Vec3, a: Vec3, b: Vec3): real {
    (b.x - a.x) * (p.y - a.y) - (b.y - a.y) * (p.x - a.x)
  }

  /** The rasterizer's two numerators are the Cramer numerators times twice
      the signed area. */
  lemma NumeratorsAreCrosses(p: Vec3, a: Vec3, b: Vec3, c: Vec3)
    ensures Numerator2(p, a, b, c) == CrossW2(p, a, c) * Cross(a, b, c)
    ensures Numerator3(p, a, b, c) == CrossW3(p, a, b) * Cross(a, b, c)
  {
    NumeratorW2(p, a, b, c);
    NumeratorW3(p, a, b, c);
  }

  lemma NumeratorW2(p: Vec3, a: Vec3, b: Vec3, c: Vec3)
    ensures Numerator2(p, a, b, c) == CrossW2(p, a, c) * Cross(a, b, c)
  {
    var v0, v1, v2 := PlanarOffset(a, b), PlanarOffset(a, c), PlanarOffset(a, p);
    PlanarDot(a, b, c);
    PlanarDot(a, c, c);
    PlanarDot(a, p, b);
    PlanarDot(a, p, c);
    GramNumerator2(b.x - a.x, b.y - a.y, c.x - a.x, c.y - a.y, p.x - a.x, p.y - a.y,
      Dot3(v0, v1), Dot3(v1, v1), Dot3(v2, v0), Dot3(v2, v1), Cross(a, b, c), CrossW2(p, a, c));
  }

  lemma NumeratorW3(p: Vec3, a: Vec3, b: Vec3, c: Vec3)
    ensures Numerator3(p, a, b, c) == CrossW3(p, a, b) * Cross(a, b, c)
  {
    var v0, v1, v2 := PlanarOffset(a, b), PlanarOffset(a, c), PlanarOffset(a, p);
    PlanarDot(a, b, b);
    PlanarDot(a, b, c);
    PlanarDot(a, p, b);
    PlanarDot(a, p, c);
    GramNumerator3(b.x - a.x, b.y - a.y, c.x - a.x, c.y - a.y, p.x - a.x, p.y - a.y,
      Dot3(v0, v0), Dot3(v0, v1), Dot3(v2, v0), Dot3(v2, v1), Cross(a, b, c), CrossW3(p, a, b));
  }

  lemma BarycentricSome(p: Vec3, a: Vec3, b: Vec3, c: Vec3)
    requires Barycentric(p, a, b, c).Some?
    ensures !(Abs(Denominator(a, b, c)) < DegenerateEpsilon)
    ensures var w := Barycentric(p, a, b, c).value;
      && w.w2 == Numerator2(p, a, b, c) * (1.0 / Denominator(a, b, c))
      && w.w3 == Numerator3(p, a, b, c) * (1.0 / Denominator(a, b, c))
      && w.w1 == 1.0 - w.w2 - w.w3
  {
  }

  /** When weights are returned they are Cramer's rule for p - a over the two
      edge vectors. */
  lemma SolvedWeights(p: Vec3, a: Vec3, b: Vec3, c: Vec3)
    requires Barycentric(p, a, b, c).Some?
    ensures Cross(a, b, c) != 0.0
    ensures Barycentric(p, a, b, c).value.w2 == CrossW2(p, a, c) / Cross(a, b, c)
    ensures Barycentric(p, a, b, c).value.w3 == CrossW3(p, a, b) / Cross(a, b, c)
    ensures Barycentric(p, a, b, c).value.w1 == 1.0 - Barycentric(p, a, b, c).value.w2 - Barycentric(p, a, b, c).value.w3
  {
    var w := Barycentric(p, a, b, c).value;
    BarycentricSome(p, a, b, c);
    DenominatorIsSquaredCross(a, b, c);
    NumeratorsAreCrosses(p, a, b, c);
    CramerQuotients(Denominator(a, b, c), Numerator2(p, a, b, c), Numerator3(p, a, b, c),
                    Cross(a, b, c), CrossW2(p, a, c), CrossW3(p, a, b), w.w2, w.w3);
  }

  /** Whenever weights are returned they sum to exactly 1 (so the 0.001
      tolerance test always passes) and they reproduce the sample point. */
  lemma WeightsReproducePoint(p: Vec3, a: Vec3, b: Vec3, c: Vec3)
    requires Barycentric(p, a, b, c).Some?
    ensures var w := Barycentric(p, a, b, c).value;
      w.w1 + w.w2 + w.w3 == 1.0 && Abs(w.w1 + w.w2 + w.w3 - 1.0) < SumTolerance && Reproduces(w, a, b, c, p)
  {
    SolvedWeights(p, a, b, c);
    var w := Barycentric(p, a, b, c).value;
    var cr, c21, c02 := Cross(a, b, c), CrossW2(p, a, c), CrossW3(p, a, b);
    CramerPlane(b.x - a.x, b.y - a.y, c.x - a.x, c.y - a.y, p.x - a.x, p.y - a.y, cr, c21, c02, w.w2, w.w3);
  }

  /** Cramer's rule in the plane: the solved coefficients recombine the edges
      into the offset. */
  lemma CramerPlane(x0: real, y0: real, x1: real, y1: real, x2: real, y2: real,
                    cr: real, c21: real, c02: real, s: real, t: real)
    requires cr == x0 * y1 - y0 * x1 && c21 == x2 * y1 - y2 * x1 && c02 == x0 * y2 - y0 * x2
    requires cr != 0.0 && s == c21 / cr && t == c02 / cr
    ensures s * x0 + t * x1 == x2 && s * y0 + t * y1 == y2
  {
    CramerX(x0, y0, x1, y1, x2, y2);
    DivCombine(c21, c02, cr, x0, x1);
    DivCombine(c21, c02, cr, y0, y1);
  }

  /** The converse of CramerPlane: coefficients that recombine the edges into
      the offset are the solved ones. */
  lemma CramerUnique(x0: real, y0: real, x1: real, y1: real, x2: real, y2: real,
                     cr: real, c21: real, c02: real, s: real, t: real)
    requires cr == x0 * y1 - y0 * x1 && c21 == x2 * y1 - y2 * x1 && c02 == x0 * y2 - y0 * x2
    requires cr != 0.0 && s * x0 + t * x1 == x2 && s * y0 + t * y1 == y2
    ensures s == c21 / cr && t == c02 / cr
  {
    CrossOfCombination(x0, y0, x1, y1, s, t);
    assert c21 == s * cr && c02 == t * cr;
  }

  /** Weights summing to 1 that blend to `q` give `q` as an offset from the
      first vertex along the other two edges. */
  lemma BlendOffset(w: Weights, p: real, q: real, r: real, t: real)
    requires w.w1 + w.w2 + w.w3 == 1.0 && Blend(w, p, q, r) == t
    ensures t - p == w.w2 * (q - p) + w.w3 * (r - p)
  {
    calc {
      w.w2 * (q - p) + w.w3 * (r - p);
      w.w2 * q + w.w3 * r - (w.w2 + w.w3) * p;
      w.w2 * q + w.w3 * r - (1.0 - w.w1) * p;
      w.w1 * p + w.w2 * q + w.w3 * r - p;
      t - p;
    }
  }

  /** Weights are unique: on a triangle the rasterizer does not reject as
      degenerate, any weights summing to 1 that reproduce `p` are the ones it
      returns. */
  lemma WeightsUnique(p: Vec3, a: Vec3, b: Vec3, c: Vec3, w: Weights)
    requires Abs(Denominator(a, b, c)) >= DegenerateEpsilon
    requires w.w1 + w.w2 + w.w3 == 1.0 && Reproduces(w, a, b, c, p)
    ensures Barycentric(p, a, b, c) == Some(w)
  {
    assert Barycentric(p, a, b, c).Some?;
    SolvedWeights(p, a, b, c);
    var r := Barycentric(p, a, b, c).value;
    var cr, c21, c02 := Cross(a, b, c), CrossW2(p, a, c), CrossW3(p, a, b);
    BlendOffset(w, a.x, b.x, c.x, p.x);
    BlendOffset(w, a.y, b.y, c.y, p.y);
    CramerUnique(b.x - a.x, b.y - a.y, c.x - a.x, c.y - a.y, p.x - a.x, p.y - a.y, cr, c21, c02, w.w2, w.w3);
  }

  /** Sampling at a vertex gives that vertex's unit weight. */
  lemma VertexWeights(a: Vec3, b: Vec3, c: Vec3)
    requires Abs(Denominator(a, b, c)) >= DegenerateEpsilon
    ensures Barycentric(a, a, b, c) == Some(Weights(1.0, 0.0, 0.0))
    ensures Barycentric(b, a, b, c) == Some(Weights(0.0, 1.0, 0.0))
    ensures Barycentric(c, a, b, c) == Some(Weights(0.0, 0.0, 1.0))
  {
    WeightsUnique(a, a, b, c, Weights(1.0, 0.0, 0.0));
    WeightsUnique(b, a, b, c, Weights(0.0, 1.0, 0.0));
    WeightsUnique(c, a, b, c, Weights(0.0, 0.0, 1.0));
  }

  /** Collinear vertices never yield weights. */
  lemma CollinearGivesNoWeights(p: Vec3, a: Vec3, b: Vec3, c: Vec3)
    requires Cross(a, b, c) == 0.0
    ensures Barycentric(p, a, b, c) == None
  {
    DenominatorIsSquaredCross(a, b, c);
  }

  /** A weighted average with convex weights lies between the least and the
      greatest of the three values. */
  lemma ConvexBounds(w: Weights, p: real, q: real, r: real)
    requires Convex(w)
    ensures Min3(p, q, r) <= Blend(w, p, q, r) <= Max3(p, q, r)
  {
    var lo, hi := Min3(p, q, r), Max3(p, q, r);
    Between(w.w1, w.w2, w.w3, p, q, r, lo, hi);
    calc {
      lo;
    <=
      w.w1 * p + w.w2 * q + w.w3 * r;
    ==
      Blend(w, p, q, r);
    }
    calc {
      Blend(w, p, q, r);
    ==
      w.w1 * p + w.w2 * q + w.w3 * r;
    <=
      hi;
    }
  }

  // ---------------------------------------------------------------------------
  // One pixel

  /** A pixel yields a fragment only where its centre lies in the triangle; the
      fragment then sits at that pixel, is white, has a non-negative intensity,
      and its depth lies between the least and the greatest vertex depth. */
  lemma PixelFragmentFacts(v1: Vertex, v2: Vertex, v3: Vertex, lib: Library, x: int, y: int)
    requires PixelFragment(v1, v2, v3, lib, x, y).Some?
    ensures var f := PixelFragment(v1, v2, v3, lib, x, y).value;
      var a, b, c := v1.transformedPosition, v2.transformedPosition, v3.transformedPosition;
      && f.position == Vec2(x as real, y as real)
      && f.color == White
      && f.intensity >= 0.0
      && Min3(a.z, b.z, c.z) <= f.depth <= Max3(a.z, b.z, c.z)
      && Covers(a, b, c, Centre(x, y))
  {
    var a, b, c := v1.transformedPosition, v2.transformedPosition, v3.transformedPosition;
    var w := Barycentric(Centre(x, y), a, b, c).value;
    WeightsReproducePoint(Centre(x, y), a, b, c);
    assert Convex(w) && Reproduces(w, a, b, c, Centre(x, y));
    ConvexBounds(w, a.z, b.z, c.z);
  }

  /** Conversely, on a non-degenerate triangle every pixel whose centre lies in
      the closed triangle yields a fragment, whose depth and object-space
      position are the affine combinations of the vertices' with the pixel's
      exact weights; the position is not renormalized. */
  lemma CoveredPixelYieldsFragment(v1: Vertex, v2: Vertex, v3: Vertex, lib: Library, x: int, y: int, w: Weights)
    requires Abs(Denominator(v1.transformedPosition, v2.transformedPosition, v3.transformedPosition)) >= DegenerateEpsilon
    requires Convex(w) && Reproduces(w, v1.transformedPosition, v2.transformedPosition, v3.transformedPosition, Centre(x, y))
    ensures PixelFragment(v1, v2, v3, lib, x, y).Some?
    ensures var f := PixelFragment(v1, v2, v3, lib, x, y).value;
      && f.depth == Blend(w, v1.transformedPosition.z, v2.transformedPosition.z, v3.transformedPosition.z)
      && f.vertexPosition == Interpolate(v1.position, v2.position, v3.position, w)
  {
    WeightsUnique(Centre(x, y), v1.transformedPosition, v2.transformedPosition, v3.transformedPosition, w);
  }

  /** The depth at the midpoint of an edge is the mean of its endpoints' depths. */
  lemma MidpointDepth(v1: Vertex, v2: Vertex, v3: Vertex, lib: Library, x: int, y: int)
    requires Abs(Denominator(v1.transformedPosition, v2.transformedPosition, v3.transformedPosition)) >= DegenerateEpsilon
    requires 2.0 * (x as real + 0.5) == v1.transformedPosition.x + v2.transformedPosition.x
    requires 2.0 * (y as real + 0.5) == v1.transformedPosition.y + v2.transformedPosition.y
    ensures PixelFragment(v1, v2, v3, lib, x, y).Some?
    ensures PixelFragment(v1, v2, v3, lib, x, y).value.depth == (v1.transformedPosition.z + v2.transformedPosition.z) / 2.0
  {
    CoveredPixelYieldsFragment(v1, v2, v3, lib, x, y, Weights(0.5, 0.5, 0.0));
  }

  // ---------------------------------------------------------------------------
  // The whole scan

  /** Pixel (x, y) was scanned and gave the fragment `f`. */
  predicate FromPixel(v1: Vertex, v2: Vertex, v3: Vertex, lib: Library, f: Fragment, x: int, y: int) {
    f.position == Vec2(x as real, y as real) && PixelFragment(v1, v2, v3, lib, x, y) == Some(f)
  }

  /** `p` comes strictly before `q` in row-major order. */
  predicate Before(p: Vec2, q: Vec2) {
    p.y < q.y || (p.y == q.y && p.x < q.x)
  }

  predicate RowMajor(s: seq<Fragment>) {
    forall i, j :: 0 <= i < j < |s| ==> Before(s[i].position, s[j].position)
  }

  lemma {:induction false} RowSound(v1: Vertex, v2: Vertex, v3: Vertex, lib: Library, y: int, x0: int, x: int, f: Fragment)
    requires f in RowFragments(v1, v2, v3, lib, y, x0, x)
    ensures x0 <= f.position.x.Floor < x && FromPixel(v1, v2, v3, lib, f, f.position.x.Floor, y)
    decreases x - x0
  {
    if x > x0 {
      if f in RowFragments(v1, v2, v3, lib, y, x0, x - 1) {
        RowSound(v1, v2, v3, lib, y, x0, x - 1, f);
      } else {
        assert f == PixelFragment(v1, v2, v3, lib, x - 1, y).value;
        assert f.position.x.Floor == x - 1;
      }
    }
  }

  lemma {:induction false} BoxSound(v1: Vertex, v2: Vertex, v3: Vertex, lib: Library, r: Box, y: int, f: Fragment)
    requires f in BoxFragments(v1, v2, v3, lib, r, y)
    ensures r.minY <= f.position.y.Floor < y && r.minX <= f.position.x.Floor <= r.maxX
    ensures FromPixel(v1, v2, v3, lib, f, f.position.x.Floor, f.position.y.Floor)
    decreases y - r.minY
  {
    if y > r.minY {
      if f in BoxFragments(v1, v2, v3, lib, r, y - 1) {
        BoxSound(v1, v2, v3, lib, r, y - 1, f);
      } else {
        RowSound(v1, v2, v3, lib, y - 1, r.minX, r.maxX + 1, f);
        assert f.position.y.Floor == y - 1;
      }
    }
  }

  /** Every fragment of `triangle` comes from a pixel of the bounding box: its
      coordinates are that pixel's whole numbers, and all of PixelFragmentFacts
      holds of it. */
  lemma RasterizeSound(v1: Vertex, v2: Vertex, v3: Vertex, lib: Library, f: Fragment)
    requires f in Rasterize(v1, v2, v3, lib)
    ensures var r := TriangleBox(v1, v2, v3);
      var x, y := f.position.x.Floor, f.position.y.Floor;
      var a, b, c := v1.transformedPosition, v2.transformedPosition, v3.transformedPosition;
      && r.minX <= x <= r.maxX && r.minY <= y <= r.maxY
      && FromPixel(v1, v2, v3, lib, f, x, y)
      && f.color == White && f.intensity >= 0.0
      && Min3(a.z, b.z, c.z) <= f.depth <= Max3(a.z, b.z, c.z)
      && Covers(a, b, c, Centre(x, y))
  {
    var r := TriangleBox(v1, v2, v3);
    BoxSound(v1, v2, v3, lib, r, r.maxY + 1, f);
    PixelFragmentFacts(v1, v2, v3, lib, f.position.x.Floor, f.position.y.Floor);
  }

  lemma RowMajorConcat(s: seq<Fragment>, t: seq<Fragment>)
    requires RowMajor(s) && RowMajor(t)
    requires forall f, g :: f in s && g in t ==> Before(f.position, g.position)
    ensures RowMajor(s + t)
  {
    forall i, j | 0 <= i < j < |s + t| ensures Before((s + t)[i].position, (s + t)[j].position) {
      if j < |s| {
      } else if i >= |s| {
        assert (s + t)[i] == t[i - |s|] && (s + t)[j] == t[j - |s|];
      } else {
        assert (s + t)[i] == s[i] && (s + t)[j] == t[j - |s|];
        assert s[i] in s && t[j - |s|] in t;
      }
    }
  }

  lemma {:induction false} RowIsRowMajor(v1: Vertex, v2: Vertex, v3: Vertex, lib: Library, y: int, x0: int, x: int)
    ensures RowMajor(RowFragments(v1, v2, v3, lib, y, x0, x))
    decreases x - x0
  {
    if x > x0 {
      var s := RowFragments(v1, v2, v3, lib, y, x0, x - 1);
      var t := Emit(PixelFragment(v1, v2, v3, lib, x - 1, y));
      RowIsRowMajor(v1, v2, v3, lib, y, x0, x - 1);
      forall f, g | f in s && g in t ensures Before(f.position, g.position) {
        RowSound(v1, v2, v3, lib, y, x0, x - 1, f);
      }
      RowMajorConcat(s, t);
    }
  }

  lemma {:induction false} BoxIsRowMajor(v1: Vertex, v2: Vertex, v3: Vertex, lib: Library, r: Box, y: int)
    ensures RowMajor(BoxFragments(v1, v2, v3, lib, r, y))
    decreases y - r.minY
  {
    if y > r.minY {
      var s := BoxFragments(v1, v2, v3, lib, r, y - 1);
      var t := RowFragments(v1, v2, v3, lib, y - 1, r.minX, r.maxX + 1);
      BoxIsRowMajor(v1, v2, v3, lib, r, y - 1);
      RowIsRowMajor(v1, v2, v3, lib, y - 1, r.minX, r.maxX + 1);
      forall f, g | f in s && g in t ensures Before(f.position, g.position) {
        BoxSound(v1, v2, v3, lib, r, y - 1, f);
        RowSound(v1, v2, v3, lib, y - 1, r.minX, r.maxX + 1, g);
      }
      RowMajorConcat(s, t);
    }
  }

  /** Fragments come out row-major: y ascending, and x ascending within a row;
      in particular no pixel is emitted twice. */
  lemma RasterizeRowMajor(v1: Vertex, v2: Vertex, v3: Vertex, lib: Library, i: int, j: int)
    requires 0 <= i < j < |Rasterize(v1, v2, v3, lib)|
    ensures Before(Rasterize(v1, v2, v3, lib)[i].position, Rasterize(v1, v2, v3, lib)[j].position)
  {
    var r := TriangleBox(v1, v2, v3);
    BoxIsRowMajor(v1, v2, v3, lib, r, r.maxY + 1);
  }

  lemma {:induction false} RowComplete(v1: Vertex, v2: Vertex, v3: Vertex, lib: Library, y: int, x0: int, x: int, px: int)
    requires x0 <= px < x && PixelFragment(v1, v2, v3, lib, px, y).Some?
    ensures PixelFragment(v1, v2, v3, lib, px, y).value in RowFragments(v1, v2, v3, lib, y, x0, x)
    decreases x - x0
  {
    if px < x - 1 {
      RowComplete(v1, v2, v3, lib, y, x0, x - 1, px);
    }
  }

  lemma {:induction false} BoxComplete(v1: Vertex, v2: Vertex, v3: Vertex, lib: Library, r: Box, y: int, px: int, py: int)
    requires r.minX <= px <= r.maxX && r.minY <= py < y && PixelFragment(v1, v2, v3, lib, px, py).Some?
    ensures PixelFragment(v1, v2, v3, lib, px, py).value in BoxFragments(v1, v2, v3, lib, r, y)
    decreases y - r.minY
  {
    if py < y - 1 {
      BoxComplete(v1, v2, v3, lib, r, y - 1, px, py);
    } else {
      RowComplete(v1, v2, v3, lib, py, r.minX, r.maxX + 1, px);
    }
  }

  /** On a non-degenerate triangle whose vertices fit in i32, every pixel whose
      centre lies in the closed triangle is emitted by `triangle`. */
  lemma RasterizeComplete(v1: Vertex, v2: Vertex, v3: Vertex, lib: Library, x: int, y: int, w: Weights)
    requires FitsI32(v1.transformedPosition) && FitsI32(v2.transformedPosition) && FitsI32(v3.transformedPosition)
    requires Abs(Denominator(v1.transformedPosition, v2.transformedPosition, v3.transformedPosition)) >= DegenerateEpsilon
    requires Convex(w) && Reproduces(w, v1.transformedPosition, v2.transformedPosition, v3.transformedPosition, Centre(x, y))
    ensures PixelFragment(v1, v2, v3, lib, x, y).Some?
    ensures PixelFragment(v1, v2, v3, lib, x, y).value in Rasterize(v1, v2, v3, lib)
  {
    CoveredPixelYieldsFragment(v1, v2, v3, lib, x, y, w);
    var r := TriangleBox(v1, v2, v3);
    CentreInBox(v1.transformedPosition, v2.transformedPosition, v3.transformedPosition, x, y, w);
    BoxComplete(v1, v2, v3, lib, r, r.maxY + 1, x, y);
  }

  /** A pixel whose centre is a convex combination of the vertices lies in
      their bounding box. */
  lemma CentreInBox(a: Vec3, b: Vec3, c: Vec3, x: int, y: int, w: Weights)
    requires FitsI32(a) && FitsI32(b) && FitsI32(c)
    requires Convex(w) && Reproduces(w, a, b, c, Centre(x, y))
    ensures var r := BoundingBox(a, b, c);
      r.minX <= x <= r.maxX && r.minY <= y <= r.maxY
  {
    ConvexBounds(w, a.x, b.x, c.x);
    ConvexBounds(w, a.y, b.y, c.y);
    CoordinateInRange(Min3(a.x, b.x, c.x), Max3(a.x, b.x, c.x), x);
    CoordinateInRange(Min3(a.y, b.y, c.y), Max3(a.y, b.y, c.y), y);
  }

  lemma CoordinateInRange(lo: real, hi: real, k: int)
    requires lo <= k as real + 0.5 <= hi
    ensures Floor(lo) <= k <= Ceil(hi)
  {
  }

  lemma {:induction false} DegenerateRow(v1: Vertex, v2: Vertex, v3: Vertex, lib: Library, y: int, x0: int, x: int)
    requires Cross(v1.transformedPosition, v2.transformedPosition, v3.transformedPosition) == 0.0
    ensures RowFragments(v1, v2, v3, lib, y, x0, x) == []
    decreases x - x0
  {
    if x > x0 {
      DegenerateRow(v1, v2, v3, lib, y, x0, x - 1);
      CollinearGivesNoWeights(Centre(x - 1, y), v1.transformedPosition, v2.transformedPosition, v3.transformedPosition);
    }
  }

  lemma {:induction false} DegenerateBox(v1: Vertex, v2: Vertex, v3: Vertex, lib: Library, r: Box, y: int)
    requires Cross(v1.transformedPosition, v2.transformedPosition, v3.transformedPosition) == 0.0
    ensures BoxFragments(v1, v2, v3, lib, r, y) == []
    decreases y - r.minY
  {
    if y > r.minY {
      DegenerateBox(v1, v2, v3, lib, r, y - 1);
      DegenerateRow(v1, v2, v3, lib, y - 1, r.minX, r.maxX + 1);
    }
  }

  /** Three collinear screen-space vertices give no fragments at all. */
  lemma CollinearRasterizesNothing(v1: Vertex, v2: Vertex, v3: Vertex, lib: Library)
    requires Cross(v1.transformedPosition, v2.transformedPosition, v3.transformedPosition) == 0.0
    ensures Rasterize(v1, v2, v3, lib) == []
  {
    var r := TriangleBox(v1, v2, v3);
    DegenerateBox(v1, v2, v3, lib, r, r.maxY + 1);
  }
}
