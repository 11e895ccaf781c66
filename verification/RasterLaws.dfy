/**
 What coverage, weights and depth mean on the screen: a triangle covers the pixels whose centres lie
 in it, the weights place the centre among the corners, and depth is linear between them.
 */
module RasterLaws {
  import opened Raster
  import opened DepthOrder

  // ---------------------------------------------------------------- weights

  function Mix(w: Weights, a: real, b: real, c: real): real
  {
    w.w0 * a + w.w1 * b + w.w2 * c
  }

  /** The weights sum to one and mix the corners to the pixel centre. */
  ghost predicate Places(vp: Viewport, t: Triangle, w: Weights, x: int, y: int)
  {
    var s0, s1, s2 := Screen(vp, t.v0), Screen(vp, t.v1), Screen(vp, t.v2);
    && w.w0 + w.w1 + w.w2 == 1.0
    && Mix(w, s0.x, s1.x, s2.x) == x as real + 0.5
    && Mix(w, s0.y, s1.y, s2.y) == y as real + 0.5
  }

  lemma Normalise(w: Weights, area: real, a: real, b: real, c: real, p: real)
    requires area != 0.0 && Mul(w.w0, a) + Mul(w.w1, b) + Mul(w.w2, c) == Mul(area, p)
    ensures Mix(Weights(w.w0 * (1.0 / area), w.w1 * (1.0 / area), w.w2 * (1.0 / area)), a, b, c) == p
  {
    var inv := 1.0 / area;
    assert area * inv == 1.0;
    assert w.w0 * inv * a + w.w1 * inv * b + w.w2 * inv * c == inv * (w.w0 * a + w.w1 * b + w.w2 * c);
    assert inv * (area * p) == p;
  }

  lemma SumToOne(w: Weights, area: real)
    requires area != 0.0 && w.w0 + w.w1 + w.w2 == area
    ensures w.w0 * (1.0 / area) + w.w1 * (1.0 / area) + w.w2 * (1.0 / area) == 1.0
  {
    var inv := 1.0 / area;
    assert area * inv == 1.0;
    assert w.w0 * inv + w.w1 * inv + w.w2 * inv == (w.w0 + w.w1 + w.w2) * inv;
  }

  /** The barycentric weights of a pixel place its centre among the corners. */
  lemma WeightsPlace(vp: Viewport, t: Triangle, x: int, y: int)
    requires Area(vp, t) != 0.0
    ensures Places(vp, t, Barycentric(vp, t, x, y), x, y)
  {
    hide Screen, Edge, Mul, Mix;
    var s0, s1, s2 := Screen(vp, t.v0), Screen(vp, t.v1), Screen(vp, t.v2);
    var p := Center(x, y);
    var area, w := Area(vp, t), EdgeWeights(vp, t, p);
    WeightsSumToArea(s0, s1, s2, p);
    WeightsLocateX(s0, s1, s2, p);
    WeightsLocateY(s0, s1, s2, p);
    SumToOne(w, area);
    Normalise(w, area, s0.x, s1.x, s2.x, p.x);
    Normalise(w, area, s0.y, s1.y, s2.y, p.y);
    var b := Barycentric(vp, t, x, y);
    assert b == Weights(w.w0 * (1.0 / area), w.w1 * (1.0 / area), w.w2 * (1.0 / area));
    assert b.w0 + b.w1 + b.w2 == 1.0;
    assert Mix(b, s0.x, s1.x, s2.x) == p.x;
    assert Mix(b, s0.y, s1.y, s2.y) == p.y;
  }

  /** An edge function is the opposite corner's weight times the area. */
  lemma EdgeIsWeight(a: Point, b: Point, c: Point, p: Point, u: real, v: real, w: real)
    requires u + v + w == 1.0 && u * a.x + v * b.x + w * c.x == p.x && u * a.y + v * b.y + w * c.y == p.y
    ensures Edge(b, c, p) == u * Edge(a, b, c)
  {
    assert p.x == a.x * u + b.x * v + c.x * (1.0 - u - v);
    assert p.y == a.y * u + b.y * v + c.y * (1.0 - u - v);
  }

  lemma EdgeTurns(a: Point, b: Point, c: Point)
    ensures Edge(b, c, a) == Edge(a, b, c) && Edge(c, a, b) == Edge(a, b, c)
  {
  }

  /** No other weights do. */
  lemma WeightsAreUnique(vp: Viewport, t: Triangle, w: Weights, x: int, y: int)
    requires Area(vp, t) != 0.0 && Places(vp, t, w, x, y)
    ensures w == Barycentric(vp, t, x, y)
  {
    var s0, s1, s2 := Screen(vp, t.v0), Screen(vp, t.v1), Screen(vp, t.v2);
    hide Screen, Edge;
    var p, area := Center(x, y), Area(vp, t);
    EdgeTurns(s0, s1, s2);
    EdgeIsWeight(s0, s1, s2, p, w.w0, w.w1, w.w2);
    EdgeIsWeight(s1, s2, s0, p, w.w1, w.w2, w.w0);
    EdgeIsWeight(s2, s0, s1, p, w.w2, w.w0, w.w1);
    Undo(w.w0, area);
    Undo(w.w1, area);
    Undo(w.w2, area);
  }

  lemma Undo(u: real, area: real)
    requires area != 0.0
    ensures u * area * (1.0 / area) == u
  {
    assert area * (1.0 / area) == 1.0;
  }

  /** A triangle that is drawn covers exactly the pixels whose centres lie in it, its border included. */
  lemma CoveredExactly(pm: Params, t: Triangle, x: int, y: int)
    requires Drawn(pm, t)
    ensures Covers(pm, t, x, y)
       <==> exists w: Weights :: Places(pm.vp, t, w, x, y) && w.w0 >= 0.0 && w.w1 >= 0.0 && w.w2 >= 0.0
  {
    hide Screen, Edge, Mix;
    var b := Barycentric(pm.vp, t, x, y);
    WeightsPlace(pm.vp, t, x, y);
    if Covers(pm, t, x, y) {
      CoveredWeights(pm, t, x, y);
    }
    if w: Weights :| Places(pm.vp, t, w, x, y) && w.w0 >= 0.0 && w.w1 >= 0.0 && w.w2 >= 0.0 {
      WeightsAreUnique(pm.vp, t, w, x, y);
      var e, area := EdgeWeights(pm.vp, t, Center(x, y)), Area(pm.vp, t);
      SignBack(area, e.w0);
      SignBack(area, e.w1);
      SignBack(area, e.w2);
    }
  }

  lemma SignBack(area: real, e: real)
    requires area != 0.0 && e * (1.0 / area) >= 0.0
    ensures if area > 0.0 then e >= 0.0 else e <= 0.0
  {
    var q := e * (1.0 / area);
    assert area * (1.0 / area) == 1.0;
    assert e == q * area;
  }

  // ---------------------------------------------------------------- depth

  /** Where the corners lie on a plane over the screen, a fragment's depth is the plane's at the pixel centre. */
  lemma DepthOnPlane(vp: Viewport, t: Triangle, x: int, y: int, p: real, q: real, r: real)
    requires Area(vp, t) != 0.0
    requires t.v0.z == p * Screen(vp, t.v0).x + q * Screen(vp, t.v0).y + r
    requires t.v1.z == p * Screen(vp, t.v1).x + q * Screen(vp, t.v1).y + r
    requires t.v2.z == p * Screen(vp, t.v2).x + q * Screen(vp, t.v2).y + r
    ensures DepthOf(t, Barycentric(vp, t, x, y)) == p * (x as real + 0.5) + q * (y as real + 0.5) + r
  {
    WeightsPlace(vp, t, x, y);
    var s0, s1, s2, w := Screen(vp, t.v0), Screen(vp, t.v1), Screen(vp, t.v2), Barycentric(vp, t, x, y);
    hide Screen, Barycentric;
    PlaneMixes(w, s0, s1, s2, p, q, r);
  }

  lemma PlaneMixes(w: Weights, a: Point, b: Point, c: Point, p: real, q: real, r: real)
    requires w.w0 + w.w1 + w.w2 == 1.0
    ensures w.w0 * (p * a.x + q * a.y + r) + w.w1 * (p * b.x + q * b.y + r) + w.w2 * (p * c.x + q * c.y + r)
         == p * Mix(w, a.x, b.x, c.x) + q * Mix(w, a.y, b.y, c.y) + r
  {
    assert (w.w0 + w.w1 + w.w2) * r == r;
  }

  // ---------------------------------------------------------------- the viewport

  /** The corners of the device square go to the corners of the viewport, and midpoints to midpoints. */
  lemma ScreenCorners(vp: Viewport, z: real, a: Vertex, b: Vertex)
    ensures Screen(vp, Vertex(-1.0, 1.0, z)) == Point(vp.left, vp.top)
    ensures Screen(vp, Vertex(1.0, -1.0, z)) == Point(vp.left + vp.width, vp.top + vp.height)
    ensures
      var m, s, u := Screen(vp, Vertex((a.x + b.x) / 2.0, (a.y + b.y) / 2.0, z)), Screen(vp, a), Screen(vp, b);
      2.0 * m.x == s.x + u.x && 2.0 * m.y == s.y + u.y
  {
    assert (1.0 + 1.0) * 0.5 * vp.width == vp.width && (1.0 - (-1.0)) * 0.5 * vp.height == vp.height;
    Halfway(a.x + 1.0, b.x + 1.0, (a.x + b.x) / 2.0 + 1.0, vp.width);
    Halfway(1.0 - a.y, 1.0 - b.y, 1.0 - (a.y + b.y) / 2.0, vp.height);
  }

  lemma Halfway(a: real, b: real, m: real, k: real)
    requires 2.0 * m == a + b
    ensures 2.0 * (m * 0.5 * k) == a * 0.5 * k + b * 0.5 * k
  {
    var h := 0.5 * k;
    assert m * 0.5 * k == m * h && a * 0.5 * k == a * h && b * 0.5 * k == b * h;
    assert 2.0 * (m * h) == (a + b) * h;
  }

  // ---------------------------------------------------------------- culling

  function Mirrored(t: Triangle): Triangle
  {
    Triangle(t.v1, t.v0, t.v2, t.shade)
  }

  /** Exchanging two corners turns a triangle over. */
  lemma MirrorTurnsOver(vp: Viewport, t: Triangle)
    ensures Area(vp, Mirrored(t)) == -Area(vp, t)
  {
  }

  /** Culling draws exactly one side of a triangle that is not degenerate, and no culling both. */
  lemma OneSideIsCulled(pm: Params, t: Triangle)
    requires Abs(Area(pm.vp, t)) >= 0.001
    ensures pm.cull == CullNone ==> Drawn(pm, t) && Drawn(pm, Mirrored(t))
    ensures pm.cull != CullNone ==> Drawn(pm, t) != Drawn(pm, Mirrored(t))
  {
    hide Area;
    MirrorTurnsOver(pm.vp, t);
  }

  /** The front is the side whose corners run clockwise on the screen. */
  lemma ClockwiseIsFront(pm: Params, z: real, shade: (real, real, real) -> int)
    requires pm.vp.width >= 1.0 && pm.vp.height >= 1.0
    ensures
      var t := Triangle(Vertex(-1.0, 1.0, z), Vertex(1.0, 1.0, z), Vertex(-1.0, -1.0, z), shade);
      Area(pm.vp, t) == pm.vp.width * pm.vp.height && (Drawn(pm, t) <==> pm.cull != CullFront)
  {
    assert pm.vp.width * pm.vp.height >= 1.0;
  }

  // ---------------------------------------------------------------- the depth test

  /** The eight comparisons: four opposite pairs, and two that are each other seen from the other side. */
  lemma ComparisonLaws(a: real, b: real)
    ensures DepthCompare(Less, a, b) != DepthCompare(GreaterEqual, a, b)
    ensures DepthCompare(Greater, a, b) != DepthCompare(LessEqual, a, b)
    ensures DepthCompare(Equal, a, b) != DepthCompare(NotEqual, a, b)
    ensures DepthCompare(Always, a, b) && !DepthCompare(Never, a, b)
    ensures DepthCompare(Less, a, b) == DepthCompare(Greater, b, a)
    ensures DepthCompare(LessEqual, a, a) && DepthCompare(Equal, a, a) && !DepthCompare(Less, a, a)
    ensures DepthCompare(Equal, a, b) == DepthCompare(Equal, b, a)
    ensures DepthCompare(Less, a, a + 1.0) && DepthCompare(Equal, a, a + 0.0000009) && !DepthCompare(Equal, a, a + 0.000001)
  {
  }

  /** The colour of the last fragment, or the old colour where there is none. */
  function LastColor(fs: seq<Cell>, old_: int): int
  {
    if fs == [] then old_ else fs[|fs| - 1].color
  }

  /** Without depth test the last triangle over a pixel gives its colour, and its depth stays. */
  lemma {:induction false} PaintersOrder(pm: Params, ts: seq<Triangle>, x: int, y: int, c: Cell)
    requires !pm.depthOn
    ensures DrawList(pm, ts, x, y, c) == Cell(c.depth, LastColor(Fragments(pm, ts, x, y), c.color))
    decreases |ts|
  {
    hide Fragment;
    if ts != [] {
      PaintersOrder(pm, ts[..|ts| - 1], x, y, c);
    }
  }

  /** The fragments that pass the test against a fixed depth. */
  function Passing(pm: Params, fs: seq<Cell>, depth: real): seq<Cell>
  {
    if fs == [] then [] else
    Passing(pm, fs[..|fs| - 1], depth) + if DepthCompare(pm.compare, fs[|fs| - 1].depth, depth) then [fs[|fs| - 1]] else []
  }

  /** With the test on and writes off, the last fragment that passes against the old depth gives the colour. */
  lemma {:induction false} ReadOnlyDepth(pm: Params, ts: seq<Triangle>, x: int, y: int, c: Cell)
    requires pm.depthOn && !pm.depthWrite
    ensures DrawList(pm, ts, x, y, c) == Cell(c.depth, LastColor(Passing(pm, Fragments(pm, ts, x, y), c.depth), c.color))
    decreases |ts|
  {
    hide Fragment, DepthCompare;
    if ts != [] {
      var init := ts[..|ts| - 1];
      ReadOnlyDepth(pm, init, x, y, c);
      var fs := Fragments(pm, init, x, y);
      match Fragment(pm, ts[|ts| - 1], x, y)
      case None => assert fs + [] == fs;
      case Some(f) => assert (fs + [f])[..|fs|] == fs;
    }
  }
}
