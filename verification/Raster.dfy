/**
 The software rasterizer of d3d11.c over real numbers: which pixels a triangle covers, what it
 leaves in each, and the clamped bounding-box scan that computes it.
 */
module Raster {

  datatype Vertex = Vertex(x: real, y: real, z: real)

  datatype Viewport = Viewport(left: real, top: real, width: real, height: real)

  datatype Comparison = Never | Less | Equal | LessEqual | Greater | NotEqual | GreaterEqual | Always

  datatype Cull = CullNone | CullFront | CullBack

  /** `shade` stands for interpolation, pixel shader or texture, and packing: a pixel from weights. */
  datatype Triangle = Triangle(v0: Vertex, v1: Vertex, v2: Vertex, shade: (real, real, real) -> int)

  datatype Params = Params(vp: Viewport, depthOn: bool, depthWrite: bool, compare: Comparison, cull: Cull)

  datatype Point = Point(x: real, y: real)

  // ---------------------------------------------------------------- coverage

  function Edge(a: Point, b: Point, p: Point): real
  {
    (b.x - a.x) * (p.y - a.y) - (b.y - a.y) * (p.x - a.x)
  }

  /** Normalised device coordinates to screen coordinates. */
  function Screen(vp: Viewport, v: Vertex): Point
  {
    Point(vp.left + (v.x + 1.0) * 0.5 * vp.width, vp.top + (1.0 - v.y) * 0.5 * vp.height)
  }

  function Area(vp: Viewport, t: Triangle): real
  {
    Edge(Screen(vp, t.v0), Screen(vp, t.v1), Screen(vp, t.v2))
  }

  function Abs(r: real): real
  {
    if r < 0.0 then -r else r
  }

  predicate Drawn(pm: Params, t: Triangle)
  {
    var area := Area(pm.vp, t);
    && Abs(area) >= 0.001
    && !(pm.cull == CullBack && area < 0.0)
    && !(pm.cull == CullFront && area > 0.0)
  }

  datatype Weights = Weights(w0: real, w1: real, w2: real)

  function Center(x: int, y: int): Point
  {
    Point(x as real + 0.5, y as real + 0.5)
  }

  function EdgeWeights(vp: Viewport, t: Triangle, p: Point): Weights
  {
    var s0, s1, s2 := Screen(vp, t.v0), Screen(vp, t.v1), Screen(vp, t.v2);
    Weights(Edge(s1, s2, p), Edge(s2, s0, p), Edge(s0, s1, p))
  }

  predicate Inside(area: real, w: Weights)
  {
    if area > 0.0 then w.w0 >= 0.0 && w.w1 >= 0.0 && w.w2 >= 0.0
    else w.w0 <= 0.0 && w.w1 <= 0.0 && w.w2 <= 0.0
  }

  predicate Covers(pm: Params, t: Triangle, x: int, y: int)
  {
    Drawn(pm, t) && Inside(Area(pm.vp, t), EdgeWeights(pm.vp, t, Center(x, y)))
  }

  function Barycentric(vp: Viewport, t: Triangle, x: int, y: int): Weights
    requires Area(vp, t) != 0.0
  {
    var w := EdgeWeights(vp, t, Center(x, y));
    var inv := 1.0 / Area(vp, t);
    Weights(w.w0 * inv, w.w1 * inv, w.w2 * inv)
  }

  // ---------------------------------------------------------------- one pixel

  function DepthCompare(f: Comparison, src: real, dst: real): bool
  {
    match f
    case Never => false
    case Less => src < dst
    case Equal => Abs(src - dst) < 0.000001
    case LessEqual => src <= dst
    case Greater => src > dst
    case NotEqual => Abs(src - dst) >= 0.000001
    case GreaterEqual => src >= dst
    case Always => true
  }

  datatype Cell = Cell(depth: real, color: int)

  datatype Option<+T> = None | Some(value: T)

  function DepthOf(t: Triangle, b: Weights): real
  {
    b.w0 * t.v0.z + b.w1 * t.v1.z + b.w2 * t.v2.z
  }

  /** The depth and colour that a triangle contributes to a pixel it covers. */
  function Fragment(pm: Params, t: Triangle, x: int, y: int): Option<Cell>
  {
    if !Covers(pm, t, x, y) then None else
    var b := Barycentric(pm.vp, t, x, y);
    Some(Cell(DepthOf(t, b), t.shade(b.w0, b.w1, b.w2)))
  }

  /** What a fragment makes of a pixel. */
  function Merge(pm: Params, f: Option<Cell>, c: Cell): Cell
  {
    if f.None? then c
    else if !pm.depthOn then c.(color := f.value.color)
    else if !DepthCompare(pm.compare, f.value.depth, c.depth) then c
    else Cell(if pm.depthWrite then f.value.depth else c.depth, f.value.color)
  }

  function DrawPixel(pm: Params, t: Triangle, x: int, y: int, c: Cell): Cell
  {
    Merge(pm, Fragment(pm, t, x, y), c)
  }

  // ---------------------------------------------------------------- geometry

  lemma WeightsSumToArea(a: Point, b: Point, c: Point, p: Point)
    ensures Edge(b, c, p) + Edge(c, a, p) + Edge(a, b, p) == Edge(a, b, c)
  {
  }

  /** Products by name, so that proofs about sums of them can treat them as units. */
  function Mul(a: real, b: real): real
  {
    a * b
  }

  lemma WeightsLocateX(a: Point, b: Point, c: Point, p: Point)
    ensures Mul(Edge(b, c, p), a.x) + Mul(Edge(c, a, p), b.x) + Mul(Edge(a, b, p), c.x) == Mul(Edge(a, b, c), p.x)
  {
  }

  lemma WeightsLocateY(a: Point, b: Point, c: Point, p: Point)
    ensures Mul(Edge(b, c, p), a.y) + Mul(Edge(c, a, p), b.y) + Mul(Edge(a, b, p), c.y) == Mul(Edge(a, b, c), p.y)
  {
  }

  /** A weighted mean lies between bounds of its values. */
  lemma MeanIsBounded(w: Weights, area: real, a: real, b: real, c: real, p: real, lo: real, hi: real)
    requires area != 0.0 && Inside(area, w) && w.w0 + w.w1 + w.w2 == area
    requires Mul(w.w0, a) + Mul(w.w1, b) + Mul(w.w2, c) == Mul(area, p)
    requires lo <= a <= hi && lo <= b <= hi && lo <= c <= hi
    ensures lo <= p <= hi
  {
    hide Mul;
    Scaled(w.w0, area, a, lo, hi);
    Scaled(w.w1, area, b, lo, hi);
    Scaled(w.w2, area, c, lo, hi);
    Distribute(w, area, lo);
    Distribute(w, area, hi);
    Unscale(area, lo, p);
    Unscale(area, p, hi);
  }

  lemma Distribute(w: Weights, area: real, v: real)
    requires w.w0 + w.w1 + w.w2 == area
    ensures Mul(w.w0, v) + Mul(w.w1, v) + Mul(w.w2, v) == Mul(area, v)
  {
  }

  lemma Scaled(w: real, area: real, v: real, lo: real, hi: real)
    requires (area > 0.0 && w >= 0.0) || (area < 0.0 && w <= 0.0)
    requires lo <= v <= hi
    ensures if area > 0.0 then Mul(w, lo) <= Mul(w, v) <= Mul(w, hi) else Mul(w, hi) <= Mul(w, v) <= Mul(w, lo)
  {
  }

  lemma Unscale(area: real, u: real, v: real)
    requires area > 0.0 ==> Mul(area, u) <= Mul(area, v)
    requires area < 0.0 ==> Mul(area, v) <= Mul(area, u)
    requires area != 0.0
    ensures u <= v
  {
    assert Mul(area, v - u) == Mul(area, v) - Mul(area, u);
  }

  function Min3(a: real, b: real, c: real): (m: real)
    ensures m <= a && m <= b && m <= c && (m == a || m == b || m == c)
  {
    if b < a then (if c < b then c else b) else (if c < a then c else a)
  }

  function Max3(a: real, b: real, c: real): (m: real)
    ensures m >= a && m >= b && m >= c && (m == a || m == b || m == c)
  {
    if b > a then (if c > b then c else b) else (if c > a then c else a)
  }

  function Ceil(r: real): (c: int)
    ensures (c as real) - 1.0 < r <= c as real
  {
    -((-r).Floor)
  }

  /** Covered pixels lie in the bounding box of the triangle. */
  lemma CoveredIsInBox(pm: Params, t: Triangle, x: int, y: int)
    requires Covers(pm, t, x, y)
    ensures
      var s0, s1, s2 := Screen(pm.vp, t.v0), Screen(pm.vp, t.v1), Screen(pm.vp, t.v2);
      && Min3(s0.x, s1.x, s2.x).Floor <= x <= Ceil(Max3(s0.x, s1.x, s2.x))
      && Min3(s0.y, s1.y, s2.y).Floor <= y <= Ceil(Max3(s0.y, s1.y, s2.y))
  {
    hide Screen, Edge, Mul, Min3, Max3, Ceil;
    var s0, s1, s2 := Screen(pm.vp, t.v0), Screen(pm.vp, t.v1), Screen(pm.vp, t.v2);
    var p := Center(x, y);
    var area, w := Area(pm.vp, t), EdgeWeights(pm.vp, t, p);
    WeightsSumToArea(s0, s1, s2, p);
    WeightsLocateX(s0, s1, s2, p);
    WeightsLocateY(s0, s1, s2, p);
    MeanIsBounded(w, area, s0.x, s1.x, s2.x, p.x, Min3(s0.x, s1.x, s2.x), Max3(s0.x, s1.x, s2.x));
    MeanIsBounded(w, area, s0.y, s1.y, s2.y, p.y, Min3(s0.y, s1.y, s2.y), Max3(s0.y, s1.y, s2.y));
  }

  /** The weights of a covered pixel are a convex combination. */
  lemma CoveredWeights(pm: Params, t: Triangle, x: int, y: int)
    requires Covers(pm, t, x, y)
    ensures
      var b := Barycentric(pm.vp, t, x, y);
      b.w0 >= 0.0 && b.w1 >= 0.0 && b.w2 >= 0.0 && b.w0 + b.w1 + b.w2 == 1.0
  {
    hide Screen, Edge;
    var s0, s1, s2 := Screen(pm.vp, t.v0), Screen(pm.vp, t.v1), Screen(pm.vp, t.v2);
    WeightsSumToArea(s0, s1, s2, Center(x, y));
    var area, w := Area(pm.vp, t), EdgeWeights(pm.vp, t, Center(x, y));
    var inv := 1.0 / area;
    assert area * inv == 1.0;
    assert w.w0 * inv + w.w1 * inv + w.w2 * inv == (w.w0 + w.w1 + w.w2) * inv;
    SameSign(area, w.w0);
    SameSign(area, w.w1);
    SameSign(area, w.w2);
  }

  lemma SameSign(area: real, w: real)
    requires (area > 0.0 && w >= 0.0) || (area < 0.0 && w <= 0.0)
    ensures w * (1.0 / area) >= 0.0
  {
    var inv := 1.0 / area;
    assert area * inv == 1.0;
    if area > 0.0 {
      assert inv > 0.0;
    } else {
      assert inv < 0.0;
    }
  }

  // ---------------------------------------------------------------- the scan

  ghost function CellAt(pixels: array<int>, depth: array<real>, i: nat): Cell
    reads pixels, depth
    requires i < pixels.Length && i < depth.Length
  {
    Cell(depth[i], pixels[i])
  }

  function Col(w: nat, i: nat): nat
  {
    if w == 0 then 0 else i % w
  }

  function Row(w: nat, i: nat): nat
  {
    if w == 0 then 0 else i / w
  }

  lemma Position(w: nat, h: nat, x: nat, y: nat)
    requires x < w && y < h
    ensures y * w + x < w * h && Row(w, y * w + x) == y && Col(w, y * w + x) == x
  {
    Multiples(y + 1, h, w);
    var i := y * w + x;
    var q := i / w;
    assert i == q * w + i % w;
    Multiples(q + 1, y, w);
    Multiples(y + 1, q, w);
  }

  lemma PositionOf(w: nat, h: nat, i: nat)
    requires i < w * h
    ensures Col(w, i) < w && Row(w, i) < h && i == Row(w, i) * w + Col(w, i)
  {
    assert w > 0;
    assert i == (i / w) * w + i % w;
    Multiples(h, i / w, w);
  }

  lemma Multiples(a: int, b: int, w: nat)
    ensures a <= b ==> a * w <= b * w
    ensures a * w == (a - 1) * w + w
  {
  }

  /** The body of the pixel loop of rasterize_triangle. */
  method DrawAt(pm: Params, t: Triangle, area: real, x: int, y: int, i: nat, pixels: array<int>, depth: array<real>)
    requires Drawn(pm, t) && area == Area(pm.vp, t) && i < pixels.Length && i < depth.Length
    modifies pixels, depth
    ensures CellAt(pixels, depth, i) == DrawPixel(pm, t, x, y, old(CellAt(pixels, depth, i)))
    ensures forall k: nat | k < pixels.Length && k < depth.Length && k != i ::
      CellAt(pixels, depth, k) == old(CellAt(pixels, depth, k))
  {
    hide Edge, Screen, Barycentric, DepthOf;
    var w := EdgeWeights(pm.vp, t, Center(x, y));
    if !Inside(area, w) {
      return;
    }
    var b := Barycentric(pm.vp, t, x, y);
    if pm.depthOn {
      var z := DepthOf(t, b);
      if !DepthCompare(pm.compare, z, depth[i]) {
        return;
      }
      if pm.depthWrite {
        depth[i] := z;
      }
    }
    pixels[i] := t.shade(b.w0, b.w1, b.w2);
  }

  datatype Box = Box(left: int, right: int, top: int, bottom: int)

  predicate InBox(b: Box, x: int, y: int)
  {
    b.left <= x <= b.right && b.top <= y <= b.bottom
  }

  /** Pixels of the box in rows above `y`, and in row `y` left of `x`. */
  predicate Scanned(b: Box, w: nat, i: nat, x: int, y: int)
  {
    InBox(b, Col(w, i), Row(w, i)) && (Row(w, i) < y || (Row(w, i) == y && Col(w, i) < x))
  }

  /** The two nested loops over the clamped box. */
  method ScanBox(pm: Params, t: Triangle, b: Box, w: nat, h: nat, pixels: array<int>, depth: array<real>)
    requires pixels.Length == depth.Length == w * h && Drawn(pm, t)
    requires 0 <= b.left && b.right < w && 0 <= b.top && b.bottom < h
    modifies pixels, depth
    ensures forall i: nat | i < pixels.Length ::
      var c := old(CellAt(pixels, depth, i));
      CellAt(pixels, depth, i) == if InBox(b, Col(w, i), Row(w, i)) then DrawPixel(pm, t, Col(w, i), Row(w, i), c) else c
  {
    hide Area, DrawPixel, Drawn, Row, Col;
    var y := b.top;
    while y <= b.bottom
      invariant b.top <= y
      invariant forall i: nat | i < pixels.Length ::
        var c := old(CellAt(pixels, depth, i));
        CellAt(pixels, depth, i) == if Scanned(b, w, i, b.left, y) then DrawPixel(pm, t, Col(w, i), Row(w, i), c) else c
      decreases b.bottom - y
    {
      var x := b.left;
      while x <= b.right
        invariant b.left <= x
        invariant forall i: nat | i < pixels.Length ::
          var c := old(CellAt(pixels, depth, i));
          CellAt(pixels, depth, i) == if Scanned(b, w, i, x, y) then DrawPixel(pm, t, Col(w, i), Row(w, i), c) else c
        decreases b.right - x
      {
        var i := y * w + x;
        Position(w, h, x, y);
        OnePosition(w, h, x, y);
        DrawAt(pm, t, Area(pm.vp, t), x, y, i, pixels, depth);
        x := x + 1;
      }
      y := y + 1;
    }
    forall i: nat | i < pixels.Length
      ensures Row(w, i) < h
    {
      PositionOf(w, h, i);
    }
  }

  lemma OnePosition(w: nat, h: nat, x: nat, y: nat)
    requires x < w && y < h
    ensures forall k: nat | k < w * h && Col(w, k) == x && Row(w, k) == y :: k == y * w + x
  {
    hide Row, Col;
    forall k: nat | k < w * h && Col(w, k) == x && Row(w, k) == y
      ensures k == y * w + x
    {
      PositionOf(w, h, k);
    }
  }

  /** The bounding box of the triangle on the target. */
  function ClampedBox(vp: Viewport, t: Triangle, w: nat, h: nat): Box
  {
    var s0, s1, s2 := Screen(vp, t.v0), Screen(vp, t.v1), Screen(vp, t.v2);
    var left, right := Min3(s0.x, s1.x, s2.x).Floor, Ceil(Max3(s0.x, s1.x, s2.x));
    var top, bottom := Min3(s0.y, s1.y, s2.y).Floor, Ceil(Max3(s0.y, s1.y, s2.y));
    Box(if left < 0 then 0 else left, if right >= w then w - 1 else right,
        if top < 0 then 0 else top, if bottom >= h then h - 1 else bottom)
  }

  /**
   rasterize_triangle: the scan of the clamped bounding box leaves every pixel of the target as a
   scan of the whole target would.
   */
  method RasterizeTriangle(pm: Params, t: Triangle, w: nat, h: nat, pixels: array<int>, depth: array<real>)
    requires pixels.Length == depth.Length == w * h
    modifies pixels, depth
    ensures forall i: nat | i < pixels.Length ::
      CellAt(pixels, depth, i) == DrawPixel(pm, t, Col(w, i), Row(w, i), old(CellAt(pixels, depth, i)))
  {
    hide Area, DrawPixel, Drawn, Row, Col, ClampedBox;
    BoxIsOnTarget(pm.vp, t, w, h);
    var b := ClampedBox(pm.vp, t, w, h);
    if Drawn(pm, t) {
      ScanBox(pm, t, b, w, h, pixels, depth);
    }
    forall i: nat, c: Cell | i < w * h && !(Drawn(pm, t) && InBox(b, Col(w, i), Row(w, i)))
      ensures DrawPixel(pm, t, Col(w, i), Row(w, i), c) == c
    {
      OutsideUnchanged(pm, t, w, h, i, c);
    }
  }

  lemma BoxIsOnTarget(vp: Viewport, t: Triangle, w: nat, h: nat)
    ensures var b := ClampedBox(vp, t, w, h); 0 <= b.left && b.right < w && 0 <= b.top && b.bottom < h
  {
    hide Screen;
  }

  /** A pixel outside the box, or of a triangle that is not drawn, keeps what it holds. */
  lemma OutsideUnchanged(pm: Params, t: Triangle, w: nat, h: nat, i: nat, c: Cell)
    requires i < w * h
    requires !(Drawn(pm, t) && InBox(ClampedBox(pm.vp, t, w, h), Col(w, i), Row(w, i)))
    ensures DrawPixel(pm, t, Col(w, i), Row(w, i), c) == c
  {
    hide Screen, Inside, Area;
    PositionOf(w, h, i);
    if Covers(pm, t, Col(w, i), Row(w, i)) {
      CoveredIsInBox(pm, t, Col(w, i), Row(w, i));
    }
  }
}
