/**
 Drawing lists of triangles: what the depth buffer holds afterwards, and exactly when the order of
 the list does not matter.
 */
module DepthOrder {
  import opened Raster

  // ---------------------------------------------------------------- triangle lists

  /** A pixel after a list of triangles, drawn in order. */
  function DrawList(pm: Params, ts: seq<Triangle>, x: int, y: int, c: Cell): Cell
    decreases |ts|
  {
    if ts == [] then c else DrawPixel(pm, ts[|ts| - 1], x, y, DrawList(pm, ts[..|ts| - 1], x, y, c))
  }

  /** The triangle loop of ctx_Draw. */
  method DrawTriangles(pm: Params, ts: seq<Triangle>, w: nat, h: nat, pixels: array<int>, depth: array<real>)
    requires pixels.Length == depth.Length == w * h
    modifies pixels, depth
    ensures forall i: nat | i < pixels.Length ::
      CellAt(pixels, depth, i) == DrawList(pm, ts, Col(w, i), Row(w, i), old(CellAt(pixels, depth, i)))
  {
    hide DrawPixel, Row, Col;
    for k := 0 to |ts|
      invariant forall i: nat | i < pixels.Length ::
        CellAt(pixels, depth, i) == DrawList(pm, ts[..k], Col(w, i), Row(w, i), old(CellAt(pixels, depth, i)))
    {
      RasterizeTriangle(pm, ts[k], w, h, pixels, depth);
      assert ts[..k + 1][..k] == ts[..k];
    }
    assert ts[..|ts|] == ts;
  }

  /** The fragments that a list contributes to a pixel, in order. */
  function Fragments(pm: Params, ts: seq<Triangle>, x: int, y: int): seq<Cell>
    decreases |ts|
  {
    if ts == [] then [] else
    Fragments(pm, ts[..|ts| - 1], x, y)
    + match Fragment(pm, ts[|ts| - 1], x, y) case None => [] case Some(f) => [f]
  }

  /** LESS with depth writes on fragments. */
  function Resolve(fs: seq<Cell>, c: Cell): Cell
    decreases |fs|
  {
    if fs == [] then c else
    var d := Resolve(fs[..|fs| - 1], c);
    if fs[|fs| - 1].depth < d.depth then fs[|fs| - 1] else d
  }

  predicate LessWithWrites(pm: Params)
  {
    pm.depthOn && pm.depthWrite && pm.compare == Less
  }

  lemma {:induction false} DrawListResolves(pm: Params, ts: seq<Triangle>, x: int, y: int, c: Cell)
    requires LessWithWrites(pm)
    ensures DrawList(pm, ts, x, y, c) == Resolve(Fragments(pm, ts, x, y), c)
    decreases |ts|
  {
    hide Fragment;
    if ts != [] {
      var rest := ts[..|ts| - 1];
      DrawListResolves(pm, rest, x, y, c);
      var fs := Fragments(pm, rest, x, y);
      match Fragment(pm, ts[|ts| - 1], x, y) {
        case None =>
          assert fs + [] == fs;
        case Some(f) =>
          assert (fs + [f])[..|fs|] == fs;
      }
    }
  }

  // ---------------------------------------------------------------- the minimum

  /** The pixel keeps its content unless a fragment is nearer, and then shows a nearest fragment. */
  lemma {:induction false} ResolveIsNearest(fs: seq<Cell>, c: Cell)
    ensures
      var r := Resolve(fs, c);
      && r.depth <= c.depth
      && (forall k | 0 <= k < |fs| :: r.depth <= fs[k].depth)
      && (r == c || (r in fs && r.depth < c.depth))
    decreases |fs|
  {
    if fs != [] {
      ResolveIsNearest(fs[..|fs| - 1], c);
      assert fs == fs[..|fs| - 1] + [fs[|fs| - 1]];
    }
  }

  /** After any list, a depth cell is the minimum of its old value and all covering fragments. */
  lemma DepthIsMinimum(pm: Params, ts: seq<Triangle>, x: int, y: int, c: Cell)
    requires LessWithWrites(pm)
    ensures
      var d := DrawList(pm, ts, x, y, c).depth;
      && d <= c.depth
      && (forall k | 0 <= k < |ts| && Covers(pm, ts[k], x, y) :: d <= Fragment(pm, ts[k], x, y).value.depth)
      && (d == c.depth || exists k | 0 <= k < |ts| :: Covers(pm, ts[k], x, y) && Fragment(pm, ts[k], x, y).value.depth == d)
  {
    hide Covers, DrawList, Resolve;
    DrawListResolves(pm, ts, x, y, c);
    var fs := Fragments(pm, ts, x, y);
    ResolveIsNearest(fs, c);
    forall k | 0 <= k < |ts| && Covers(pm, ts[k], x, y)
      ensures Fragment(pm, ts[k], x, y).value in fs
    {
      FragmentIsListed(pm, ts, x, y, k);
    }
    var r := Resolve(fs, c);
    if r in fs {
      var k := ListedIsFragment(pm, ts, x, y, r);
    }
  }

  lemma {:induction false} FragmentIsListed(pm: Params, ts: seq<Triangle>, x: int, y: int, k: nat)
    requires k < |ts| && Fragment(pm, ts[k], x, y).Some?
    ensures Fragment(pm, ts[k], x, y).value in Fragments(pm, ts, x, y)
    decreases |ts|
  {
    hide Fragment;
    if k < |ts| - 1 {
      FragmentIsListed(pm, ts[..|ts| - 1], x, y, k);
    }
  }

  lemma {:induction false} ListedIsFragment(pm: Params, ts: seq<Triangle>, x: int, y: int, f: Cell) returns (k: nat)
    requires f in Fragments(pm, ts, x, y)
    ensures k < |ts| && Fragment(pm, ts[k], x, y) == Some(f)
    decreases |ts|
  {
    hide Fragment;
    k := |ts| - 1;
    if Fragment(pm, ts[k], x, y) != Some(f) {
      k := ListedIsFragment(pm, ts[..k], x, y, f);
    }
  }

  // ---------------------------------------------------------------- order independence

  /** A fragment in front of the old content that no other is in front of. */
  ghost predicate Nearest(fs: seq<Cell>, c: Cell, f: Cell)
  {
    f in fs && f.depth < c.depth && forall k | 0 <= k < |fs| :: f.depth <= fs[k].depth
  }

  /** Fragments that tie for nearest have one colour. */
  ghost predicate Settled(fs: seq<Cell>, c: Cell)
  {
    forall f, g | Nearest(fs, c, f) && Nearest(fs, c, g) :: f.color == g.color
  }

  lemma SameElements(fs: seq<Cell>, gs: seq<Cell>, f: Cell)
    requires multiset(fs) == multiset(gs)
    ensures f in fs <==> f in gs
  {
    assert f in fs <==> f in multiset(fs);
    assert f in gs <==> f in multiset(gs);
  }

  lemma SettledIsEnough(fs: seq<Cell>, gs: seq<Cell>, c: Cell)
    requires multiset(fs) == multiset(gs) && Settled(fs, c)
    ensures Resolve(fs, c) == Resolve(gs, c)
  {
    hide Resolve;
    ResolveIsNearest(fs, c);
    ResolveIsNearest(gs, c);
    var r, s := Resolve(fs, c), Resolve(gs, c);
    SameElements(fs, gs, r);
    SameElements(fs, gs, s);
    assert r != c ==> Nearest(fs, c, r);
    assert s != c && r != c ==> Nearest(fs, c, s);
  }

  /** With a nearest fragment in front, that fragment is what remains. */
  lemma {:induction false} FirstNearestWins(f: Cell, fs: seq<Cell>, c: Cell)
    requires f.depth < c.depth && forall k | 0 <= k < |fs| :: f.depth <= fs[k].depth
    ensures Resolve([f] + fs, c) == f
    decreases |fs|
  {
    if fs == [] {
      assert ([f] + fs)[..0] == [];
    } else {
      FirstNearestWins(f, fs[..|fs| - 1], c);
      assert ([f] + fs)[..|fs|] == [f] + fs[..|fs| - 1];
    }
  }

  lemma {:induction false} FragmentsOfPermutation(pm: Params, ts: seq<Triangle>, us: seq<Triangle>, x: int, y: int)
    requires multiset(ts) == multiset(us)
    ensures multiset(Fragments(pm, ts, x, y)) == multiset(Fragments(pm, us, x, y))
    decreases |ts|
  {
    hide Fragments;
    if ts == [] {
      assert |us| == |multiset(us)| == |multiset(ts)|;
    } else {
      var n := |ts| - 1;
      var k := FindLast(ts, us);
      FragmentsOfPermutation(pm, ts[..n], us[..k] + us[k + 1..], x, y);
      FragmentsWithOne(pm, us[..k], ts[n], us[k + 1..], x, y);
      FragmentsWithOne(pm, ts[..n], ts[n], [], x, y);
      assert us == us[..k] + [ts[n]] + us[k + 1..];
      assert ts == ts[..n] + [ts[n]] + [] && ts[..n] + [] == ts[..n];
    }
  }

  /** Where a permutation has the last element, and that the rest is a permutation too. */
  lemma FindLast<T>(s: seq<T>, t: seq<T>) returns (k: nat)
    requires s != [] && multiset(s) == multiset(t)
    ensures k < |t| && t[k] == s[|s| - 1] && multiset(s[..|s| - 1]) == multiset(t[..k] + t[k + 1..])
  {
    var n := |s| - 1;
    assert s[n] in multiset(s);
    k :| 0 <= k < |t| && t[k] == s[n];
    RemoveOne(t, k);
    RemoveOne(s, n);
    assert s[..n] + s[n + 1..] == s[..n];
    Cancel(multiset(s[..n]), multiset(t[..k] + t[k + 1..]), s[n]);
  }

  lemma Cancel<T>(a: multiset<T>, b: multiset<T>, x: T)
    requires a + multiset{x} == b + multiset{x}
    ensures a == b
  {
    assert a == a + multiset{x} - multiset{x};
    assert b == b + multiset{x} - multiset{x};
  }

  lemma RemoveOne<T>(s: seq<T>, k: nat)
    requires k < |s|
    ensures multiset(s) == multiset(s[..k] + s[k + 1..]) + multiset{s[k]}
  {
    assert s == s[..k] + [s[k]] + s[k + 1..];
  }

  lemma FragmentsWithOne(pm: Params, a: seq<Triangle>, t: Triangle, b: seq<Triangle>, x: int, y: int)
    ensures multiset(Fragments(pm, a + [t] + b, x, y)) == multiset(Fragments(pm, a + b, x, y)) + multiset(Fragments(pm, [t], x, y))
  {
    hide Fragments;
    FragmentsAppend(pm, a + [t], b, x, y);
    FragmentsAppend(pm, a, [t], x, y);
    FragmentsAppend(pm, a, b, x, y);
  }

  lemma {:induction false} FragmentsAppend(pm: Params, a: seq<Triangle>, b: seq<Triangle>, x: int, y: int)
    ensures Fragments(pm, a + b, x, y) == Fragments(pm, a, x, y) + Fragments(pm, b, x, y)
    decreases |b|
  {
    hide Fragment;
    if b == [] {
      assert a + b == a;
    } else {
      FragmentsAppend(pm, a, b[..|b| - 1], x, y);
      assert (a + b)[..|a + b| - 1] == a + b[..|b| - 1];
    }
  }

  /** Any permutation of the triangles leaves the same depth and colour in a settled pixel. */
  lemma SettledPixel(pm: Params, ts: seq<Triangle>, us: seq<Triangle>, x: int, y: int, c: Cell)
    requires LessWithWrites(pm) && multiset(ts) == multiset(us) && Settled(Fragments(pm, ts, x, y), c)
    ensures DrawList(pm, ts, x, y, c) == DrawList(pm, us, x, y, c)
  {
    hide DrawList, Fragments, Settled, Resolve;
    DrawListResolves(pm, ts, x, y, c);
    DrawListResolves(pm, us, x, y, c);
    FragmentsOfPermutation(pm, ts, us, x, y);
    SettledIsEnough(Fragments(pm, ts, x, y), Fragments(pm, us, x, y), c);
  }

  /** A triangle with a nearest fragment can be drawn first, and then its fragment is what remains. */
  lemma DrawnFirst(pm: Params, ts: seq<Triangle>, x: int, y: int, c: Cell, f: Cell) returns (us: seq<Triangle>)
    requires LessWithWrites(pm) && Nearest(Fragments(pm, ts, x, y), c, f)
    ensures multiset(us) == multiset(ts) && DrawList(pm, us, x, y, c) == f
  {
    hide DrawList, Resolve, Fragment;
    var k := ListedIsFragment(pm, ts, x, y, f);
    var rest := ts[..k] + ts[k + 1..];
    us := [ts[k]] + rest;
    assert ts == ts[..k] + [ts[k]] + ts[k + 1..];
    var fs, gs := Fragments(pm, ts, x, y), Fragments(pm, rest, x, y);
    OneFragment(pm, ts[k], x, y, f);
    FragmentsAppend(pm, [ts[k]], rest, x, y);
    FragmentsOfPermutation(pm, us, ts, x, y);
    forall i | 0 <= i < |gs|
      ensures f.depth <= gs[i].depth
    {
      SameElements([f] + gs, fs, gs[i]);
      assert ([f] + gs)[i + 1] == gs[i];
    }
    FirstNearestWins(f, gs, c);
    DrawListResolves(pm, us, x, y, c);
  }

  lemma OneFragment(pm: Params, t: Triangle, x: int, y: int, f: Cell)
    requires Fragment(pm, t, x, y) == Some(f)
    ensures Fragments(pm, [t], x, y) == [f]
  {
    assert [t][..0] == [];
  }

  ghost predicate Reorders(us: seq<Triangle>, ts: seq<Triangle>)
  {
    multiset(us) == multiset(ts)
  }

  /** The order of a triangle list does not matter to a pixel if and only if the pixel is settled. */
  lemma DrawOrderExactly(pm: Params, ts: seq<Triangle>, x: int, y: int, c: Cell)
    requires LessWithWrites(pm)
    ensures Settled(Fragments(pm, ts, x, y), c)
       <==> forall us | Reorders(us, ts) :: DrawList(pm, us, x, y, c) == DrawList(pm, ts, x, y, c)
  {
    hide DrawList, Fragments, Nearest;
    var fs := Fragments(pm, ts, x, y);
    if Settled(fs, c) {
      forall us | Reorders(us, ts)
        ensures DrawList(pm, us, x, y, c) == DrawList(pm, ts, x, y, c)
      {
        SettledPixel(pm, ts, us, x, y, c);
      }
    } else {
      var f, g :| Nearest(fs, c, f) && Nearest(fs, c, g) && f.color != g.color;
      var us := DrawnFirst(pm, ts, x, y, c, f);
      var vs := DrawnFirst(pm, ts, x, y, c, g);
      assert Reorders(us, ts) && Reorders(vs, ts) && DrawList(pm, us, x, y, c) != DrawList(pm, vs, x, y, c);
    }
  }

  /** The target after drawing `us` is the same as after drawing `ts`, from content `was`. */
  ghost predicate SamePicture(pm: Params, us: seq<Triangle>, ts: seq<Triangle>, w: nat, h: nat, was: (int, int) -> Cell)
  {
    forall x, y | 0 <= x < w && 0 <= y < h :: DrawList(pm, us, x, y, was(x, y)) == DrawList(pm, ts, x, y, was(x, y))
  }

  /** Every order of the triangles gives the same picture if and only if every pixel of the target is settled. */
  lemma PictureOrderExactly(pm: Params, ts: seq<Triangle>, w: nat, h: nat, was: (int, int) -> Cell)
    requires LessWithWrites(pm)
    ensures (forall x, y | 0 <= x < w && 0 <= y < h :: Settled(Fragments(pm, ts, x, y), was(x, y)))
       <==> (forall us | Reorders(us, ts) :: SamePicture(pm, us, ts, w, h, was))
  {
    hide DrawList, Fragments, Settled, Reorders;
    forall x, y
      ensures Settled(Fragments(pm, ts, x, y), was(x, y))
         <==> forall us | Reorders(us, ts) :: DrawList(pm, us, x, y, was(x, y)) == DrawList(pm, ts, x, y, was(x, y))
    {
      DrawOrderExactly(pm, ts, x, y, was(x, y));
    }
    if forall us | Reorders(us, ts) :: SamePicture(pm, us, ts, w, h, was) {
      forall x, y | 0 <= x < w && 0 <= y < h
        ensures Settled(Fragments(pm, ts, x, y), was(x, y))
      {
        forall us | Reorders(us, ts)
          ensures DrawList(pm, us, x, y, was(x, y)) == DrawList(pm, ts, x, y, was(x, y))
        {
          assert SamePicture(pm, us, ts, w, h, was);
        }
      }
    }
  }
}
