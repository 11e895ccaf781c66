/**
 Which window a point on the screen belongs to: the search the pointer uses, and the order in which
 a frame is painted.
 */
module HitTest {
  import opened Desk

  predicate Covers(w: Window, px: int, py: int)
  {
    w.visible && w.x <= px < w.x + w.w && w.y <= py < w.y + w.h
  }

  predicate PanelOver(ws: seq<Window>, px: int, py: int, i: int)
  {
    0 <= i < |ws| && ws[i].panel && Covers(ws[i], px, py)
  }

  predicate PlainOver(ws: seq<Window>, px: int, py: int, i: int)
  {
    0 <= i < |ws| && !ws[i].panel && Covers(ws[i], px, py)
  }

  /** What the pointer search promises: the first panel over the point, else the last ordinary window, else -1. */
  ghost predicate IsHit(ws: seq<Window>, px: int, py: int, r: int)
  {
    if exists i :: PanelOver(ws, px, py, i) then
      PanelOver(ws, px, py, r) && forall i | PanelOver(ws, px, py, i) :: r <= i
    else if exists i :: PlainOver(ws, px, py, i) then
      PlainOver(ws, px, py, r) && forall i | PlainOver(ws, px, py, i) :: i <= r
    else r == -1
  }

  /** window_at_point. */
  method WindowAtPoint(ws: seq<Window>, px: int, py: int) returns (r: int)
    ensures IsHit(ws, px, py, r)
  {
    for i := 0 to |ws|
      invariant forall k | 0 <= k < i :: !PanelOver(ws, px, py, k)
    {
      var w := ws[i];
      if !w.visible || !w.panel {
        continue;
      }
      if px >= w.x && px < w.x + w.w && py >= w.y && py < w.y + w.h {
        assert PanelOver(ws, px, py, i);
        return i;
      }
    }
    for i := |ws| downto 0
      invariant forall k | i <= k < |ws| :: !PlainOver(ws, px, py, k)
    {
      var w := ws[i];
      if !w.visible || w.panel {
        continue;
      }
      if px >= w.x && px < w.x + w.w && py >= w.y && py < w.y + w.h {
        assert PlainOver(ws, px, py, i);
        return i;
      }
    }
    return -1;
  }

  // ---------------------------------------------------------------- painting

  /** The visible windows among the first `n` that are, or are not, panels, in list order. */
  function Layer(ws: seq<Window>, panel: bool, n: nat): seq<nat>
    requires n <= |ws|
  {
    if n == 0 then []
    else if ws[n - 1].panel == panel && ws[n - 1].visible then Layer(ws, panel, n - 1) + [n - 1]
    else Layer(ws, panel, n - 1)
  }

  /** render_frame: the windows in the order they are drawn. */
  method PaintOrder(ws: seq<Window>) returns (order: seq<nat>)
    ensures order == Layer(ws, false, |ws|) + Layer(ws, true, |ws|)
  {
    order := [];
    for i := 0 to |ws|
      invariant order == Layer(ws, false, i)
    {
      if ws[i].panel {
        continue;
      }
      if ws[i].visible {
        order := order + [i];
      }
    }
    for i := 0 to |ws|
      invariant order == Layer(ws, false, |ws|) + Layer(ws, true, i)
    {
      if !ws[i].panel {
        continue;
      }
      if ws[i].visible {
        order := order + [i];
      }
    }
  }

  /** The window of `order` whose rectangle is painted last over the point, or -1. */
  function PaintedLast(ws: seq<Window>, order: seq<nat>, px: int, py: int): int
  {
    if order == [] then -1
    else
      var i := order[|order| - 1];
      if i < |ws| && Covers(ws[i], px, py) then i else PaintedLast(ws, order[..|order| - 1], px, py)
  }

  lemma {:induction false} PaintedLastOfTwo(ws: seq<Window>, a: seq<nat>, b: seq<nat>, px: int, py: int)
    ensures PaintedLast(ws, a + b, px, py) ==
      if PaintedLast(ws, b, px, py) != -1 then PaintedLast(ws, b, px, py) else PaintedLast(ws, a, px, py)
  {
    if b == [] {
      assert a + b == a;
    } else {
      assert (a + b)[..|a + b| - 1] == a + b[..|b| - 1];
      PaintedLastOfTwo(ws, a, b[..|b| - 1], px, py);
    }
  }

  /** Within a layer the highest window over the point is painted last. */
  lemma {:induction false} PaintedLastOfLayer(ws: seq<Window>, panel: bool, n: nat, px: int, py: int)
    requires n <= |ws|
    ensures var r := PaintedLast(ws, Layer(ws, panel, n), px, py);
      && (r == -1 || (0 <= r < n && ws[r].panel == panel && Covers(ws[r], px, py)))
      && forall i | 0 <= i < n && ws[i].panel == panel && Covers(ws[i], px, py) :: i <= r
  {
    if n > 0 {
      PaintedLastOfLayer(ws, panel, n - 1, px, py);
      var l := Layer(ws, panel, n - 1);
      assert (l + [n - 1])[..|l|] == l;
    }
  }

  /** At most one visible panel covers the point. */
  ghost predicate OnePanel(ws: seq<Window>, px: int, py: int)
  {
    forall i, j | PanelOver(ws, px, py, i) && PanelOver(ws, px, py, j) :: i == j
  }

  /** The pointer finds the window painted last exactly when no two visible panels overlap at the point. */
  lemma HitIsPaintedLastExactly(ws: seq<Window>, px: int, py: int, r: int)
    requires IsHit(ws, px, py, r)
    ensures r == PaintedLast(ws, Layer(ws, false, |ws|) + Layer(ws, true, |ws|), px, py) <==> OnePanel(ws, px, py)
  {
    var plain, panels := Layer(ws, false, |ws|), Layer(ws, true, |ws|);
    PaintedLastOfTwo(ws, plain, panels, px, py);
    PaintedLastOfLayer(ws, false, |ws|, px, py);
    PaintedLastOfLayer(ws, true, |ws|, px, py);
    var p, q := PaintedLast(ws, panels, px, py), PaintedLast(ws, plain, px, py);
    assert p != -1 ==> PanelOver(ws, px, py, p);
    assert q != -1 ==> PlainOver(ws, px, py, q);
    assert forall i | PanelOver(ws, px, py, i) :: i <= p;
    assert forall i | PlainOver(ws, px, py, i) :: i <= q;
  }

  // ---------------------------------------------------------------- focus

  /** Where window `k` of the moved list came from. */
  function Origin(n: nat, i: nat, k: int): int
  {
    if k < i then k else if k < n - 1 then k + 1 else i
  }

  lemma MovedFrom(ws: seq<Window>, i: nat)
    requires i < |ws|
    ensures |Moved(ws, i)| == |ws|
    ensures forall k | 0 <= k < |ws| :: 0 <= Origin(|ws|, i, k) < |ws| && Moved(ws, i)[k] == ws[Origin(|ws|, i, k)]
  {
  }

  /** A focused window wins every one of its points that no panel covers. */
  lemma FocusedWins(ws: seq<Window>, i: nat, px: int, py: int, r: int)
    requires i < |ws| && !ws[i].panel && Covers(ws[i], px, py)
    requires forall k :: !PanelOver(ws, px, py, k)
    requires IsHit(Moved(ws, i), px, py, r)
    ensures r == |ws| - 1 && Moved(ws, i)[r] == ws[i]
  {
    MovedFrom(ws, i);
    var ms := Moved(ws, i);
    assert forall k | PanelOver(ms, px, py, k) :: PanelOver(ws, px, py, Origin(|ws|, i, k));
    assert PlainOver(ms, px, py, |ws| - 1);
  }

  /** Everywhere else the same window is hit before and after the focus. */
  lemma FocusKeepsOtherHits(ws: seq<Window>, i: nat, px: int, py: int, r: int, f: int)
    requires i < |ws| && !ws[i].panel
    requires !Covers(ws[i], px, py) || exists k :: PanelOver(ws, px, py, k)
    requires IsHit(ws, px, py, r) && IsHit(Moved(ws, i), px, py, f)
    ensures r == -1 <==> f == -1
    ensures f != -1 ==> 0 <= f < |ws| && Origin(|ws|, i, f) == r && Moved(ws, i)[f] == ws[r]
  {
    MovedFrom(ws, i);
    var ms := Moved(ws, i);
    var t := if r < i then r else r - 1;
    assert forall k | PanelOver(ms, px, py, k) :: PanelOver(ws, px, py, Origin(|ws|, i, k));
    assert forall k | PlainOver(ms, px, py, k) :: PlainOver(ws, px, py, Origin(|ws|, i, k));
    assert PanelOver(ws, px, py, r) ==> PanelOver(ms, px, py, t);
    assert PlainOver(ws, px, py, r) && r != i ==> PlainOver(ms, px, py, t);
    assert f != -1 ==> PanelOver(ms, px, py, f) || PlainOver(ms, px, py, f);
    assert r != -1 ==> PanelOver(ws, px, py, r) || PlainOver(ws, px, py, r);
  }
}
