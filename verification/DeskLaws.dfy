/** What each request of the display protocol achieves, told by the window that its surface shows. */
module DeskLaws {
  import opened Desk
  import opened HitTest

  /** A surface slot is free, and there is a window to reuse or room for one more. */
  ghost predicate Room(d: Desk)
  {
    && (exists s | 0 <= s < |d.surfaces| :: !d.surfaces[s].active)
    && (|d.windows| < MAX_WINDOWS || exists i | 0 <= i < MAX_WINDOWS :: !d.windows[i].visible && d.windows[i].surface < 0)
  }

  /** The window over exactly the points of a rectangle. */
  ghost predicate Fills(w: Window, left: int, top: int, width: int, height: int)
  {
    forall px, py :: Covers(w, px, py) <==> left <= px < left + width && top <= py < top + height
  }

  /** Everything but surface `s` and window `i` is as it was; a window may have been added. */
  ghost predicate OnlyTouched(d: Desk, e: Desk, s: int, i: int)
  {
    && |e.surfaces| == |d.surfaces| && |d.windows| <= |e.windows|
    && (forall k | 0 <= k < |d.surfaces| && k != s :: e.surfaces[k] == d.surfaces[k])
    && (forall k | 0 <= k < |d.windows| && k != i :: e.windows[k] == d.windows[k])
    && e.connected == d.connected
  }

  /** CREATE_SURFACE gives the client a window for its content and the title bar above it, exactly when there is room. */
  lemma CreateOutcome(d: Desk, c: nat, x: int, y: int, w: int, h: int) returns (s: int, i: int)
    requires |d.windows| <= MAX_WINDOWS
    ensures var e := Created(d, c, x, y, w, h);
      if Room(d) then
        && OnlyTouched(d, e, s, i) && 0 <= s < |e.surfaces| && 0 <= i < |e.windows| <= MAX_WINDOWS
        && !d.surfaces[s].active && e.surfaces[s].active && e.surfaces[s].client == c && e.surfaces[s].window == i
        && (i < |d.windows| ==> |e.windows| == |d.windows| && !d.windows[i].visible && d.windows[i].surface < 0)
        && e.windows[i].surface == s && !e.windows[i].panel && Fills(e.windows[i], x, y, w, h + TITLEBAR_H)
      else e == d
  {
    s, i := FreeSurface(d.surfaces, 0), FreeWindow(d.windows, 0);
  }

  /** DESTROY_SURFACE takes the window off the screen and touches nothing else. */
  lemma DestroyOutcome(d: Desk, id: nat, px: int, py: int)
    requires Linked(d) && Names(d, id)
    ensures var e := Destroyed(d, id); var i := d.surfaces[id - 1].window;
      && OnlyTouched(d, e, id - 1, i) && |e.windows| == |d.windows| && !e.surfaces[id - 1].active && !Covers(e.windows[i], px, py)
      && e.windows[i].(visible := true) == d.windows[i].(visible := true)
  {
    assert LinkedAt(d, id - 1);
  }

  /**
   RAISE_SURFACE puts the surface's window, restored, on top. The others keep their order, and every
   active surface goes on showing the window it showed.
   */
  lemma RaiseOutcome(d: Desk, id: nat)
    requires Linked(d) && Names(d, id)
    ensures var e := Raised(d, id); var i := d.surfaces[id - 1].window; var n := |d.windows|;
      && 0 <= i < n && |e.windows| == n && |e.surfaces| == |d.surfaces| && e.connected == d.connected
      && e.windows[n - 1] == d.windows[i].(visible := true, minimized := false)
      && (forall k | 0 <= k < n - 1 :: e.windows[k] == d.windows[Origin(n, i, k)])
      && e.surfaces[id - 1].window == n - 1
      && forall s | 0 <= s < |d.surfaces| :: e.surfaces[s].(window := 0) == d.surfaces[s].(window := 0)
  {
    assert LinkedAt(d, id - 1);
    var i := d.surfaces[id - 1].window;
    MovedFrom(Shown(d.windows, i), i);
  }

  lemma RaiseKeepsOthers(d: Desk, id: nat, s: nat)
    requires Linked(d) && Names(d, id) && s < |d.surfaces| && d.surfaces[s].active && s != id - 1
    ensures var e := Raised(d, id);
      && |e.surfaces| == |d.surfaces| && 0 <= d.surfaces[s].window < |d.windows| && 0 <= e.surfaces[s].window < |e.windows|
      && e.windows[e.surfaces[s].window] == d.windows[d.surfaces[s].window]
  {
    assert LinkedAt(d, id - 1) && LinkedAt(d, s);
    var i := d.surfaces[id - 1].window;
    MovedFrom(Shown(d.windows, i), i);
  }

  /** A raised ordinary window is the one under the pointer at each of its points that no panel covers. */
  lemma RaisedIsHit(d: Desk, id: nat, px: int, py: int, r: int)
    requires Linked(d) && Names(d, id) && !d.windows[WindowOf(d, id)].panel
    requires var w := d.windows[WindowOf(d, id)]; w.x <= px < w.x + w.w && w.y <= py < w.y + w.h
    requires forall k :: !PanelOver(d.windows, px, py, k)
    requires IsHit(Raised(d, id).windows, px, py, r)
    ensures 0 <= r < |Raised(d, id).windows| && Raised(d, id).windows[r].id == d.surfaces[id - 1].made
  {
    RaiseOutcome(d, id);
    assert LinkedAt(d, id - 1);
    var e, n, i := Raised(d, id), |d.windows|, d.surfaces[id - 1].window;
    assert forall k | PanelOver(e.windows, px, py, k) :: k == n - 1 || PanelOver(d.windows, px, py, Origin(n, i, k));
    assert PlainOver(e.windows, px, py, n - 1);
  }

  function WindowOf(d: Desk, id: nat): (r: nat)
    requires Linked(d) && Names(d, id)
    ensures r == d.surfaces[id - 1].window && r < |d.windows|
  {
    assert LinkedAt(d, id - 1);
    d.surfaces[id - 1].window
  }

  /** Raising undoes minimizing, and raising again changes nothing. */
  lemma RaiseRestores(d: Desk, id: nat)
    requires Linked(d) && Names(d, id)
    ensures Raised(Minimized(d, WindowOf(d, id)), id) == Raised(d, id)
    ensures Raised(Raised(d, id), id) == Raised(d, id)
  {
    assert LinkedAt(d, id - 1);
    var i := WindowOf(d, id);
    assert Shown(Minimized(d, i).windows, i) == Shown(d.windows, i);
    RaiseOutcome(d, id);
    var e := Raised(d, id);
    assert Shown(e.windows, |e.windows| - 1) == e.windows;
  }

  /** A minimized window is under no point; nothing but its two flags changes. */
  lemma MinimizeOutcome(d: Desk, i: nat, px: int, py: int)
    requires i < |d.windows|
    ensures var e := Minimized(d, i);
      && OnlyTouched(d, e, -1, i) && |e.windows| == |d.windows|
      && !Covers(e.windows[i], px, py) && e.windows[i].minimized
      && e.windows[i].(visible := true, minimized := false) == d.windows[i].(visible := true, minimized := false)
  {
    assert OnlyTouched(d, Minimized(d, i), -1, i);
  }

  /** SET_PANEL stretches the window along the bottom edge of the screen; it keeps its place and its visibility. */
  lemma PanelOutcome(d: Desk, id: nat, screenW: int, screenH: int, h: int)
    requires Linked(d) && Names(d, id)
    ensures var e := Panelled(d, id, screenW, screenH, h); var i := WindowOf(d, id);
      && OnlyTouched(d, e, -1, i) && |e.windows| == |d.windows|
      && e.windows[i].panel && e.windows[i].visible == d.windows[i].visible && e.windows[i].surface == id - 1
      && (d.windows[i].visible ==> Fills(e.windows[i], 0, screenH - h, screenW, h))
  {
    assert LinkedAt(d, id - 1);
    assert OnlyTouched(d, Panelled(d, id, screenW, screenH, h), -1, WindowOf(d, id));
  }

  /** A client that leaves takes its surfaces and their windows along; everyone else's stay as they were. */
  lemma LeaveOutcome(d: Desk, c: nat, s: nat)
    requires Linked(d) && c < |d.connected| && s < |d.surfaces|
    ensures var e := Disconnected(d, c); var f := d.surfaces[s];
      && |e.windows| == |d.windows| && |e.surfaces| == |d.surfaces| && e.connected == d.connected[c := false]
      && (f.active && f.client == c ==> !e.surfaces[s].active)
      && (f.active && f.client == c ==> e.windows[f.window] == d.windows[f.window].(visible := false, surface := -1))
      && (f.active && f.client != c ==> e.surfaces[s] == f && e.windows[f.window] == d.windows[f.window])
  {
    var f, n := d.surfaces[s], |d.surfaces|;
    DisconnectedKeepsLinks(d, c);
    SurfaceKept(d, c, n, s);
    if f.active {
      assert LinkedAt(d, s);
      ReleasedAt(d, c, n, f.window);
      assert Owns(d, c, n, f.window) <==> f.client == c by {
        forall k | 0 <= k < n && d.surfaces[k].active && d.surfaces[k].window == f.window
          ensures k == s
        {
          assert LinkedAt(d, k);
        }
      }
    }
  }

  lemma {:induction false} SurfaceKept(d: Desk, c: nat, n: nat, s: nat)
    requires n <= |d.surfaces| && s < |d.surfaces|
    ensures !(s < n && d.surfaces[s].client == c && d.surfaces[s].active) ==> Released(d, c, n).surfaces[s] == d.surfaces[s]
  {
    if n > 0 {
      SurfaceKept(d, c, n - 1, s);
    }
  }

  /** The close button on a surface's window disconnects its owner; on any window without one it only hides it. */
  lemma CloseOutcome(d: Desk, i: nat, px: int, py: int)
    requires Linked(d) && i < |d.windows|
    ensures var e := Closed(d, i);
      && (forall s | 0 <= s < |d.surfaces| && d.surfaces[s].active && d.surfaces[s].window == i ::
            e == Disconnected(d, d.surfaces[s].client) && !e.surfaces[s].active && !Covers(e.windows[i], px, py))
      && (d.windows[i].surface < 0 ==> OnlyTouched(d, e, -1, i) && !Covers(e.windows[i], px, py))
  {
    forall s | 0 <= s < |d.surfaces| && d.surfaces[s].active && d.surfaces[s].window == i
      ensures Closed(d, i) == Disconnected(d, d.surfaces[s].client) && !Closed(d, i).surfaces[s].active
      ensures |Closed(d, i).windows| == |d.windows| && !Covers(Closed(d, i).windows[i], px, py)
    {
      assert LinkedAt(d, s);
      LeaveOutcome(d, d.surfaces[s].client, s);
    }
    if d.windows[i].surface < 0 {
      assert OnlyTouched(d, Closed(d, i), -1, i);
    }
  }
}
