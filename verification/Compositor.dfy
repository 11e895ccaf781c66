/** The compositor's global state and the loops that update it, proved against the values of `Desk`. */
module Compositor {
  import opened Desk

  class Screen {
    var windows: seq<Window>
    var surfaces: seq<Surface>
    var connected: seq<bool>
    var focused: int
    var next: nat

    ghost function State(): Desk
      reads this
    {
      Desk(windows, surfaces, connected, next)
    }

    /** The slots exist, and the links between surfaces and windows hold. */
    ghost predicate Valid()
      reads this
    {
      Linked(State())
    }

    constructor ()
      ensures Valid() && Fresh(State()) && windows == [] && focused == -1
      ensures forall c | 0 <= c < MAX_CLIENTS :: !connected[c]
    {
      windows := [];
      surfaces := seq(MAX_SURFACES, _ => Surface(false, 0, 0, 0));
      connected := seq(MAX_CLIENTS, _ => false);
      focused := -1;
      next := 0;
    }

    /** window_create, for a window that is to carry `surface`, or -1 for a built-in one. */
    method WindowCreate(x: int, y: int, w: int, h: int, surface: int) returns (idx: int)
      requires |windows| <= MAX_WINDOWS
      modifies this`windows, this`next
      ensures var i := FreeWindow(old(windows), 0);
        if i >= MAX_WINDOWS then idx == -1 && windows == old(windows) && next == old(next)
        else idx == i && windows == Placed(old(windows), i, old(next), x, y, w, h, surface) && next == old(next) + 1
    {
      idx := -1;
      var i := 0;
      while i < |windows| && idx < 0
        invariant 0 <= i <= |windows|
        invariant if idx >= 0 then idx == FreeWindow(windows, 0) < |windows|
                  else FreeWindow(windows, 0) == FreeWindow(windows, i)
      {
        if !windows[i].visible && windows[i].surface < 0 {
          idx := i;
        }
        i := i + 1;
      }
      if idx < 0 {
        if |windows| >= MAX_WINDOWS {
          return;
        }
        idx := |windows|;
        windows := windows + [Window(next, x, y, w, h, true, false, false, surface)];
      } else {
        windows := windows[idx := Window(next, x, y, w, h, true, windows[idx].minimized, false, surface)];
      }
      next := next + 1;
    }

    /** The CREATE_SURFACE case; `id` is the surface number sent back, 0 when there is none. */
    method CreateSurface(client: nat, x: int, y: int, w: int, h: int) returns (id: nat)
      requires Valid() && Polled(State(), client)
      modifies this`windows, this`surfaces, this`next
      ensures Valid() && State() == Created(old(State()), client, x, y, w, h)
      ensures id != 0 ==> Names(State(), id) && !old(Names(State(), id)) && surfaces[id - 1].client == client
      ensures id == 0 <==> State() == old(State())
    {
      hide LinkedAt, DistinctIds;
      CreatedKeepsLinks(State(), client, x, y, w, h);
      var slot := 0;
      while slot < MAX_SURFACES && surfaces[slot].active
        invariant 0 <= slot <= MAX_SURFACES && FreeSurface(surfaces, 0) == FreeSurface(surfaces, slot)
      {
        slot := slot + 1;
      }
      if slot == MAX_SURFACES {
        return 0;
      }
      var made := next;
      var win := WindowCreate(x, y, w, h + TITLEBAR_H, slot);
      if win < 0 {
        return 0;
      }
      surfaces := surfaces[slot := Surface(true, win, client, made)];
      return slot + 1;
    }

    /** The DESTROY_SURFACE case. */
    method DestroySurface(id: nat)
      requires Valid()
      modifies this`windows, this`surfaces
      ensures Valid() && State() == Destroyed(old(State()), id)
    {
      DestroyedKeepsLinks(State(), id);
      if !(1 <= id <= MAX_SURFACES && surfaces[id - 1].active) {
        return;
      }
      var f := surfaces[id - 1];
      if 0 <= f.window < |windows| {
        windows := windows[f.window := windows[f.window].(visible := false)];
      }
      surfaces := surfaces[id - 1 := f.(active := false)];
    }

    /** The element-by-element move of window `i` to the end of the list. */
    method MoveToTop(i: nat)
      requires i < |windows|
      modifies this`windows
      ensures windows == Moved(old(windows), i)
    {
      var tmp := windows[i];
      ghost var ws := windows;
      var last := |windows| - 1;
      for j := i to last
        invariant |windows| == |ws|
        invariant windows[..i] == ws[..i] && windows[j..] == ws[j..]
        invariant forall k | i <= k < j :: windows[k] == ws[k + 1]
      {
        assert windows[j + 1] == windows[j..][1] == ws[j + 1];
        windows := windows[j := windows[j + 1]];
      }
      windows := windows[last := tmp];
    }

    /** The loop over the surfaces after window `wi` has moved to the top. */
    method Reindex(wi: int)
      modifies this`surfaces
      ensures surfaces == Reindexed(old(surfaces), wi)
    {
      ghost var fs := surfaces;
      var n := |surfaces|;
      for j := 0 to n
        invariant |surfaces| == n
        invariant forall k | 0 <= k < j :: surfaces[k] == ReindexedOne(fs[k], wi)
        invariant forall k | j <= k < n :: surfaces[k] == fs[k]
      {
        if surfaces[j].active && surfaces[j].window > wi {
          surfaces := surfaces[j := surfaces[j].(window := surfaces[j].window - 1)];
        }
      }
      assert surfaces == Reindexed(fs, wi);
    }

    /** The RAISE_SURFACE case: the window is shown on top and every surface still names its own window. */
    method RaiseSurface(id: nat)
      requires Valid()
      modifies this`windows, this`surfaces, this`focused
      ensures State() == Raised(old(State()), id)
      ensures Valid()
      ensures old(Names(State(), id)) ==> focused == |windows| - 1 && surfaces[id - 1].window == |windows| - 1
      ensures !old(Names(State(), id)) ==> focused == old(focused)
    {
      hide Linked, Moved, Reindexed;
      RaisedKeepsLinks(State(), id);
      Sizes(State());
      if !(1 <= id <= MAX_SURFACES && surfaces[id - 1].active) {
        return;
      }
      LinksOf(State(), id - 1);
      var wi := surfaces[id - 1].window;
      windows := windows[wi := windows[wi].(visible := true, minimized := false)];
      ghost var ws := windows;
      if wi != |windows| - 1 {
        var s := windows[wi].surface;
        MoveToTop(wi);
        MovedLength(ws, wi);
        Reindex(wi);
        if s >= 0 {
          surfaces := surfaces[s := surfaces[s].(window := |windows| - 1)];
        }
      }
      focused := |windows| - 1;
    }

    /** cdp_disconnect_client. */
    method DisconnectClient(c: nat)
      requires Valid() && c < MAX_CLIENTS
      modifies this`windows, this`surfaces, this`connected
      ensures Valid() && State() == Disconnected(old(State()), c)
      ensures !connected[c] && forall s | 0 <= s < MAX_SURFACES && surfaces[s].active :: surfaces[s].client != c
    {
      hide Linked, Released;
      DisconnectedKeepsLinks(State(), c);
      ghost var d := State();
      Sizes(d);
      ReleasedNone(d, c);
      for i := 0 to MAX_SURFACES
        invariant |surfaces| == MAX_SURFACES && connected == d.connected
        invariant State() == Released(d, c, i)
      {
        ReleasedNext(d, c, i);
        if !surfaces[i].active || surfaces[i].client != c {
          continue;
        }
        var wi := surfaces[i].window;
        if 0 <= wi < |windows| {
          windows := windows[wi := windows[wi].(visible := false, surface := -1)];
        }
        surfaces := surfaces[i := surfaces[i].(active := false)];
      }
      connected := connected[c := false];
    }

    /** cdp_accept_client; -1 when every slot is taken. */
    method AcceptClient() returns (c: int)
      requires Valid()
      modifies this`connected
      ensures Valid() && State() == Accepted(old(State()))
      ensures c == -1 <==> forall k | 0 <= k < MAX_CLIENTS :: old(connected)[k]
      ensures c != -1 ==> 0 <= c < MAX_CLIENTS && !old(connected)[c] && connected[c]
    {
      AcceptedKeepsLinks(State());
      var i := 0;
      while i < MAX_CLIENTS && connected[i]
        invariant 0 <= i <= MAX_CLIENTS && FreeClient(connected, 0) == FreeClient(connected, i)
        invariant forall k | 0 <= k < i :: connected[k]
      {
        i := i + 1;
      }
      if i == MAX_CLIENTS {
        return -1;
      }
      connected := connected[i := true];
      return i;
    }

    /** window_focus; an index outside the list changes nothing. The surfaces are not told of the move. */
    method WindowFocus(i: int)
      modifies this`windows, this`focused
      ensures 0 <= i < |old(windows)| ==> windows == Moved(old(windows), i) && focused == |windows| - 1
      ensures !(0 <= i < |old(windows)|) ==> windows == old(windows) && focused == old(focused)
      ensures i >= 0 ==> State() == Focused(old(State()), i)
    {
      if i < 0 || i >= |windows| {
        return;
      }
      focused := |windows| - 1;
      if i == |windows| - 1 {
        assert Moved(windows, i) == windows;
        return;
      }
      MoveToTop(i);
    }
  }

  lemma Sizes(d: Desk)
    requires Linked(d)
    ensures |d.surfaces| == MAX_SURFACES && |d.connected| == MAX_CLIENTS && |d.windows| <= MAX_WINDOWS
  {
  }

  lemma LinksOf(d: Desk, s: nat)
    requires Linked(d) && s < MAX_SURFACES && d.surfaces[s].active
    ensures LinkedAt(d, s)
  {
  }

  lemma MovedLength(ws: seq<Window>, i: nat)
    requires i < |ws|
    ensures |Moved(ws, i)| == |ws|
  {
  }

  lemma ReleasedNone(d: Desk, c: nat)
    ensures Released(d, c, 0) == d
  {
  }

  lemma ReleasedNext(d: Desk, c: nat, n: nat)
    requires n < |d.surfaces|
    ensures var e := Released(d, c, n);
      Released(d, c, n + 1) ==
        if !e.surfaces[n].active || e.surfaces[n].client != c then e
        else e.(windows := Orphaned(e.windows, e.surfaces[n].window), surfaces := e.surfaces[n := e.surfaces[n].(active := false)])
  {
  }
}
