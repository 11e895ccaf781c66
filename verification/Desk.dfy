/**
 The compositor's window list and client surfaces as values: what each request of the display
 protocol does, exactly which runs keep the links between surfaces and windows, and exactly which
 runs leave the windows of destroyed surfaces unused.
 */
module Desk {

  const MAX_WINDOWS := 8
  const MAX_CLIENTS := 4
  const MAX_SURFACES := 4
  const TITLEBAR_H := 24

  /** `id` numbers the windows by creation. The program keeps no such number; it follows a window through moves. */
  datatype Window = Window(
    id: nat, x: int, y: int, w: int, h: int, visible: bool, minimized: bool, panel: bool, surface: int)

  /** `made` is the id of the window created together with the surface. */
  datatype Surface = Surface(active: bool, window: int, client: int, made: nat)

  datatype Desk = Desk(windows: seq<Window>, surfaces: seq<Surface>, connected: seq<bool>, next: nat)

  /** Every active surface names its own window, which names it back, and its client is connected. */
  ghost predicate Linked(d: Desk)
  {
    && |d.windows| <= MAX_WINDOWS && |d.surfaces| == MAX_SURFACES && |d.connected| == MAX_CLIENTS
    && DistinctIds(d)
    && forall s | 0 <= s < MAX_SURFACES && d.surfaces[s].active :: LinkedAt(d, s)
  }

  ghost predicate DistinctIds(d: Desk)
  {
    && (forall i | 0 <= i < |d.windows| :: d.windows[i].id < d.next)
    && forall i, j | 0 <= i < j < |d.windows| :: d.windows[i].id != d.windows[j].id
  }

  ghost predicate LinkedAt(d: Desk, s: nat)
    requires s < |d.surfaces|
  {
    var f := d.surfaces[s];
    && 0 <= f.window < |d.windows|
    && d.windows[f.window].surface == s && d.windows[f.window].id == f.made
    && 0 <= f.client < |d.connected| && d.connected[f.client]
  }

  /** Distinct active surfaces never share a window. */
  lemma WindowsAreNotShared(d: Desk, s: nat, t: nat)
    requires Linked(d) && s < MAX_SURFACES && t < MAX_SURFACES && s != t
    requires d.surfaces[s].active && d.surfaces[t].active
    ensures d.surfaces[s].window != d.surfaces[t].window
  {
    assert LinkedAt(d, s) && LinkedAt(d, t);
  }

  // ---------------------------------------------------------------- operations

  /** The first index from `i` whose window is hidden and belongs to no surface, or the length. */
  function FreeWindow(ws: seq<Window>, i: nat): (r: nat)
    requires i <= |ws|
    ensures i <= r <= |ws|
    ensures r < |ws| ==> !ws[r].visible && ws[r].surface < 0
    ensures forall k | i <= k < r :: ws[k].visible || ws[k].surface >= 0
    decreases |ws| - i
  {
    if i == |ws| || (!ws[i].visible && ws[i].surface < 0) then i else FreeWindow(ws, i + 1)
  }

  /** The first index from `i` of an inactive surface, or the length. */
  function FreeSurface(fs: seq<Surface>, i: nat): (r: nat)
    requires i <= |fs|
    ensures i <= r <= |fs|
    ensures r < |fs| ==> !fs[r].active
    ensures forall k | i <= k < r :: fs[k].active
    decreases |fs| - i
  {
    if i == |fs| || !fs[i].active then i else FreeSurface(fs, i + 1)
  }

  /** A window shown in slot `i`; a reused slot keeps its minimized flag. */
  function Placed(ws: seq<Window>, i: nat, id: nat, x: int, y: int, w: int, h: int, surface: int): seq<Window>
    requires i <= |ws|
  {
    var win := Window(id, x, y, w, h, true, i < |ws| && ws[i].minimized, false, surface);
    if i < |ws| then ws[i := win] else ws + [win]
  }

  /** CREATE_SURFACE. */
  function Created(d: Desk, client: nat, x: int, y: int, w: int, h: int): Desk
  {
    var slot := FreeSurface(d.surfaces, 0);
    var i := FreeWindow(d.windows, 0);
    if slot == |d.surfaces| || i >= MAX_WINDOWS then d
    else Desk(Placed(d.windows, i, d.next, x, y, w, h + TITLEBAR_H, slot),
              d.surfaces[slot := Surface(true, i, client, d.next)], d.connected, d.next + 1)
  }

  /** Surface ids are slot numbers plus one; an inactive or foreign id names nothing. */
  predicate Names(d: Desk, id: nat)
  {
    1 <= id <= |d.surfaces| && d.surfaces[id - 1].active
  }

  /** DESTROY_SURFACE hides the window but leaves its surface number in place. */
  function Destroyed(d: Desk, id: nat): Desk
  {
    if !Names(d, id) then d
    else
      var f := d.surfaces[id - 1];
      d.(windows := Hidden(d.windows, f.window), surfaces := d.surfaces[id - 1 := f.(active := false)])
  }

  function Hidden(ws: seq<Window>, i: int): seq<Window>
  {
    if 0 <= i < |ws| then ws[i := ws[i].(visible := false)] else ws
  }

  /** Window `i` taken out and put back on top; the others keep their order. */
  function Moved(ws: seq<Window>, i: nat): seq<Window>
    requires i < |ws|
  {
    ws[..i] + ws[i + 1..] + [ws[i]]
  }

  /** Every window above `wi` comes down by one when `wi` moves to the top. */
  function ReindexedOne(f: Surface, wi: int): Surface
  {
    if f.active && f.window > wi then f.(window := f.window - 1) else f
  }

  function Reindexed(fs: seq<Surface>, wi: int): (r: seq<Surface>)
    ensures |r| == |fs| && forall k | 0 <= k < |fs| :: r[k] == ReindexedOne(fs[k], wi)
  {
    if fs == [] then [] else Reindexed(fs[..|fs| - 1], wi) + [ReindexedOne(fs[|fs| - 1], wi)]
  }

  function Shown(ws: seq<Window>, i: nat): seq<Window>
    requires i < |ws|
  {
    ws[i := ws[i].(visible := true, minimized := false)]
  }

  /** RAISE_SURFACE. */
  function Raised(d: Desk, id: nat): Desk
  {
    if !Names(d, id) then d
    else
      var wi := d.surfaces[id - 1].window;
      if !(0 <= wi < |d.windows|) then d
      else
        var ws := Shown(d.windows, wi);
        if wi == |ws| - 1 then d.(windows := ws)
        else
          var fs := Reindexed(d.surfaces, wi);
          var s := ws[wi].surface;
          d.(windows := Moved(ws, wi),
             surfaces := if 0 <= s < |fs| then fs[s := fs[s].(window := |ws| - 1)] else fs)
  }

  /** SET_PANEL: the surface's window becomes a panel along the bottom of the screen. */
  function Panelled(d: Desk, id: nat, screenW: int, screenH: int, h: int): Desk
  {
    if !Names(d, id) then d
    else
      var wi := d.surfaces[id - 1].window;
      if !(0 <= wi < |d.windows|) then d
      else d.(windows := d.windows[wi := d.windows[wi].(panel := true, x := 0, y := screenH - h, w := screenW, h := h)])
  }

  /** The windows and surfaces after the first `n` surfaces have been checked for client `c`. */
  function Released(d: Desk, c: nat, n: nat): (r: Desk)
    requires n <= |d.surfaces|
    ensures |r.surfaces| == |d.surfaces| && |r.windows| == |d.windows|
    ensures r.connected == d.connected && r.next == d.next
    ensures forall k | n <= k < |d.surfaces| :: r.surfaces[k] == d.surfaces[k]
  {
    if n == 0 then d
    else
      var e := Released(d, c, n - 1);
      var f := e.surfaces[n - 1];
      if !f.active || f.client != c then e
      else e.(windows := Orphaned(e.windows, f.window), surfaces := e.surfaces[n - 1 := f.(active := false)])
  }

  function Orphaned(ws: seq<Window>, i: int): (r: seq<Window>)
    ensures |r| == |ws|
  {
    if 0 <= i < |ws| then ws[i := ws[i].(visible := false, surface := -1)] else ws
  }

  /** A client leaves: its surfaces go, its windows can be reused, its slot is free. */
  function Disconnected(d: Desk, c: nat): Desk
  {
    var e := Released(d, c, |d.surfaces|);
    if c < |e.connected| then e.(connected := e.connected[c := false]) else e
  }

  /** The first free client slot from `i`, or the length. */
  function FreeClient(cs: seq<bool>, i: nat): (r: nat)
    requires i <= |cs|
    ensures i <= r <= |cs| && (r < |cs| ==> !cs[r]) && forall k | i <= k < r :: cs[k]
    decreases |cs| - i
  {
    if i == |cs| || !cs[i] then i else FreeClient(cs, i + 1)
  }

  function Accepted(d: Desk): Desk
  {
    var c := FreeClient(d.connected, 0);
    if c < |d.connected| then d.(connected := d.connected[c := true]) else d
  }

  /** The close button: the owner of a live surface is disconnected, any other window is hidden. */
  function Closed(d: Desk, i: nat): Desk
  {
    if i >= |d.windows| then d
    else
      var s := d.windows[i].surface;
      if 0 <= s < |d.surfaces| && d.surfaces[s].active && d.surfaces[s].client >= 0 then Disconnected(d, d.surfaces[s].client)
      else d.(windows := Hidden(d.windows, i))
  }

  /** The minimize button. */
  function Minimized(d: Desk, i: nat): Desk
  {
    if i >= |d.windows| then d
    else d.(windows := d.windows[i := d.windows[i].(visible := false, minimized := true)])
  }

  /** window_focus moves a window to the top and leaves the surfaces alone. */
  function Focused(d: Desk, i: nat): Desk
  {
    if i < |d.windows| then d.(windows := Moved(d.windows, i)) else d
  }

  datatype Event =
    | Connect
    | Leave(client: nat)
    | Create(client: nat, x: int, y: int, w: int, h: int)
    | Destroy(client: nat, id: nat)
    | Raise(client: nat, id: nat)
    | SetPanel(client: nat, id: nat, screenW: int, screenH: int, panelH: int)
    | Close(window: nat)
    | Minimize(window: nat)
    | Focus(window: nat)

  /** One turn of the event loop. Only connected clients are polled for requests. */
  function Step(d: Desk, e: Event): Desk
  {
    match e
    case Connect => Accepted(d)
    case Leave(c) => Disconnected(d, c)
    case Create(c, x, y, w, h) => if Polled(d, c) then Created(d, c, x, y, w, h) else d
    case Destroy(c, id) => if Polled(d, c) then Destroyed(d, id) else d
    case Raise(c, id) => if Polled(d, c) then Raised(d, id) else d
    case SetPanel(c, id, sw, sh, h) => if Polled(d, c) then Panelled(d, id, sw, sh, h) else d
    case Close(i) => Closed(d, i)
    case Minimize(i) => Minimized(d, i)
    case Focus(i) => Focused(d, i)
  }

  predicate Polled(d: Desk, c: nat)
  {
    c < |d.connected| && d.connected[c]
  }

  function Run(d: Desk, es: seq<Event>): Desk
  {
    if es == [] then d else Step(Run(d, es[..|es| - 1]), es[|es| - 1])
  }

  /** The screen at start-up: only built-in windows, which have no surface. */
  predicate Fresh(d: Desk)
  {
    && |d.windows| <= MAX_WINDOWS && |d.surfaces| == MAX_SURFACES && |d.connected| == MAX_CLIENTS
    && d.next == |d.windows|
    && (forall i | 0 <= i < |d.windows| :: d.windows[i].id == i && d.windows[i].surface < 0)
    && (forall s | 0 <= s < |d.surfaces| :: !d.surfaces[s].active)
  }

  // ---------------------------------------------------------------- every step keeps the links

  lemma CreatedKeepsLinks(d: Desk, c: nat, x: int, y: int, w: int, h: int)
    requires Linked(d) && Polled(d, c)
    ensures Linked(Created(d, c, x, y, w, h))
  {
    var e := Created(d, c, x, y, w, h);
    var i := FreeWindow(d.windows, 0);
    forall s | 0 <= s < MAX_SURFACES && e.surfaces[s].active
      ensures LinkedAt(e, s)
    {
      assert d.surfaces[s].active ==> LinkedAt(d, s);
    }
  }

  lemma DestroyedKeepsLinks(d: Desk, id: nat)
    requires Linked(d)
    ensures Linked(Destroyed(d, id))
  {
    var e := Destroyed(d, id);
    forall s | 0 <= s < MAX_SURFACES && e.surfaces[s].active
      ensures LinkedAt(e, s)
    {
      assert LinkedAt(d, s);
    }
  }

  lemma MovedKeepsIds(d: Desk, ws: seq<Window>, i: nat)
    requires DistinctIds(d) && |ws| == |d.windows| && i < |ws|
    requires forall k | 0 <= k < |ws| :: ws[k].id == d.windows[k].id
    ensures forall k | 0 <= k < |ws| :: Moved(ws, i)[k].id < d.next
    ensures forall j, k | 0 <= j < k < |ws| :: Moved(ws, i)[j].id != Moved(ws, i)[k].id
  {
    var m := Moved(ws, i);
    forall k | 0 <= k < |ws|
      ensures m[k] == ws[if k < i then k else if k < |ws| - 1 then k + 1 else i]
    {
    }
  }

  lemma RaisedKeepsLinks(d: Desk, id: nat)
    requires Linked(d)
    ensures Linked(Raised(d, id))
  {
    if Names(d, id) {
      assert LinkedAt(d, id - 1);
      var wi := d.surfaces[id - 1].window;
      var e := Raised(d, id);
      MovedKeepsIds(d, Shown(d.windows, wi), wi);
      forall s | 0 <= s < MAX_SURFACES && e.surfaces[s].active
        ensures LinkedAt(e, s)
      {
        assert LinkedAt(d, s);
      }
    }
  }

  lemma PanelledKeepsLinks(d: Desk, id: nat, sw: int, sh: int, h: int)
    requires Linked(d)
    ensures Linked(Panelled(d, id, sw, sh, h))
  {
    var e := Panelled(d, id, sw, sh, h);
    forall s | 0 <= s < MAX_SURFACES && e.surfaces[s].active
      ensures LinkedAt(e, s)
    {
      assert LinkedAt(d, s);
    }
  }

  lemma {:induction false} ReleasedKeepsLinks(d: Desk, c: nat, n: nat)
    requires Linked(d) && n <= MAX_SURFACES
    ensures Linked(Released(d, c, n))
    ensures forall s | 0 <= s < n && Released(d, c, n).surfaces[s].active :: Released(d, c, n).surfaces[s].client != c
  {
    if n > 0 {
      ReleasedKeepsLinks(d, c, n - 1);
      var b, e := Released(d, c, n - 1), Released(d, c, n);
      forall s | 0 <= s < MAX_SURFACES && e.surfaces[s].active
        ensures LinkedAt(e, s)
      {
        assert LinkedAt(b, s);
        assert b.surfaces[n - 1].active ==> LinkedAt(b, n - 1);
      }
    }
  }

  lemma DisconnectedKeepsLinks(d: Desk, c: nat)
    requires Linked(d)
    ensures Linked(Disconnected(d, c))
    ensures forall s | 0 <= s < MAX_SURFACES && Disconnected(d, c).surfaces[s].active :: Disconnected(d, c).surfaces[s].client != c
  {
    ReleasedKeepsLinks(d, c, MAX_SURFACES);
    var b, e := Released(d, c, MAX_SURFACES), Disconnected(d, c);
    forall s | 0 <= s < MAX_SURFACES && e.surfaces[s].active
      ensures LinkedAt(e, s)
    {
      assert LinkedAt(b, s);
    }
  }

  lemma ButtonsKeepLinks(d: Desk, i: nat)
    requires Linked(d)
    ensures Linked(Closed(d, i)) && Linked(Minimized(d, i))
  {
    if i < |d.windows| {
      var s := d.windows[i].surface;
      if 0 <= s < |d.surfaces| && d.surfaces[s].active && d.surfaces[s].client >= 0 {
        DisconnectedKeepsLinks(d, d.surfaces[s].client);
      }
      var e, m := d.(windows := Hidden(d.windows, i)), Minimized(d, i);
      forall s | 0 <= s < MAX_SURFACES && d.surfaces[s].active
        ensures LinkedAt(e, s) && LinkedAt(m, s)
      {
        assert LinkedAt(d, s);
      }
    }
  }

  lemma AcceptedKeepsLinks(d: Desk)
    requires Linked(d)
    ensures Linked(Accepted(d))
  {
    forall s | 0 <= s < MAX_SURFACES && d.surfaces[s].active
      ensures LinkedAt(Accepted(d), s)
    {
      assert LinkedAt(d, s);
    }
  }

  /** The window is already on top, or no active surface's window is at or above it. */
  predicate Harmless(d: Desk, i: nat)
  {
    i >= |d.windows| - 1 || forall s | 0 <= s < |d.surfaces| && d.surfaces[s].active :: d.surfaces[s].window < i
  }

  /** A focus click keeps every surface on its own window exactly when it is harmless. */
  lemma FocusKeepsLinksExactly(d: Desk, i: nat)
    requires Linked(d)
    ensures Linked(Focused(d, i)) <==> Harmless(d, i)
  {
    if i < |d.windows| - 1 {
      var e := Focused(d, i);
      MovedKeepsIds(d, d.windows, i);
      forall s | 0 <= s < MAX_SURFACES && d.surfaces[s].active
        ensures LinkedAt(e, s) <==> d.surfaces[s].window < i
      {
        assert LinkedAt(d, s);
        var k := d.surfaces[s].window;
        var from := if k < i then k else if k < |d.windows| - 1 then k + 1 else i;
        assert e.windows[k] == d.windows[from];
        assert from != k ==> d.windows[from].id != d.windows[k].id;
      }
    } else if i == |d.windows| - 1 {
      assert Moved(d.windows, i) == d.windows;
    }
  }

  /** One turn of the event loop keeps the links unless it is a focus click that does harm. */
  lemma StepKeepsLinksExactly(d: Desk, e: Event)
    requires Linked(d)
    ensures Linked(Step(d, e)) <==> (e.Focus? ==> Harmless(d, e.window))
  {
    hide Linked, Harmless, Created, Destroyed, Raised, Panelled, Disconnected, Closed, Minimized, Accepted, Focused;
    match e
    case Connect => AcceptedKeepsLinks(d);
    case Leave(c) => DisconnectedKeepsLinks(d, c);
    case Create(c, x, y, w, h) => if Polled(d, c) { CreatedKeepsLinks(d, c, x, y, w, h); }
    case Destroy(c, id) => DestroyedKeepsLinks(d, id);
    case Raise(c, id) => RaisedKeepsLinks(d, id);
    case SetPanel(c, id, sw, sh, h) => PanelledKeepsLinks(d, id, sw, sh, h);
    case Close(i) => ButtonsKeepLinks(d, i);
    case Minimize(i) => ButtonsKeepLinks(d, i);
    case Focus(i) => FocusKeepsLinksExactly(d, i);
  }

  /** Every focus click of the run is harmless when it is made. */
  predicate Careful(d: Desk, es: seq<Event>)
  {
    es == [] ||
    var init, last := es[..|es| - 1], es[|es| - 1];
    Careful(d, init) && (last.Focus? ==> Harmless(Run(d, init), last.window))
  }

  /** The links hold after every event of a run if and only if each focus click in it is harmless. */
  lemma {:induction false} RunsKeepLinksExactly(d: Desk, es: seq<Event>)
    requires Linked(d)
    ensures (forall k | 0 <= k <= |es| :: Linked(Run(d, es[..k]))) <==> Careful(d, es)
  {
    hide Linked, Harmless, Step;
    assert es[..|es|] == es;
    if es == [] {
      assert es[..0] == es;
    } else {
      var init := es[..|es| - 1];
      RunsKeepLinksExactly(d, init);
      assert forall k | 0 <= k <= |init| :: init[..k] == es[..k];
      assert init[..|init|] == init;
      if Linked(Run(d, init)) {
        StepKeepsLinksExactly(Run(d, init), es[|es| - 1]);
      }
      if forall k | 0 <= k <= |es| :: Linked(Run(d, es[..k])) {
        forall k | 0 <= k <= |init|
          ensures Linked(Run(d, init[..k]))
        {
          assert init[..k] == es[..k];
        }
      }
      if Careful(d, es) {
        forall k | 0 <= k <= |es|
          ensures Linked(Run(d, es[..k]))
        {
          if k < |es| {
            assert es[..k] == init[..k];
          }
        }
      }
    }
  }

  lemma {:induction false} NoClickIsCareful(d: Desk, es: seq<Event>)
    requires forall e | e in es :: !e.Focus?
    ensures Careful(d, es)
  {
    if es != [] {
      NoClickIsCareful(d, es[..|es| - 1]);
      assert es[|es| - 1] in es;
    }
  }

  lemma FreshIsLinked(d: Desk)
    requires Fresh(d)
    ensures Linked(d)
  {
  }

  /** From start-up, whatever clients and buttons do, careful runs end with the links in place. */
  lemma RunsKeepLinks(d: Desk, es: seq<Event>)
    requires Fresh(d) && Careful(d, es)
    ensures Linked(Run(d, es))
  {
    hide Linked, Careful, Run, Fresh;
    FreshIsLinked(d);
    RunsKeepLinksExactly(d, es);
    assert es[..|es|] == es;
  }

  // ---------------------------------------------------------------- sizes and numbers

  /** The slots exist and no two windows have one number: true of every run, whatever is clicked. */
  ghost predicate Numbered(d: Desk)
  {
    && |d.windows| <= MAX_WINDOWS && |d.surfaces| == MAX_SURFACES && |d.connected| == MAX_CLIENTS
    && DistinctIds(d)
  }

  lemma {:induction false} ReleasedKeepsNumbers(d: Desk, c: nat, n: nat)
    requires n <= |d.surfaces|
    ensures var e := Released(d, c, n); |e.windows| == |d.windows| && forall k | 0 <= k < |d.windows| :: e.windows[k].id == d.windows[k].id
  {
    if n > 0 {
      ReleasedKeepsNumbers(d, c, n - 1);
    }
  }

  lemma StepKeepsNumbers(d: Desk, e: Event)
    requires Numbered(d)
    ensures Numbered(Step(d, e))
  {
    hide Released, Moved;
    if e.Raise? && Names(d, e.id) && 0 <= d.surfaces[e.id - 1].window < |d.windows| {
      var wi := d.surfaces[e.id - 1].window;
      MovedKeepsIds(d, Shown(d.windows, wi), wi);
      MovedSize(Shown(d.windows, wi), wi);
    } else if e.Focus? && e.window < |d.windows| {
      MovedKeepsIds(d, d.windows, e.window);
      MovedSize(d.windows, e.window);
    } else {
      forall c: nat
        ensures Numbered(Disconnected(d, c))
      {
        ReleasedKeepsNumbers(d, c, MAX_SURFACES);
      }
    }
  }

  lemma MovedSize(ws: seq<Window>, i: nat)
    requires i < |ws|
    ensures |Moved(ws, i)| == |ws|
  {
  }

  lemma {:induction false} RunsKeepNumbers(d: Desk, es: seq<Event>)
    requires Numbered(d)
    ensures Numbered(Run(d, es))
  {
    hide Numbered, Step;
    if es != [] {
      RunsKeepNumbers(d, es[..|es| - 1]);
      StepKeepsNumbers(Run(d, es[..|es| - 1]), es[|es| - 1]);
    }
  }

  // ---------------------------------------------------------------- destroyed windows

  /** Window `id` is hidden and names a surface slot that is not its own. */
  predicate DeadAt(d: Desk, id: nat, i: nat)
  {
    && i < |d.windows| && d.windows[i].id == id
    && !d.windows[i].visible && 0 <= d.windows[i].surface < |d.surfaces|
    && !(d.surfaces[d.windows[i].surface].active && d.surfaces[d.windows[i].surface].made == id)
  }

  ghost predicate Dead(d: Desk, id: nat)
  {
    exists i: nat :: DeadAt(d, id, i)
  }

  /** One of the first `n` surfaces is an active one of client `c` that names window `i`. */
  predicate Owns(d: Desk, c: nat, n: nat, i: nat)
    requires n <= |d.surfaces|
  {
    exists s | 0 <= s < n :: d.surfaces[s].active && d.surfaces[s].client == c && d.surfaces[s].window == i
  }

  /** The events that reach window `i` through a surface that names it: a raise, or its client's departure. */
  predicate Hits(d: Desk, e: Event, i: nat)
  {
    match e
    case Raise(c, r) => Polled(d, c) && Names(d, r) && d.surfaces[r - 1].window == i
    case Leave(c) => Owns(d, c, |d.surfaces|, i)
    case Close(k) =>
      && k < |d.windows| && 0 <= d.windows[k].surface < |d.surfaces|
      && var f := d.surfaces[d.windows[k].surface];
         f.active && f.client >= 0 && Owns(d, f.client, |d.surfaces|, i)
    case _ => false
  }

  /** `Released` orphans the windows that a released surface names and no other. */
  lemma {:induction false} ReleasedAt(d: Desk, c: nat, n: nat, i: nat)
    requires n <= |d.surfaces| && i < |d.windows|
    ensures var e := Released(d, c, n);
      && e.windows[i] == (if Owns(d, c, n, i) then d.windows[i].(visible := false, surface := -1) else d.windows[i])
      && forall s | 0 <= s < |d.surfaces| :: e.surfaces[s] == d.surfaces[s] || e.surfaces[s] == d.surfaces[s].(active := false)
  {
    if n > 0 {
      ReleasedAt(d, c, n - 1, i);
    }
  }

  lemma AtMostOnePlace(e: Desk, id: nat, i: nat)
    requires Numbered(e) && i < |e.windows| && e.windows[i].id == id
    requires !DeadAt(e, id, i)
    ensures !Dead(e, id)
  {
  }

  lemma DisconnectedExactly(d: Desk, c: nat, id: nat, i: nat)
    requires Numbered(d) && DeadAt(d, id, i)
    ensures Dead(Disconnected(d, c), id) <==> !Owns(d, c, |d.surfaces|, i)
  {
    hide Released, Owns;
    ReleasedAt(d, c, |d.surfaces|, i);
    StepKeepsNumbers(d, Leave(c));
    var e := Disconnected(d, c);
    assert Step(d, Leave(c)) == e;
    if Owns(d, c, |d.surfaces|, i) {
      AtMostOnePlace(e, id, i);
    } else {
      assert DeadAt(e, id, i);
    }
  }

  lemma RaisedExactly(d: Desk, r: nat, id: nat, i: nat)
    requires Numbered(d) && DeadAt(d, id, i)
    ensures Dead(Raised(d, r), id) <==> !(Names(d, r) && d.surfaces[r - 1].window == i)
  {
    var e := Raised(d, r);
    if !Names(d, r) || !(0 <= d.surfaces[r - 1].window < |d.windows|) {
      assert DeadAt(e, id, i);
    } else {
      var wi := d.surfaces[r - 1].window;
      var k := if i < wi then i else if i == wi then |d.windows| - 1 else i - 1;
      MovedKeepsIds(d, Shown(d.windows, wi), wi);
      assert e.windows[k] == Shown(d.windows, wi)[i];
      if wi == i {
        AtMostOnePlace(e, id, k);
      } else {
        assert DeadAt(e, id, k);
      }
    }
  }

  lemma FocusedSparesDead(d: Desk, f: nat, id: nat, i: nat)
    requires DeadAt(d, id, i)
    ensures Dead(Focused(d, f), id)
  {
    var k := if f >= |d.windows| || i < f then i else if i == f then |d.windows| - 1 else i - 1;
    assert DeadAt(Focused(d, f), id, k);
  }

  /** A dead window stays dead through an event if and only if the event does not hit it. */
  lemma StaysDeadExactly(d: Desk, e: Event, id: nat, i: nat)
    requires Numbered(d) && DeadAt(d, id, i)
    ensures Dead(Step(d, e), id) <==> !Hits(d, e, i)
  {
    hide Raised, Released, Disconnected, Moved, Owns;
    if e.Raise? {
      RaisedExactly(d, e.id, id, i);
    } else if e.Focus? {
      FocusedSparesDead(d, e.window, id, i);
    } else {
      forall c: nat
        ensures Dead(Disconnected(d, c), id) <==> !Owns(d, c, |d.surfaces|, i)
      {
        DisconnectedExactly(d, c, id, i);
      }
      if !e.Leave? && !e.Close? {
        assert DeadAt(Step(d, e), id, i);
      } else if e.Close? {
        assert DeadAt(d.(windows := Hidden(d.windows, e.window)), id, i);
      }
    }
  }

  ghost predicate HitsWindow(d: Desk, e: Event, id: nat)
  {
    exists i: nat | i < |d.windows| :: d.windows[i].id == id && Hits(d, e, i)
  }

  /** No event of the run reaches window `id` when it happens. */
  ghost predicate NeverHit(d: Desk, es: seq<Event>, id: nat)
  {
    es == [] ||
    var init, last := es[..|es| - 1], es[|es| - 1];
    NeverHit(d, init, id) && !HitsWindow(Run(d, init), last, id)
  }

  ghost predicate DeadThroughout(d: Desk, es: seq<Event>, id: nat)
  {
    forall k | 0 <= k <= |es| :: Dead(Run(d, es[..k]), id)
  }

  lemma DeadThroughoutStep(d: Desk, es: seq<Event>, id: nat)
    requires es != []
    ensures DeadThroughout(d, es, id) <==> DeadThroughout(d, es[..|es| - 1], id) && Dead(Run(d, es), id)
  {
    hide Dead, Run;
    var init := es[..|es| - 1];
    assert es[..|es|] == es;
    assert forall k | 0 <= k <= |init| :: init[..k] == es[..k];
    if DeadThroughout(d, es, id) {
      forall k | 0 <= k <= |init|
        ensures Dead(Run(d, init[..k]), id)
      {
        assert init[..k] == es[..k];
      }
    }
    if DeadThroughout(d, init, id) && Dead(Run(d, es), id) {
      forall k | 0 <= k <= |es|
        ensures Dead(Run(d, es[..k]), id)
      {
        assert k < |es| ==> es[..k] == init[..k];
      }
    }
  }

  /** A dead window is dead after every event of a run if and only if no event hits it. */
  lemma {:induction false} RunsLeaveDeadExactly(d: Desk, es: seq<Event>, id: nat)
    requires Numbered(d) && Dead(d, id)
    ensures DeadThroughout(d, es, id) <==> NeverHit(d, es, id)
  {
    hide Step, Hits, Numbered;
    if es == [] {
      assert es[..0] == es;
    } else {
      var init, last := es[..|es| - 1], es[|es| - 1];
      RunsLeaveDeadExactly(d, init, id);
      DeadThroughoutStep(d, es, id);
      if DeadThroughout(d, init, id) {
        assert init[..|init|] == init;
        var b := Run(d, init);
        RunsKeepNumbers(d, init);
        var i: nat :| DeadAt(b, id, i);
        StaysDeadExactly(b, last, id, i);
        OnlyThere(b, last, id, i);
      }
    }
  }

  lemma OnlyThere(d: Desk, e: Event, id: nat, i: nat)
    requires Numbered(d) && DeadAt(d, id, i)
    ensures HitsWindow(d, e, id) <==> Hits(d, e, i)
  {
  }

  /** Where surfaces name their own windows, nothing hits a dead one. */
  lemma LinkedMissesDead(d: Desk, e: Event, id: nat)
    requires Linked(d) && Dead(d, id)
    ensures !HitsWindow(d, e, id)
  {
    assert forall s | 0 <= s < MAX_SURFACES && d.surfaces[s].active :: LinkedAt(d, s);
    var i: nat :| DeadAt(d, id, i);
    OnlyThere(d, e, id, i);
  }

  /**
   From any run on, whatever was clicked: when a surface that names its own window is destroyed,
   that window is dead after every later event, its slot not reused, if and only if none hits it.
   */
  lemma DestroyedWindowStaysExactly(d: Desk, before: seq<Event>, r: nat, after: seq<Event>)
    requires Fresh(d) && Names(Run(d, before), r) && LinkedAt(Run(d, before), r - 1)
    ensures var b := Run(d, before); var id := b.surfaces[r - 1].made;
      DeadThroughout(Destroyed(b, r), after, id) <==> NeverHit(Destroyed(b, r), after, id)
  {
    hide Run, NeverHit, DeadThroughout;
    FreshIsLinked(d);
    RunsKeepNumbers(d, before);
    var b := Run(d, before);
    var id := b.surfaces[r - 1].made;
    assert DeadAt(Destroyed(b, r), id, b.surfaces[r - 1].window);
    assert Numbered(Destroyed(b, r));
    RunsLeaveDeadExactly(Destroyed(b, r), after, id);
  }

  lemma {:induction false} CarefulNeverHits(d: Desk, es: seq<Event>, id: nat)
    requires Linked(d) && Dead(d, id) && Careful(d, es)
    ensures Linked(Run(d, es)) && Dead(Run(d, es), id) && NeverHit(d, es, id)
  {
    hide Step, Hits, Harmless, Dead, HitsWindow;
    if es != [] {
      var init, last := es[..|es| - 1], es[|es| - 1];
      CarefulNeverHits(d, init, id);
      var b := Run(d, init);
      StepKeepsLinksExactly(b, last);
      LinkedMissesDead(b, last, id);
      NotHitStaysDead(b, last, id);
    }
  }

  lemma NotHitStaysDead(d: Desk, e: Event, id: nat)
    requires Numbered(d) && Dead(d, id) && !HitsWindow(d, e, id)
    ensures Dead(Step(d, e), id)
  {
    hide Step, Hits;
    var i: nat :| DeadAt(d, id, i);
    StaysDeadExactly(d, e, id, i);
  }

  /** In particular it is dead through every run whose focus clicks are harmless, even after its client has left. */
  lemma DestroyedWindowStays(d: Desk, before: seq<Event>, r: nat, after: seq<Event>)
    requires Fresh(d) && Careful(d, before) && Names(Run(d, before), r) && Careful(Destroyed(Run(d, before), r), after)
    ensures DeadThroughout(Destroyed(Run(d, before), r), after, Run(d, before).surfaces[r - 1].made)
  {
    hide Run, NeverHit, DeadThroughout, Careful;
    RunsKeepLinks(d, before);
    var b := Run(d, before);
    assert LinkedAt(b, r - 1);
    DestroyedKeepsLinks(b, r);
    assert DeadAt(Destroyed(b, r), b.surfaces[r - 1].made, b.surfaces[r - 1].window);
    CarefulNeverHits(Destroyed(b, r), after, b.surfaces[r - 1].made);
    DestroyedWindowStaysExactly(d, before, r, after);
  }
}
