/**
 Runs of the compositor from its start-up screen on which a focus click does harm, and on which the
 pointer and the painter disagree.
 */
module DeskCases {
  import opened Desk
  import opened HitTest

  function BuiltIn(id: nat, x: int, y: int, w: int, h: int): Window
  {
    Window(id, x, y, w, h, true, false, false, -1)
  }

  const TERMINAL := BuiltIn(0, 50, 50, 300, 200)
  const EDITOR := BuiltIn(1, 200, 150, 280, 180)
  const INFO := BuiltIn(2, 400, 80, 250, 160)
  const UNUSED := Surface(false, 0, 0, 0)

  /** What main() sets up: three windows, no client. */
  function Startup(): Desk
  {
    Desk([TERMINAL, EDITOR, INFO], [UNUSED, UNUSED, UNUSED, UNUSED], [false, false, false, false], 3)
  }

  lemma StartupIsFresh()
    ensures Fresh(Startup())
  {
  }

  lemma RunNext(d: Desk, es: seq<Event>, e: Event)
    ensures Run(d, es + [e]) == Step(Run(d, es), e)
  {
    assert (es + [e])[..|es|] == es;
  }

  const CREATE := Create(0, 10, 10, 100, 76)

  function Client(id: nat, surface: int): Window
  {
    Window(id, 10, 10, 100, 100, true, false, false, surface)
  }

  // ---------------------------------------------------------------- one surface and a click

  const ONE := [Connect, CREATE]

  lemma OneSurface()
    ensures Run(Startup(), ONE) ==
      Desk([TERMINAL, EDITOR, INFO, Client(3, 0)], [Surface(true, 3, 0, 3), UNUSED, UNUSED, UNUSED], [true, false, false, false], 4)
  {
    RunNext(Startup(), [], Connect);
    RunNext(Startup(), [Connect], CREATE);
    assert [] + [Connect] == [Connect] && [Connect] + [CREATE] == ONE;
    var d := Accepted(Startup());
    assert d.connected == [true, false, false, false];
    assert FreeWindow(d.windows, 0) == 3;
    var e := Created(d, 0, 10, 10, 100, 76);
    assert e.windows == [TERMINAL, EDITOR, INFO, Client(3, 0)];
    assert e.surfaces == [Surface(true, 3, 0, 3), UNUSED, UNUSED, UNUSED];
  }

  /** A click on the Terminal window below the client's: the surface now names the Terminal. */
  lemma FocusMayBreakLinks()
    ensures Linked(Run(Startup(), ONE)) && !Linked(Run(Startup(), ONE + [Focus(0)]))
    ensures Run(Startup(), ONE + [Focus(0)]).windows == [EDITOR, INFO, Client(3, 0), TERMINAL]
    ensures Run(Startup(), ONE + [Focus(0)]).surfaces == [Surface(true, 3, 0, 3), UNUSED, UNUSED, UNUSED]
  {
    OneSurface();
    StartupIsFresh();
    NoClickIsCareful(Startup(), ONE);
    RunsKeepLinks(Startup(), ONE);
    RunNext(Startup(), ONE, Focus(0));
    var d := Run(Startup(), ONE);
    FocusKeepsLinksExactly(d, 0);
    assert d.surfaces[0].active;
  }

  // ---------------------------------------------------------------- two surfaces

  const TWO := ONE + [CREATE]

  lemma TwoSurfaces()
    ensures Run(Startup(), TWO) ==
      Desk([TERMINAL, EDITOR, INFO, Client(3, 0), Client(4, 1)],
           [Surface(true, 3, 0, 3), Surface(true, 4, 0, 4), UNUSED, UNUSED], [true, false, false, false], 5)
  {
    OneSurface();
    RunNext(Startup(), ONE, CREATE);
    var d := Run(Startup(), ONE);
    assert FreeWindow(d.windows, 0) == 4;
    assert FreeSurface(d.surfaces, 0) == 1;
    var e := Created(d, 0, 10, 10, 100, 76);
    assert e.windows == [TERMINAL, EDITOR, INFO, Client(3, 0), Client(4, 1)];
    assert e.surfaces == [Surface(true, 3, 0, 3), Surface(true, 4, 0, 4), UNUSED, UNUSED];
  }

  const ABANDONED := TWO + [Destroy(0, 2)]

  lemma Abandoned()
    ensures Run(Startup(), ABANDONED) ==
      Desk([TERMINAL, EDITOR, INFO, Client(3, 0), Client(4, 1).(visible := false)],
           [Surface(true, 3, 0, 3), Surface(false, 4, 0, 4), UNUSED, UNUSED], [true, false, false, false], 5)
  {
    TwoSurfaces();
    RunNext(Startup(), TWO, Destroy(0, 2));
  }

  const SWAPPED := ABANDONED + [Focus(3)]

  lemma Swapped()
    ensures Run(Startup(), SWAPPED) ==
      Desk([TERMINAL, EDITOR, INFO, Client(4, 1).(visible := false), Client(3, 0)],
           [Surface(true, 3, 0, 3), Surface(false, 4, 0, 4), UNUSED, UNUSED], [true, false, false, false], 5)
  {
    Abandoned();
    RunNext(Startup(), ABANDONED, Focus(3));
    var d := Run(Startup(), ABANDONED);
    assert Moved(d.windows, 3) == [TERMINAL, EDITOR, INFO, Client(4, 1).(visible := false), Client(3, 0)];
  }

  const GONE := SWAPPED + [Leave(0)]

  lemma Gone()
    ensures Run(Startup(), GONE) ==
      Desk([TERMINAL, EDITOR, INFO, Client(4, -1).(visible := false), Client(3, 0)],
           [Surface(false, 3, 0, 3), Surface(false, 4, 0, 4), UNUSED, UNUSED], [false, false, false, false], 5)
  {
    Swapped();
    RunNext(Startup(), SWAPPED, Leave(0));
    var d := Run(Startup(), SWAPPED);
    assert Released(d, 0, 0) == d;
    var e := Released(d, 0, 1);
    assert e.windows == [TERMINAL, EDITOR, INFO, Client(4, -1).(visible := false), Client(3, 0)];
    assert e.surfaces == [Surface(false, 3, 0, 3), Surface(false, 4, 0, 4), UNUSED, UNUSED];
    assert Released(d, 0, 2) == e;
    assert Released(d, 0, 3) == e;
    assert Released(d, 0, 4) == e;
    assert e.connected[0 := false] == [false, false, false, false];
  }

  const REUSED := GONE + [Connect] + [CREATE]

  lemma Reused()
    ensures Run(Startup(), REUSED) ==
      Desk([TERMINAL, EDITOR, INFO, Client(5, 0), Client(3, 0)],
           [Surface(true, 3, 0, 5), Surface(false, 4, 0, 4), UNUSED, UNUSED], [true, false, false, false], 6)
  {
    Gone();
    RunNext(Startup(), GONE, Connect);
    RunNext(Startup(), GONE + [Connect], CREATE);
    var d := Run(Startup(), GONE + [Connect]);
    assert d.connected == [true, false, false, false];
    assert FreeWindow(d.windows, 2) == FreeWindow(d.windows, 3) == 3;
    assert FreeWindow(d.windows, 0) == FreeWindow(d.windows, 1) == 3;
    var e := Created(d, 0, 10, 10, 100, 76);
    assert e.surfaces == [Surface(true, 3, 0, 5), Surface(false, 4, 0, 4), UNUSED, UNUSED];
  }

  /**
   One harmful click lets a destroyed surface's window be reused after all: window 4 is dead after
   the destroy, but the client's departure then frees its slot, and leaves window 3 on the screen.
   */
  lemma DestroyedWindowMayBeReused()
    ensures Dead(Run(Startup(), ABANDONED), 4) && !Dead(Run(Startup(), REUSED), 4)
    ensures !Harmless(Run(Startup(), ABANDONED), 3) && Hits(Run(Startup(), SWAPPED), Leave(0), 3)
    ensures Client(3, 0) in Run(Startup(), GONE).windows && Run(Startup(), GONE).connected == [false, false, false, false]
  {
    Abandoned();
    Swapped();
    Gone();
    Reused();
    assert Run(Startup(), SWAPPED).surfaces[0].active;
    assert DeadAt(Run(Startup(), ABANDONED), 4, 4);
    assert Run(Startup(), ABANDONED).surfaces[0].active;
    assert Run(Startup(), GONE).windows[4] == Client(3, 0);
  }

  // ---------------------------------------------------------------- two panels

  const PANELS := TWO + [SetPanel(0, 1, 1024, 768, 40)] + [SetPanel(0, 2, 1024, 768, 40)]

  function Panel(id: nat, surface: int): Window
  {
    Window(id, 0, 728, 1024, 40, true, false, true, surface)
  }

  lemma Panels()
    ensures Run(Startup(), PANELS).windows == [TERMINAL, EDITOR, INFO, Panel(3, 0), Panel(4, 1)]
  {
    TwoSurfaces();
    RunNext(Startup(), TWO, SetPanel(0, 1, 1024, 768, 40));
    RunNext(Startup(), TWO + [SetPanel(0, 1, 1024, 768, 40)], SetPanel(0, 2, 1024, 768, 40));
  }

  /** Two panels share the bottom of the screen: the pointer finds the one that the other is painted over. */
  lemma HitMayMissThePaint(r: int)
    requires IsHit(Run(Startup(), PANELS).windows, 0, 767, r)
    ensures
      var ws := Run(Startup(), PANELS).windows;
      r == 3 && PaintedLast(ws, Layer(ws, false, |ws|) + Layer(ws, true, |ws|), 0, 767) == 4
  {
    Panels();
    var ws := Run(Startup(), PANELS).windows;
    assert PanelOver(ws, 0, 767, 3) && PanelOver(ws, 0, 767, 4);
    PaintedLastOfTwo(ws, Layer(ws, false, |ws|), Layer(ws, true, |ws|), 0, 767);
    PaintedLastOfLayer(ws, true, |ws|, 0, 767);
  }
}
