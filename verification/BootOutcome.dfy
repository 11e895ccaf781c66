/** Which services are up when the boot sequence is over. */
module BootOutcome {
  import opened Services
  import opened StartOrder
  import opened ServiceManager

  /** A boot that took `order` from the queue, one launch outcome for each. */
  ghost predicate Boot(ss: Table, launches: seq<Launch>, order: seq<nat>)
  {
    && Inv(ss) && FreshBoot(ss, launches) && Ordered(ss, order) && |order| <= |launches|
    && forall k | 0 <= k < |order| :: order[k] < |ss|
  }

  /** The table when the first `k` services have been taken. */
  ghost function After(ss: Table, launches: seq<Launch>, order: seq<nat>, k: nat): Table
    requires Boot(ss, launches, order) && k <= |order|
  {
    Booted(ss, launches, order[..k]).0
  }

  lemma AfterNext(ss: Table, launches: seq<Launch>, order: seq<nat>, k: nat)
    requires Boot(ss, launches, order) && k < |order|
    ensures After(ss, launches, order, k + 1) == Start(After(ss, launches, order, k), ss[order[k]].name, launches[k]).0
  {
    hide Start, Inv, FreshBoot;
    assert order[..k + 1] == order[..k] + [order[k]];
    BootedNext(ss, launches, order[..k], order[k]);
  }

  lemma {:induction false} AfterIsBooting(ss: Table, launches: seq<Launch>, order: seq<nat>, k: nat)
    requires Boot(ss, launches, order) && k <= |order|
    ensures Booting(ss, After(ss, launches, order, k), launches, order[..k])
  {
    hide Start, Booting, Booted, Inv, FreshBoot;
    if k == 0 {
      BootStart(ss, launches);
      NoNames(ss, launches);
      assert order[..0] == [];
    } else {
      AfterIsBooting(ss, launches, order, k - 1);
      AfterNext(ss, launches, order, k - 1);
      NotYet(ss, launches, order, k - 1);
      BootStep(ss, After(ss, launches, order, k - 1), launches, order[..k - 1], order[k - 1]);
      assert order[..k] == order[..k - 1] + [order[k - 1]];
    }
  }

  lemma NotYet(ss: Table, launches: seq<Launch>, order: seq<nat>, k: nat)
    requires Boot(ss, launches, order) && k < |order|
    ensures order[k] !in order[..k]
  {
    assert Distinct(order);
  }

  /** Taking a service changes its own entry and no other. */
  lemma OnlyItself(ss: Table, launches: seq<Launch>, order: seq<nat>, k: nat)
    requires Boot(ss, launches, order) && k < |order|
    ensures var now, next, x := After(ss, launches, order, k), After(ss, launches, order, k + 1), order[k];
      && |now| == |next| == |ss| && Inv(now) && SameTable(ss, now) && now[x] == ss[x]
      && (forall i | 0 <= i < |ss| && i != x :: next[i] == now[i])
      && (Live(next[x]) <==> launches[k].Forked? && DepsSatisfied(now, x))
  {
    hide DepsSatisfied, Inv;
    var now, x := After(ss, launches, order, k), order[k];
    AfterIsBooting(ss, launches, order, k);
    NotYet(ss, launches, order, k);
    AfterNext(ss, launches, order, k);
    BootShape(ss, now, launches, order[..k]);
    FreshPid(ss, now, launches, order[..k], launches[k]);
    StartKeepsInv(now, x, launches[k]);
  }

  lemma FreshPid(ss: Table, now: Table, launches: seq<Launch>, taken: seq<nat>, launch: Launch)
    requires FreshBoot(ss, launches) && Booting(ss, now, launches, taken) && |taken| < |launches| && launch == launches[|taken|]
    ensures Fresh(now, launch)
  {
  }

  /** An entry is settled once its service has been taken. */
  lemma {:induction false} Settled(ss: Table, launches: seq<Launch>, order: seq<nat>, k: nat, m: nat, i: nat)
    requires Boot(ss, launches, order) && k <= m <= |order| && i < |ss| && i !in order[k..m]
    ensures |After(ss, launches, order, k)| == |After(ss, launches, order, m)| == |ss|
    ensures After(ss, launches, order, m)[i] == After(ss, launches, order, k)[i]
    decreases m
  {
    hide Boot, After;
    if k < m {
      assert order[m - 1] == order[k..m][m - 1 - k];
      assert order[k..m - 1] == order[k..m][..m - 1 - k];
      Settled(ss, launches, order, k, m - 1, i);
      OnlyItself(ss, launches, order, m - 1);
    } else {
      SizeAfter(ss, launches, order, k);
    }
  }

  lemma SizeAfter(ss: Table, launches: seq<Launch>, order: seq<nat>, k: nat)
    requires Boot(ss, launches, order) && k <= |order|
    ensures var now := After(ss, launches, order, k);
      |now| == |ss| && Inv(now) && forall i | 0 <= i < |ss| :: now[i].name == ss[i].name && now[i].kind == ss[i].kind && now[i].depends == ss[i].depends
  {
    hide Inv;
    AfterIsBooting(ss, launches, order, k);
    var now := After(ss, launches, order, k);
    BootShape(ss, now, launches, order[..k]);
    assert forall i | 0 <= i < |ss| :: SameShape(ss[i], now[i]);
  }

  /** A dependency of the service taken at `k` is provided then exactly if it is provided in the end. */
  lemma ProvidedEarly(ss: Table, launches: seq<Launch>, order: seq<nat>, k: nat, d: string)
    requires Boot(ss, launches, order) && k < |order| && d in ss[order[k]].depends
    ensures Provided(After(ss, launches, order, k), d) <==> Provided(After(ss, launches, order, |order|), d)
  {
    hide After;
    var m: nat :| m < k && ss[order[m]].name == d;
    var j, n := order[m], |order|;
    assert j !in order[k..n] by {
      assert Distinct(order);
    }
    Settled(ss, launches, order, k, n, j);
    SizeAfter(ss, launches, order, k);
    SizeAfter(ss, launches, order, n);
    var now, end := After(ss, launches, order, k), After(ss, launches, order, n);
    assert now[j] == end[j] && now[j].name == d;
  }

  /**
   After a boot, a service is up if and only if it was taken, its launch forked, and all its
   dependencies are registered and, unless one-shot, running in the final table.
   */
  lemma UpExactly(ss: Table, launches: seq<Launch>, order: seq<nat>, i: nat)
    requires Boot(ss, launches, order) && i < |ss|
    ensures var end := Booted(ss, launches, order).0;
      && |end| == |ss|
      && (Live(end[i]) <==>
            exists k | 0 <= k < |order| :: order[k] == i && launches[k].Forked? && forall d | d in ss[i].depends :: Provided(end, d))
  {
    hide Booted, Inv, FreshBoot, Provided, DepsSatisfied;
    var n := |order|;
    var end := After(ss, launches, order, n);
    assert order[..n] == order;
    SizeAfter(ss, launches, order, n);
    if k: nat :| k < n && order[k] == i {
      var now := After(ss, launches, order, k);
      OnlyItself(ss, launches, order, k);
      assert i !in order[k + 1..n] by {
        assert Distinct(order);
      }
      Settled(ss, launches, order, k + 1, n, i);
      DependencyTestExactly(now, i);
      forall d | d in ss[i].depends
        ensures Provided(now, d) <==> Provided(end, d)
      {
        ProvidedEarly(ss, launches, order, k, d);
      }
      assert now[i].depends == ss[i].depends;
      assert forall m | 0 <= m < n && order[m] == i :: m == k by {
        assert Distinct(order);
      }
    } else {
      assert i !in order[0..n];
      Settled(ss, launches, order, 0, n, i);
      assert order[..0] == [];
      NoNames(ss, launches);
      NotUpAtFirst(ss, launches, i);
    }
  }

  lemma NotUpAtFirst(ss: Table, launches: seq<Launch>, i: nat)
    requires FreshBoot(ss, launches) && i < |ss|
    ensures !Live(ss[i])
  {
  }

  // ---------------------------------------------------------------- one-shot dependencies

  const ONE_SHOT := Service("a", Oneshot, [], false, 0, MAX_RESTARTS, false, 0, Stopped, 0, 0)
  const DEPENDENT := Service("b", Simple, ["a"], false, 0, MAX_RESTARTS, false, 0, Stopped, 0, 0)

  /** A service runs although the one-shot service it depends on has not finished. */
  lemma OneshotMayBeUnfinished()
    ensures
      var ss, launches := [ONE_SHOT, DEPENDENT], [Forked(10), Forked(11)];
      && Boot(ss, launches, [0, 1])
      && Booted(ss, launches, [0, 1]) == ([ONE_SHOT.(pid := 10, state := Starting), DEPENDENT.(pid := 11, state := Running)], 2)
  {
    var ss, launches := [ONE_SHOT, DEPENDENT], [Forked(10), Forked(11)];
    assert [0, 1][..1] == [0] && [0, 1][..0] == [] && [0][..0] == [];
    assert ss[[0][0]].name in Names(ss, [0]);
    var now := ss[0 := ONE_SHOT.(pid := 10, state := Starting)];
    assert "a"[0] != "b"[0];
    assert Find(ss, "a") == 0 && DepsSatisfied(ss, 0);
    assert Booted(ss, launches, []) == (ss, 0);
    assert Booted(ss, launches, [0]) == (now, 1);
    assert FindFrom(now, "b", 1) == 1 && Find(now, "b") == 1 && Find(now, "a") == 0;
    assert DepsSatisfied(now, 1);
    assert now[1 := DEPENDENT.(pid := 11, state := Running)]
        == [ONE_SHOT.(pid := 10, state := Starting), DEPENDENT.(pid := 11, state := Running)];
  }

  // ---------------------------------------------------------------- services of type NOTIFY

  /** Nothing ever sets a service of type NOTIFY to RUNNING. */
  predicate NoNotifyRuns(ss: Table)
  {
    forall i | 0 <= i < |ss| && ss[i].kind == Notify :: ss[i].state != Running
  }

  /** Service `x` is down and depends on service `j` of type NOTIFY. */
  predicate Stuck(ss: Table, x: nat, j: nat)
  {
    x < |ss| && j < |ss| && ss[j].kind == Notify && ss[j].name in ss[x].depends && !Live(ss[x])
  }

  lemma StuckIsUnsatisfied(ss: Table, x: nat, j: nat)
    requires Inv(ss) && NoNotifyRuns(ss) && Stuck(ss, x, j)
    ensures !Provided(ss, ss[j].name) && !DepsSatisfied(ss, x)
  {
    hide DepsSatisfied;
    DependencyTestExactly(ss, x);
    assert !Provided(ss, ss[j].name);
    var k :| 0 <= k < |ss[x].depends| && ss[x].depends[k] == ss[j].name;
  }

  lemma StartKeepsStuck(ss: Table, name: string, launch: Launch, x: nat, j: nat)
    requires Inv(ss) && NoNotifyRuns(ss) && Stuck(ss, x, j)
    ensures NoNotifyRuns(Start(ss, name, launch).0) && Stuck(Start(ss, name, launch).0, x, j)
  {
    hide DepsSatisfied;
    StuckIsUnsatisfied(ss, x, j);
  }

  lemma EventKeepsStuck(ss: Table, e: Event, x: nat, j: nat)
    requires Inv(ss) && NoNotifyRuns(ss) && Stuck(ss, x, j) && Possible(ss, e)
    ensures NoNotifyRuns(Apply(ss, e)) && Stuck(Apply(ss, e), x, j)
  {
    hide Start;
    match e
    case Exited(pid, code, launch) =>
      var i := Holder(ss, pid, 0);
      if i >= 0 {
        assert Sane(ss[i]);
        var s := ss[i].(exitCode := code, pid := 0);
        var stopped := s.(restartCount := s.restartCount + 1, state := Stopped);
        if Relaunches(s) {
          ExitedIsSane(ss[i], stopped);
          UpdateKeepsInv(ss, i, stopped);
          StartKeepsStuck(ss[i := stopped], s.name, launch, x, j);
        }
      }
    case Connected(fd, launch) =>
      var i := FindByListenFd(ss, fd, 0);
      if i >= 0 {
        StartKeepsStuck(ss, ss[i].name, launch, x, j);
      }
    case StopRequest(_) =>
  }

  lemma {:induction false} RunsKeepStuck(ss: Table, events: seq<Event>, x: nat, j: nat)
    requires Inv(ss) && NoNotifyRuns(ss) && Stuck(ss, x, j) && Run(ss, events)
    ensures Stuck(Final(ss, events), x, j)
    decreases |events|
  {
    hide Inv, Apply, Possible, Stuck;
    if events != [] {
      EventKeepsStuck(ss, events[0], x, j);
      EventKeepsInv(ss, events[0]);
      RunsKeepStuck(Apply(ss, events[0]), events[1..], x, j);
    }
  }

  lemma {:induction false} BootKeepsStuck(ss: Table, launches: seq<Launch>, order: seq<nat>, k: nat, x: nat, j: nat)
    requires Boot(ss, launches, order) && k <= |order| && Stuck(ss, x, j)
    ensures var now := After(ss, launches, order, k); NoNotifyRuns(now) && Stuck(now, x, j)
  {
    hide Start, Booted, Inv;
    if k == 0 {
      assert order[..0] == [];
      NoNames(ss, launches);
    } else {
      BootKeepsStuck(ss, launches, order, k - 1, x, j);
      SizeAfter(ss, launches, order, k - 1);
      AfterNext(ss, launches, order, k - 1);
      StartKeepsStuck(After(ss, launches, order, k - 1), ss[order[k - 1]].name, launches[k - 1], x, j);
    }
  }

  /** A service that depends on one of type NOTIFY is not started by the boot or by any run after it. */
  lemma NotifyDependentNeverStarts(ss: Table, launches: seq<Launch>, order: seq<nat>, events: seq<Event>, x: nat, j: nat)
    requires Boot(ss, launches, order) && x < |ss| && j < |ss|
    requires ss[j].kind == Notify && ss[j].name in ss[x].depends
    requires Run(Booted(ss, launches, order).0, events)
    ensures var end := Final(Booted(ss, launches, order).0, events); x < |end| && !Live(end[x])
  {
    hide Booted, Inv, Run, Final;
    assert order[..|order|] == order;
    BootKeepsStuck(ss, launches, order, |order|, x, j);
    SizeAfter(ss, launches, order, |order|);
    RunsKeepStuck(After(ss, launches, order, |order|), events, x, j);
  }
}
