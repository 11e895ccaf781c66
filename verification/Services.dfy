/**
 The service table of citcinit: one service's life, the dependency test, and what holds in every
 state that the boot sequence and the event loop can reach.
 */
module Services {

  const MAX_SERVICES := 64
  const MAX_RESTARTS := 5

  datatype Kind = Simple | Oneshot | Notify

  datatype State = Stopped | Starting | Running | Stopping | Failed

  datatype Service = Service(
    name: string,
    kind: Kind,
    depends: seq<string>,
    autoRestart: bool,
    restartCount: nat,
    maxRestarts: nat,
    socketActivated: bool,
    listenFd: int,
    state: State,
    pid: int,
    exitCode: int)

  type Table = seq<Service>

  /** What the system does when a service is to be launched. */
  datatype Launch = NoExecutable | ForkFails | Forked(pid: int)

  // ---------------------------------------------------------------- lookup

  function Find(ss: Table, name: string): (i: int)
    ensures i >= 0 ==> i < |ss| && ss[i].name == name && forall k | 0 <= k < i :: ss[k].name != name
    ensures i < 0 ==> forall k | 0 <= k < |ss| :: ss[k].name != name
  {
    FindFrom(ss, name, 0)
  }

  function FindFrom(ss: Table, name: string, from: nat): (i: int)
    requires from <= |ss|
    ensures i >= 0 ==> from <= i < |ss| && ss[i].name == name && forall k | from <= k < i :: ss[k].name != name
    ensures i < 0 ==> forall k | from <= k < |ss| :: ss[k].name != name
    decreases |ss| - from
  {
    if from == |ss| then -1 else if ss[from].name == name then from else FindFrom(ss, name, from + 1)
  }

  ghost predicate UniqueNames(ss: Table)
  {
    forall i, j | 0 <= i < j < |ss| :: ss[i].name != ss[j].name
  }

  // ---------------------------------------------------------------- operations on the table

  /** deps_satisfied for one dependency name. */
  predicate DepSatisfied(ss: Table, d: string)
  {
    var i := Find(ss, d);
    && i >= 0
    && var dep := ss[i];
       if dep.kind == Oneshot then
         !((dep.state != Stopped || dep.exitCode != 0) && dep.state == Stopped && dep.pid == 0 && dep.restartCount == 0)
       else dep.state == Running
  }

  predicate DepsSatisfied(ss: Table, i: nat)
    requires i < |ss|
  {
    forall k | 0 <= k < |ss[i].depends| :: DepSatisfied(ss, ss[i].depends[k])
  }

  /** svc_start on the service at `i`; the flag is true for result 0. */
  function StartAt(ss: Table, i: nat, launch: Launch): (Table, bool)
    requires i < |ss|
  {
    if ss[i].state == Running then (ss, true)
    else if !DepsSatisfied(ss, i) then (ss, false)
    else
      match launch
      case NoExecutable => (ss[i := ss[i].(state := Failed)], false)
      case ForkFails => (ss[i := ss[i].(state := Failed)], false)
      case Forked(pid) => (ss[i := ss[i].(pid := pid, state := if ss[i].kind == Simple then Running else Starting)], true)
  }

  function Start(ss: Table, name: string, launch: Launch): (Table, bool)
  {
    var i := Find(ss, name);
    if i < 0 then (ss, false) else StartAt(ss, i, launch)
  }

  function Stop(ss: Table, name: string): Table
  {
    var i := Find(ss, name);
    if i < 0 || (ss[i].state != Running && ss[i].state != Starting) then ss
    else ss[i := ss[i].(state := Stopping)]
  }

  /** The first service with this pid, -1 when there is none. */
  function Holder(ss: Table, pid: int, from: nat): (i: int)
    requires from <= |ss|
    ensures i >= 0 ==> from <= i < |ss| && ss[i].pid == pid
    ensures i < 0 ==> forall k | from <= k < |ss| :: ss[k].pid != pid
    decreases |ss| - from
  {
    if from == |ss| then -1 else if ss[from].pid == pid then from else Holder(ss, pid, from + 1)
  }

  /** An exit that was not asked for and that the restart policy answers with a relaunch. */
  predicate Relaunches(s: Service)
  {
    s.kind != Oneshot && s.state != Stopping && s.autoRestart && s.restartCount < s.maxRestarts
  }

  /** svc_notify_exit: `launch` is used only when the service is relaunched. */
  function NotifyExit(ss: Table, pid: int, code: int, launch: Launch): Table
  {
    var i := Holder(ss, pid, 0);
    if i < 0 then ss else
    var s := ss[i].(exitCode := code, pid := 0);
    if s.kind == Oneshot then ss[i := s.(state := if code == 0 then Stopped else Failed)]
    else if s.state == Stopping then ss[i := s.(state := Stopped)]
    else if Relaunches(s) then
      Start(ss[i := s.(restartCount := s.restartCount + 1, state := Stopped)], s.name, launch).0
    else ss[i := s.(state := Failed)]
  }

  function FindByListenFd(ss: Table, fd: int, from: nat): (i: int)
    requires from <= |ss|
    ensures i >= 0 ==> from <= i < |ss| && ss[i].socketActivated && ss[i].listenFd == fd
    decreases |ss| - from
  {
    if from == |ss| then -1
    else if ss[from].socketActivated && ss[from].listenFd == fd then from
    else FindByListenFd(ss, fd, from + 1)
  }

  /** A connection on a listening socket: only a stopped service is started. */
  function Activate(ss: Table, fd: int, launch: Launch): Table
  {
    var i := FindByListenFd(ss, fd, 0);
    if i < 0 || ss[i].state != Stopped then ss else Start(ss, ss[i].name, launch).0
  }

  // ---------------------------------------------------------------- the invariant

  predicate Live(s: Service)
  {
    s.state == Starting || s.state == Running || s.state == Stopping
  }

  predicate Sane(s: Service)
  {
    && (if Live(s) then s.pid > 0 else s.pid == 0)
    && s.restartCount <= s.maxRestarts
    && (s.kind == Oneshot && s.state == Stopped ==> s.exitCode == 0)
  }

  ghost predicate DistinctPids(ss: Table)
  {
    forall i, j | 0 <= i < j < |ss| && Live(ss[i]) && Live(ss[j]) :: ss[i].pid != ss[j].pid
  }

  ghost predicate Inv(ss: Table)
  {
    UniqueNames(ss) && (forall i | 0 <= i < |ss| :: Sane(ss[i])) && DistinctPids(ss)
  }

  /** fork returns a pid that no live child holds. */
  predicate Fresh(ss: Table, launch: Launch)
  {
    launch.Forked? ==> launch.pid > 0 && forall i | 0 <= i < |ss| :: ss[i].pid != launch.pid
  }

  /** The same when the child with this pid has just been reaped: its number may come back at once. */
  predicate FreshAfter(ss: Table, pid: int, launch: Launch)
  {
    launch.Forked? ==> launch.pid > 0 && forall i | 0 <= i < |ss| && ss[i].pid != pid :: ss[i].pid != launch.pid
  }

  /** What nothing changes after registration. */
  predicate SameShape(s: Service, t: Service)
  {
    t.name == s.name && t.kind == s.kind && t.depends == s.depends && t.autoRestart == s.autoRestart
    && t.maxRestarts == s.maxRestarts && t.socketActivated == s.socketActivated && t.listenFd == s.listenFd
  }

  ghost predicate SameTable(ss: Table, tt: Table)
  {
    |ss| == |tt| && forall i | 0 <= i < |ss| :: SameShape(ss[i], tt[i])
  }

  lemma UpdateKeepsInv(ss: Table, i: nat, t: Service)
    requires Inv(ss) && i < |ss| && SameShape(ss[i], t) && Sane(t)
    requires Live(t) ==> forall k | 0 <= k < |ss| && k != i :: ss[k].pid != t.pid
    ensures Inv(ss[i := t]) && SameTable(ss, ss[i := t])
  {
  }

  /** svc_start keeps the invariant when it is reached from STOPPED; its own guard covers only RUNNING. */
  lemma StartKeepsInv(ss: Table, i: nat, launch: Launch)
    requires Inv(ss) && i < |ss| && ss[i].state == Stopped && Fresh(ss, launch)
    ensures Find(ss, ss[i].name) == i
    ensures
      var (tt, ok) := Start(ss, ss[i].name, launch);
      && Inv(tt) && SameTable(ss, tt)
      && tt[i].restartCount == ss[i].restartCount
      && forall k | 0 <= k < |ss| && k != i :: tt[k] == ss[k]
  {
    hide DepsSatisfied;
    assert Find(ss, ss[i].name) == i;
    hide Find, FindFrom;
    var tt := Start(ss, ss[i].name, launch).0;
    if tt != ss {
      UpdateKeepsInv(ss, i, tt[i]);
    }
  }

  /**
   Exactly when the guard of svc_start is enough: with its dependencies satisfied, a service may be
   started without breaking the invariant, whatever the launch does, unless it is STARTING or STOPPING.
   */
  lemma StartIsSafeExactly(ss: Table, i: nat)
    requires Inv(ss) && i < |ss| && DepsSatisfied(ss, i)
    ensures (forall launch | Fresh(ss, launch) :: Inv(Start(ss, ss[i].name, launch).0))
       <==> ss[i].state != Starting && ss[i].state != Stopping
  {
    assert Find(ss, ss[i].name) == i;
    if ss[i].state == Starting || ss[i].state == Stopping {
      assert Fresh(ss, NoExecutable);
      assert !Sane(Start(ss, ss[i].name, NoExecutable).0[i]);
    }
  }

  // ---------------------------------------------------------------- events

  datatype Event =
    | Exited(pid: int, code: int, launch: Launch)
    | Connected(fd: int, launch: Launch)
    | StopRequest(name: string)

  ghost predicate Possible(ss: Table, e: Event)
  {
    match e
    case Exited(pid, _, launch) => pid > 0 && FreshAfter(ss, pid, launch)
    case Connected(_, launch) => Fresh(ss, launch)
    case StopRequest(_) => true
  }

  function Apply(ss: Table, e: Event): Table
  {
    match e
    case Exited(pid, code, launch) => NotifyExit(ss, pid, code, launch)
    case Connected(fd, launch) => Activate(ss, fd, launch)
    case StopRequest(name) => Stop(ss, name)
  }

  /** The service that an event relaunches automatically, -1 for none. */
  function Relaunched(ss: Table, e: Event): int
  {
    if e.Exited? && Holder(ss, e.pid, 0) >= 0 && Relaunches(ss[Holder(ss, e.pid, 0)]) then Holder(ss, e.pid, 0) else -1
  }

  lemma ReapedIsFresh(ss: Table, i: nat, t: Service, launch: Launch)
    requires Inv(ss) && i < |ss| && ss[i].pid > 0 && t.pid == 0 && FreshAfter(ss, ss[i].pid, launch)
    ensures Fresh(ss[i := t], launch)
  {
    assert Sane(ss[i]);
    assert forall k | 0 <= k < |ss| && k != i :: Sane(ss[k]) ==> ss[k].pid != ss[i].pid;
  }

  lemma ExitKeepsInv(ss: Table, pid: int, code: int, launch: Launch)
    requires Inv(ss) && pid > 0 && FreshAfter(ss, pid, launch)
    ensures
      var tt := NotifyExit(ss, pid, code, launch);
      && Inv(tt) && SameTable(ss, tt)
      && forall k | 0 <= k < |ss| ::
           && (ss[k].state == Failed ==> tt[k] == ss[k])
           && tt[k].restartCount == ss[k].restartCount + if k == Relaunched(ss, Exited(pid, code, launch)) then 1 else 0
  {
    hide Start, Find, Sane;
    var i := Holder(ss, pid, 0);
    if i >= 0 {
      var s := ss[i].(exitCode := code, pid := 0);
      if Relaunches(s) {
        var stopped := s.(restartCount := s.restartCount + 1, state := Stopped);
        ExitedIsSane(ss[i], stopped);
        UpdateKeepsInv(ss, i, stopped);
        ReapedIsFresh(ss, i, stopped, launch);
        StartKeepsInv(ss[i := stopped], i, launch);
      } else {
        var t := NotifyExit(ss, pid, code, launch)[i];
        ExitedIsSane(ss[i], t);
        UpdateKeepsInv(ss, i, t);
      }
    }
  }

  /** A service that has lost its process has pid 0 and is live no more. */
  lemma ExitedIsSane(s: Service, t: Service)
    requires Sane(s) && s.pid != 0 && t.pid == 0 && t.kind == s.kind && t.maxRestarts == s.maxRestarts
    requires (t.restartCount == s.restartCount || t.restartCount <= t.maxRestarts) && (t.state == Stopped || t.state == Failed)
    requires t.kind == Oneshot && t.state == Stopped ==> t.exitCode == 0
    ensures Sane(t) && !Live(t) && s.state != Failed
  {
  }

  /** One event: the invariant stays, FAILED is never left, and only relaunches count. */
  lemma EventKeepsInv(ss: Table, e: Event)
    requires Inv(ss) && Possible(ss, e)
    ensures
      var tt := Apply(ss, e);
      && Inv(tt) && SameTable(ss, tt)
      && forall k | 0 <= k < |ss| ::
           && (ss[k].state == Failed ==> tt[k] == ss[k])
           && tt[k].restartCount == ss[k].restartCount + if k == Relaunched(ss, e) then 1 else 0
  {
    match e {
      case Exited(pid, code, launch) =>
        ExitKeepsInv(ss, pid, code, launch);
      case Connected(fd, launch) =>
        var i := FindByListenFd(ss, fd, 0);
        if i >= 0 && ss[i].state == Stopped {
          StartKeepsInv(ss, i, launch);
        }
      case StopRequest(name) =>
    }
  }

  // ---------------------------------------------------------------- runs

  ghost predicate Run(ss: Table, events: seq<Event>)
    decreases |events|
  {
    events == [] || (Possible(ss, events[0]) && Run(Apply(ss, events[0]), events[1..]))
  }

  function Final(ss: Table, events: seq<Event>): Table
    decreases |events|
  {
    if events == [] then ss else Final(Apply(ss, events[0]), events[1..])
  }

  /** How often a run relaunches service `i` on its own. */
  function RelaunchCount(ss: Table, events: seq<Event>, i: nat): nat
    decreases |events|
  {
    if events == [] then 0
    else (if Relaunched(ss, events[0]) == i then 1 else 0) + RelaunchCount(Apply(ss, events[0]), events[1..], i)
  }

  /**
   Every run of the event loop: a service holds a pid exactly while it is live, live pids are
   distinct, FAILED is final, and a service is relaunched at most `maxRestarts` times.
   */
  lemma {:induction false} RunsKeepInv(ss: Table, events: seq<Event>, i: nat)
    requires Inv(ss) && Run(ss, events) && i < |ss|
    ensures
      var tt := Final(ss, events);
      && Inv(tt) && SameTable(ss, tt)
      && (ss[i].state == Failed ==> tt[i] == ss[i])
      && tt[i].restartCount == ss[i].restartCount + RelaunchCount(ss, events, i)
      && RelaunchCount(ss, events, i) <= ss[i].maxRestarts - ss[i].restartCount
    decreases |events|
  {
    hide Apply, Possible, Inv;
    if events != [] {
      EventKeepsInv(ss, events[0]);
      RunsKeepInv(Apply(ss, events[0]), events[1..], i);
    }
    InvMeans(Final(ss, events), i);
  }

  lemma InvMeans(ss: Table, i: nat)
    requires Inv(ss) && i < |ss|
    ensures ss[i].restartCount <= ss[i].maxRestarts
    ensures (ss[i].pid != 0 <==> Live(ss[i]))
  {
  }

  /** A dependency is registered and, unless it is one-shot, running. */
  ghost predicate Provided(ss: Table, d: string)
  {
    exists j | 0 <= j < |ss| :: ss[j].name == d && (ss[j].kind == Oneshot || ss[j].state == Running)
  }

  /**
   The dependency test in every reachable state: dependencies must be registered, and those that
   are not one-shot must run. One-shot dependencies never hold a service back, run or not.
   */
  lemma DependencyTestExactly(ss: Table, i: nat)
    requires Inv(ss) && i < |ss|
    ensures DepsSatisfied(ss, i) <==> forall k | 0 <= k < |ss[i].depends| :: Provided(ss, ss[i].depends[k])
  {
    forall d: string
      ensures DepSatisfied(ss, d) <==> Provided(ss, d)
    {
      var j := Find(ss, d);
      if j >= 0 {
        assert Sane(ss[j]);
      }
    }
  }
}
