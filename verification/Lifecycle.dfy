/** What a start, a stop request, an activation and an exit make of a service, state by state. */
module Lifecycle {
  import opened Services

  /** All other entries are untouched. */
  ghost predicate OnlyAt(ss: Table, tt: Table, k: nat)
  {
    |tt| == |ss| && forall i | 0 <= i < |ss| && i != k :: tt[i] == ss[i]
  }

  /** Every dependency is registered and, unless it is one-shot, running. */
  ghost predicate Supplied(ss: Table, k: nat)
    requires k < |ss|
  {
    forall n | 0 <= n < |ss[k].depends| :: Provided(ss, ss[k].depends[n])
  }

  /** How an attempt to start a stopped service ends. */
  ghost predicate StartedAs(ss: Table, k: nat, launch: Launch, t: Service)
    requires k < |ss|
  {
    if !Supplied(ss, k) then t == ss[k]
    else if launch.Forked? then t.pid == launch.pid && t.state == (if ss[k].kind == Simple then Running else Starting)
    else t.pid == 0 && t.state == Failed
  }

  /** Nothing but state, pid, exit code and restart count ever changes. */
  predicate SameService(s: Service, t: Service)
  {
    t == s.(state := t.state, pid := t.pid, exitCode := t.exitCode, restartCount := t.restartCount)
  }

  /** svc_start from STOPPED: up when it can be launched, failed when it cannot, still stopped when a dependency is missing. */
  lemma StartOutcome(ss: Table, k: nat, launch: Launch)
    requires Inv(ss) && k < |ss| && ss[k].state == Stopped
    ensures
      var (tt, ok) := Start(ss, ss[k].name, launch);
      && OnlyAt(ss, tt, k) && SameService(ss[k], tt[k]) && StartedAs(ss, k, launch, tt[k])
      && tt[k].restartCount == ss[k].restartCount && tt[k].exitCode == ss[k].exitCode
      && (ok <==> launch.Forked? && Supplied(ss, k))
  {
    hide DepsSatisfied, Provided, DistinctPids;
    assert Find(ss, ss[k].name) == k;
    DependencyTestExactly(ss, k);
    assert Sane(ss[k]);
  }

  /** A running service is not started again, and an unknown name starts nothing. */
  lemma StartElsewhere(ss: Table, k: nat, name: string, launch: Launch)
    requires Inv(ss) && k < |ss| && ss[k].state == Running && forall i | 0 <= i < |ss| :: ss[i].name != name
    ensures Start(ss, ss[k].name, launch) == (ss, true) && Start(ss, name, launch) == (ss, false)
  {
    assert Find(ss, ss[k].name) == k;
  }

  /** A stop request puts a service that runs or starts into STOPPING and leaves every other one alone. */
  lemma StopOutcome(ss: Table, k: nat)
    requires Inv(ss) && k < |ss|
    ensures
      var tt := Stop(ss, ss[k].name);
      && OnlyAt(ss, tt, k)
      && tt[k] == if ss[k].state == Running || ss[k].state == Starting then ss[k].(state := Stopping) else ss[k]
  {
    assert Find(ss, ss[k].name) == k;
  }

  lemma StopUnknown(ss: Table, name: string)
    requires forall i | 0 <= i < |ss| :: ss[i].name != name
    ensures Stop(ss, name) == ss
  {
  }

  /** A connection starts the stopped service that listens there; nothing happens when it is not stopped or nobody listens. */
  lemma ActivationOutcome(ss: Table, fd: int, launch: Launch, k: nat)
    requires Inv(ss)
    ensures (forall i | 0 <= i < |ss| :: !(ss[i].socketActivated && ss[i].listenFd == fd)) ==> Activate(ss, fd, launch) == ss
    ensures
      k < |ss| && ss[k].socketActivated && ss[k].listenFd == fd
      && (forall i | 0 <= i < k :: !(ss[i].socketActivated && ss[i].listenFd == fd)) ==>
        var tt := Activate(ss, fd, launch);
        OnlyAt(ss, tt, k) && if ss[k].state == Stopped then StartedAs(ss, k, launch, tt[k]) else tt[k] == ss[k]
  {
    hide Start, Supplied;
    if k < |ss| && ss[k].socketActivated && ss[k].listenFd == fd
       && forall i | 0 <= i < k :: !(ss[i].socketActivated && ss[i].listenFd == fd) {
      FirstListener(ss, fd, 0, k);
      if ss[k].state == Stopped {
        StartOutcome(ss, k, launch);
      }
    }
  }

  lemma {:induction false} FirstListener(ss: Table, fd: int, from: nat, k: nat)
    requires from <= k < |ss| && ss[k].socketActivated && ss[k].listenFd == fd
    requires forall i | from <= i < k :: !(ss[i].socketActivated && ss[i].listenFd == fd)
    ensures FindByListenFd(ss, fd, from) == k
    decreases k - from
  {
    if from < k {
      FirstListener(ss, fd, from + 1, k);
    }
  }

  lemma {:induction false} HolderIsFirst(ss: Table, pid: int, from: nat, k: nat)
    requires from <= k < |ss| && ss[k].pid == pid && forall i | from <= i < k :: ss[i].pid != pid
    ensures Holder(ss, pid, from) == k
    decreases k - from
  {
    if from < k {
      HolderIsFirst(ss, pid, from + 1, k);
    }
  }

  /** Only the service with a pid holds it. */
  lemma HolderOfLive(ss: Table, k: nat)
    requires Inv(ss) && k < |ss| && Live(ss[k])
    ensures ss[k].pid > 0 && Holder(ss, ss[k].pid, 0) == k
  {
    assert Sane(ss[k]);
    assert forall i | 0 <= i < |ss| :: Sane(ss[i]);
    HolderIsFirst(ss, ss[k].pid, 0, k);
  }

  /** The service as it stands when its process is gone and it is about to be relaunched. */
  function Reaped(s: Service, code: int): Service
  {
    s.(exitCode := code, pid := 0, restartCount := s.restartCount + 1, state := Stopped)
  }

  /**
   What an exit makes of the service whose process it was. One-shot: stopped if the code is 0, else
   failed. Asked to stop: stopped. Not to be restarted, or not again: failed. Otherwise one restart
   is counted and the service started anew.
   */
  ghost predicate ExitedAs(ss: Table, k: nat, code: int, launch: Launch, t: Service)
    requires k < |ss|
  {
    var s := ss[k];
    if s.kind == Oneshot then
      t == s.(exitCode := code, pid := 0, state := if code == 0 then Stopped else Failed)
    else if s.state == Stopping then
      t == s.(exitCode := code, pid := 0, state := Stopped)
    else if !s.autoRestart || s.restartCount >= s.maxRestarts then
      t == s.(exitCode := code, pid := 0, state := Failed)
    else
      t.restartCount == s.restartCount + 1 && t.exitCode == code && StartedAs(ss[k := Reaped(s, code)], k, launch, t)
  }

  /** svc_notify_exit for the process of a live service. */
  lemma ExitOutcome(ss: Table, k: nat, code: int, launch: Launch)
    requires Inv(ss) && k < |ss| && Live(ss[k])
    ensures
      var tt := NotifyExit(ss, ss[k].pid, code, launch);
      OnlyAt(ss, tt, k) && SameService(ss[k], tt[k]) && ExitedAs(ss, k, code, launch, tt[k])
  {
    hide Start, Supplied, Inv, Holder;
    HolderOfLive(ss, k);
    var s := ss[k].(exitCode := code, pid := 0);
    if Relaunches(s) {
      var r := Reaped(ss[k], code);
      assert r == s.(restartCount := s.restartCount + 1, state := Stopped);
      ReapedKeepsInv(ss, k, r);
      StartOutcome(ss[k := r], k, launch);
    }
  }

  lemma ReapedKeepsInv(ss: Table, k: nat, r: Service)
    requires Inv(ss) && k < |ss| && Live(ss[k]) && ss[k].kind != Oneshot && ss[k].restartCount < ss[k].maxRestarts
    requires SameService(ss[k], r) && r.pid == 0 && r.state == Stopped && r.restartCount == ss[k].restartCount + 1
    ensures Inv(ss[k := r])
  {
    assert Sane(ss[k]);
    UpdateKeepsInv(ss, k, r);
  }

  /** The exit of a process that no service holds changes nothing. */
  lemma StrangerExits(ss: Table, pid: int, code: int, launch: Launch)
    requires forall i | 0 <= i < |ss| :: ss[i].pid != pid
    ensures NotifyExit(ss, pid, code, launch) == ss
  {
  }

  /** A service that is not one-shot and was asked to stop is stopped when its process exits, whatever its restart policy. */
  lemma StopIsFinal(ss: Table, k: nat, code: int, launch: Launch)
    requires Inv(ss) && k < |ss| && (ss[k].state == Running || ss[k].state == Starting) && ss[k].kind != Oneshot
    ensures
      var tt := NotifyExit(Stop(ss, ss[k].name), ss[k].pid, code, launch);
      |tt| == |ss| && tt[k].state == Stopped && tt[k].pid == 0 && tt[k].restartCount == ss[k].restartCount
  {
    hide NotifyExit;
    var ms := Stop(ss, ss[k].name);
    StopOutcome(ss, k);
    assert Sane(ss[k]);
    assert ms == ss[k := ss[k].(state := Stopping)];
    UpdateKeepsInv(ss, k, ms[k]);
    ExitOutcome(ms, k, code, launch);
  }
}
