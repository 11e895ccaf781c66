/**
 The service manager of citcinit as it runs: a table updated in place, registration, launching,
 exit handling, and the queue of svc_start_all with its counters.
 */
module ServiceManager {
  import opened Services
  import opened StartOrder

  const NAME_MAX := 64

  // ---------------------------------------------------------------- unmet dependencies

  /** How many entries of a dependency list are not yet satisfied. */
  function Unmet(deps: seq<string>, met: set<string>): nat
  {
    if deps == [] then 0 else (if deps[0] in met then 0 else 1) + Unmet(deps[1..], met)
  }

  lemma {:induction false} UnmetSplit(a: seq<string>, b: seq<string>, met: set<string>)
    ensures Unmet(a + b, met) == Unmet(a, met) + Unmet(b, met)
  {
    if a == [] {
      assert a + b == b;
    } else {
      assert (a + b)[1..] == a[1..] + b;
      UnmetSplit(a[1..], b, met);
    }
  }

  lemma {:induction false} UnmetZero(deps: seq<string>, met: set<string>)
    ensures Unmet(deps, met) == 0 <==> forall d | d in deps :: d in met
  {
    if deps != [] {
      UnmetZero(deps[1..], met);
      assert deps == [deps[0]] + deps[1..];
    }
  }

  lemma {:induction false} UnmetNone(deps: seq<string>)
    ensures Unmet(deps, {}) == |deps|
  {
    if deps != [] {
      UnmetNone(deps[1..]);
    }
  }

  /** Advancing over entry `j` while `x` becomes satisfied. */
  lemma UnmetAdvance(deps: seq<string>, j: nat, met: set<string>, x: string)
    requires j < |deps| && x !in met
    ensures
      Unmet(deps[..j + 1], met + {x}) + Unmet(deps[j + 1..], met)
      == Unmet(deps[..j], met + {x}) + Unmet(deps[j..], met) - if deps[j] == x then 1 else 0
  {
    assert deps[..j + 1] == deps[..j] + [deps[j]];
    UnmetSplit(deps[..j], [deps[j]], met + {x});
    assert Unmet([deps[j]], met + {x}) == (if deps[j] in met + {x} then 0 else 1) + Unmet([], met + {x});
    assert deps[j..][1..] == deps[j + 1..];
  }

  // ---------------------------------------------------------------- the queue

  /** The queue holds, once each and behind their dependencies, the services without unmet ones. */
  ghost predicate Queue(ss: Table, inDegree: seq<int>, queue: seq<nat>)
  {
    && |inDegree| == |ss|
    && Distinct(queue)
    && (forall k | 0 <= k < |queue| :: queue[k] < |ss|)
    && (forall i: nat | i < |ss| :: inDegree[i] == 0 <==> i in queue)
    && (forall k | 0 <= k < |queue| :: forall d | d in ss[queue[k]].depends :: d in Names(ss, queue[..k]))
  }

  lemma QueueIsShort(ss: Table, inDegree: seq<int>, queue: seq<nat>)
    requires Queue(ss, inDegree, queue)
    ensures |queue| <= |ss|
  {
    if |queue| > |ss| {
      Pigeonhole(queue, |ss|);
    }
  }

  lemma QueuePush(ss: Table, before: seq<int>, queue: seq<nat>, i: nat)
    requires Queue(ss, before, queue) && i < |ss| && before[i] == 1
    requires forall d | d in ss[i].depends :: d in Names(ss, queue)
    ensures |queue| < |ss|
    ensures Queue(ss, before[i := 0], queue + [i])
  {
    var q := queue + [i];
    forall k | 0 <= k < |q|
      ensures forall d | d in ss[q[k]].depends :: d in Names(ss, q[..k])
    {
      if k == |queue| {
        assert q[..k] == queue;
      } else {
        assert q[..k] == queue[..k];
      }
    }
    assert Queue(ss, before[i := 0], q);
    QueueIsShort(ss, before[i := 0], q);
  }

  lemma QueueKeeps(ss: Table, before: seq<int>, queue: seq<nat>, i: nat)
    requires Queue(ss, before, queue) && i < |ss| && before[i] > 1
    ensures Queue(ss, before[i := before[i] - 1], queue)
  {
  }

  /**
   The nested loop of svc_start_all: service `x` has been taken from the queue, so every list that
   names it has fewer unmet entries, and lists that become satisfied enter the queue.
   */
  method Release(ss: Table, x: nat, inDegree: array<int>, queue: array<nat>, qBack: nat, ghost met: set<string>) returns (back: nat)
    requires UniqueNames(ss) && x < |ss| && inDegree.Length == queue.Length == |ss| && qBack <= |ss|
    requires Queue(ss, inDegree[..], queue[..qBack])
    requires ss[x].name !in met && forall d | d in met + {ss[x].name} :: d in Names(ss, queue[..qBack])
    requires forall i | 0 <= i < |ss| :: inDegree[i] == Unmet(ss[i].depends, met)
    modifies inDegree, queue
    ensures qBack <= back <= |ss| && queue[..qBack] == old(queue[..qBack])
    ensures Queue(ss, inDegree[..], queue[..back])
    ensures forall i | 0 <= i < |ss| :: inDegree[i] == Unmet(ss[i].depends, met + {ss[x].name})
  {
    hide Queue, Names, Unmet;
    var name := ss[x].name;
    back := qBack;
    for i := 0 to |ss|
      invariant qBack <= back <= |ss| && queue[..qBack] == old(queue[..qBack])
      invariant Queue(ss, inDegree[..], queue[..back])
      invariant forall k | 0 <= k < i :: inDegree[k] == Unmet(ss[k].depends, met + {name})
      invariant forall k | i <= k < |ss| :: inDegree[k] == Unmet(ss[k].depends, met)
    {
      ghost var q, b := queue[..back], back;
      back := ReleaseRow(ss, name, i, inDegree, queue, qBack, back, met);
      assert queue[..qBack] == queue[..b][..qBack] == q[..qBack];
    }
  }

  method ReleaseRow(ss: Table, name: string, i: nat, inDegree: array<int>, queue: array<nat>, ghost qBack: nat, back0: nat, ghost met: set<string>)
    returns (back: nat)
    requires i < |ss| && inDegree.Length == queue.Length == |ss| && qBack <= back0 <= |ss|
    requires Queue(ss, inDegree[..], queue[..back0])
    requires name !in met && forall d | d in met + {name} :: d in Names(ss, queue[..qBack])
    requires inDegree[i] == Unmet(ss[i].depends, met)
    modifies inDegree, queue
    ensures back0 <= back <= |ss| && queue[..back0] == old(queue[..back0])
    ensures Queue(ss, inDegree[..], queue[..back])
    ensures inDegree[i] == Unmet(ss[i].depends, met + {name})
    ensures forall k | 0 <= k < |ss| && k != i :: inDegree[k] == old(inDegree[k])
  {
    hide Queue, Names, Unmet;
    var deps := ss[i].depends;
    ghost var met', first := met + {name}, queue[..qBack];
    back := back0;
    assert deps[..0] == [] && deps[0..] == deps;
    NothingUnmet(met');
    for j := 0 to |deps|
      invariant back0 <= back <= |ss| && queue[..back0] == old(queue[..back0])
      invariant Queue(ss, inDegree[..], queue[..back])
      invariant inDegree[i] == Unmet(deps[..j], met') + Unmet(deps[j..], met)
      invariant forall k | 0 <= k < |ss| && k != i :: inDegree[k] == old(inDegree[k])
    {
      UnmetAdvance(deps, j, met, name);
      if deps[j] == name {
        ghost var before := inDegree[..];
        inDegree[i] := inDegree[i] - 1;
        assert inDegree[..] == before[i := before[i] - 1];
        if inDegree[i] == 0 {
          assert queue[..back][..qBack] == queue[..back0][..qBack] == first;
          AllMet(ss, deps, j + 1, met, met', queue[..back], qBack);
          QueuePush(ss, before, queue[..back], i);
          queue[back] := i;
          assert queue[..back + 1] == queue[..back] + [i];
          back := back + 1;
        } else {
          QueueKeeps(ss, before, queue[..back], i);
        }
      }
    }
    assert deps[..|deps|] == deps && deps[|deps|..] == [];
    NothingUnmet(met);
  }

  lemma NothingUnmet(met: set<string>)
    ensures Unmet([], met) == 0
  {
  }

  lemma AllMet(ss: Table, deps: seq<string>, j: nat, met: set<string>, met': set<string>, queue: seq<nat>, qBack: nat)
    requires j <= |deps| && met <= met' && qBack <= |queue|
    requires Unmet(deps[..j], met') + Unmet(deps[j..], met) == 0
    requires forall d | d in met' :: d in Names(ss, queue[..qBack])
    ensures forall d | d in deps :: d in Names(ss, queue)
  {
    UnmetZero(deps[..j], met');
    UnmetZero(deps[j..], met);
    assert deps == deps[..j] + deps[j..];
    forall d | d in met'
      ensures d in Names(ss, queue)
    {
      var k: nat :| k < qBack && queue[..qBack][k] < |ss| && ss[queue[..qBack][k]].name == d;
      assert queue[k] < |ss| && ss[queue[k]].name == d;
    }
  }

  // ---------------------------------------------------------------- boot

  /** Launch outcomes of a boot: fork never returns the same pid twice. */
  predicate FreshBoot(ss: Table, launches: seq<Launch>)
  {
    && (forall i | 0 <= i < |ss| :: ss[i].state == Stopped)
    && (forall k | 0 <= k < |launches| && launches[k].Forked? :: launches[k].pid > 0)
    && (forall k, m | 0 <= k < m < |launches| && launches[k].Forked? && launches[m].Forked? :: launches[k].pid != launches[m].pid)
  }

  /** The table and the number of successes after starting the services of `taken` in this order. */
  function Booted(ss: Table, launches: seq<Launch>, taken: seq<nat>): (Table, nat)
    requires |taken| <= |launches| && forall k | 0 <= k < |taken| :: taken[k] < |ss|
    decreases |taken|
  {
    if taken == [] then (ss, 0) else
    var n := |taken| - 1;
    var (before, count) := Booted(ss, launches, taken[..n]);
    var (after, ok) := Start(before, ss[taken[n]].name, launches[n]);
    (after, count + if ok then 1 else 0)
  }

  /** After these launches, only they have handed out pids, and whatever was not taken is untouched. */
  ghost predicate Booting(ss: Table, now: Table, launches: seq<Launch>, taken: seq<nat>)
  {
    && Inv(now) && SameTable(ss, now) && |taken| <= |launches|
    && (forall i: nat | i < |now| && i !in taken :: now[i] == ss[i])
    && (forall i: nat | i < |now| && now[i].pid != 0 ::
          exists k | 0 <= k < |taken| :: launches[k].Forked? && launches[k].pid == now[i].pid)
  }

  lemma BootStep(ss: Table, now: Table, launches: seq<Launch>, taken: seq<nat>, x: nat)
    requires FreshBoot(ss, launches) && Booting(ss, now, launches, taken)
    requires x < |ss| && x !in taken && |taken| < |launches|
    ensures Booting(ss, Start(now, ss[x].name, launches[|taken|]).0, launches, taken + [x])
  {
    var launch := launches[|taken|];
    assert SameShape(ss[x], now[x]);
    assert Fresh(now, launch);
    StartKeepsInv(now, x, launch);
    var next := Start(now, ss[x].name, launch).0;
    assert next[x].pid != 0 ==> next[x].pid == now[x].pid || (launch.Forked? && next[x].pid == launch.pid);
    hide Start, Inv;
    forall i: nat | i < |next| && next[i].pid != 0
      ensures exists k | 0 <= k < |taken| + 1 :: launches[k].Forked? && launches[k].pid == next[i].pid
    {
      if next[i].pid == now[i].pid {
        var k :| 0 <= k < |taken| && launches[k].Forked? && launches[k].pid == now[i].pid;
      }
    }
  }

  /** A stored name is cut to 63 characters. */
  function Stored(name: string): string
  {
    if |name| < NAME_MAX then name else name[..NAME_MAX - 1]
  }

  function NewService(name: string, kind: Kind, autoRestart: bool): Service
  {
    Service(Stored(name), kind, [], autoRestart, 0, MAX_RESTARTS, false, 0, Stopped, 0, 0)
  }

  /**
   Registration compares the full name but stores the cut one: names stay unique if and only if
   the cut name is new. That is certain for names of at most 63 characters.
   */
  lemma RegistrationIsUnique(ss: Table, name: string, kind: Kind, autoRestart: bool)
    requires UniqueNames(ss) && Find(ss, name) < 0
    ensures UniqueNames(ss + [NewService(name, kind, autoRestart)]) <==> Find(ss, Stored(name)) < 0
    ensures |name| < NAME_MAX ==> UniqueNames(ss + [NewService(name, kind, autoRestart)])
  {
    var tt := ss + [NewService(name, kind, autoRestart)];
    var i := Find(ss, Stored(name));
    if i >= 0 {
      assert tt[i].name == tt[|ss|].name;
    }
  }

  function Xs(n: nat): (r: string)
    ensures |r| == n
  {
    seq(n, _ => 'x')
  }

  /** Two different names that agree in their first 63 characters are both registered, under one name. */
  lemma LongNamesCollide(kind: Kind, autoRestart: bool)
    ensures
      var a, b := Xs(63) + "a", Xs(63) + "b";
      var one := [NewService(a, kind, autoRestart)];
      a != b && UniqueNames(one) && Find(one, b) < 0 && !UniqueNames(one + [NewService(b, kind, autoRestart)])
  {
    var a, b := Xs(63) + "a", Xs(63) + "b";
    assert a[63] != b[63];
    assert Stored(a) == Xs(63) == Stored(b);
    var one := [NewService(a, kind, autoRestart)];
    assert |one[0].name| != |b|;
    RegistrationIsUnique(one, b, kind, autoRestart);
  }

  // ---------------------------------------------------------------- the steps of svc_start_all

  method Fill(ss: Table, inDegree: array<int>, queue: array<nat>) returns (qBack: nat)
    requires inDegree.Length == queue.Length == |ss|
    modifies inDegree, queue
    ensures qBack <= |ss| && Queue(ss, inDegree[..], queue[..qBack])
    ensures forall i | 0 <= i < |ss| :: inDegree[i] == Unmet(ss[i].depends, {})
  {
    for i := 0 to |ss|
      invariant forall k | 0 <= k < i :: inDegree[k] == |ss[k].depends|
    {
      inDegree[i] := |ss[i].depends|;
    }
    qBack := 0;
    for i := 0 to |ss|
      invariant qBack <= i
      invariant forall k | 0 <= k < qBack :: queue[k] < i && ss[queue[k]].depends == []
      invariant forall k, m | 0 <= k < m < qBack :: queue[k] < queue[m]
      invariant forall k: nat | k < i && ss[k].depends == [] :: k in queue[..qBack]
      invariant forall k | 0 <= k < |ss| :: inDegree[k] == |ss[k].depends|
    {
      if inDegree[i] == 0 {
        queue[qBack] := i;
        assert queue[..qBack + 1] == queue[..qBack] + [i];
        qBack := qBack + 1;
      }
    }
    forall i | 0 <= i < |ss|
      ensures inDegree[i] == Unmet(ss[i].depends, {})
    {
      UnmetNone(ss[i].depends);
    }
  }

  lemma NoNames(ss: Table, launches: seq<Launch>)
    ensures Names(ss, []) == {} && Booted(ss, launches, []) == (ss, 0)
  {
  }

  lemma BootedNext(ss: Table, launches: seq<Launch>, taken: seq<nat>, x: nat)
    requires |taken| < |launches| && x < |ss| && forall k | 0 <= k < |taken| :: taken[k] < |ss|
    ensures
      var (before, count) := Booted(ss, launches, taken);
      var (after, ok) := Start(before, ss[x].name, launches[|taken|]);
      Booted(ss, launches, taken + [x]) == (after, count + if ok then 1 else 0)
  {
    hide Start;
    assert (taken + [x])[..|taken|] == taken;
  }

  lemma QueueInRange(ss: Table, inDegree: seq<int>, queue: seq<nat>)
    requires Queue(ss, inDegree, queue)
    ensures |queue| <= |ss| && forall k | 0 <= k < |queue| :: queue[k] < |ss|
  {
    QueueIsShort(ss, inDegree, queue);
  }

  lemma BootStart(ss: Table, launches: seq<Launch>)
    requires Inv(ss) && FreshBoot(ss, launches)
    ensures Booting(ss, ss, launches, [])
  {
  }

  /** What is known of the service at the front of the queue. */
  lemma TakeNext(ss: Table, inDegree: seq<int>, q: seq<nat>, f: nat)
    requires UniqueNames(ss) && Queue(ss, inDegree, q) && f < |q|
    ensures q[f] < |ss| && q[f] !in q[..f] && ss[q[f]].name !in Names(ss, q[..f])
    ensures Names(ss, q[..f + 1]) == Names(ss, q[..f]) + {ss[q[f]].name}
    ensures Names(ss, q[..f + 1]) <= Names(ss, q)
  {
    assert forall k: nat | k < f :: q[..f][k] == q[k] == q[..f + 1][k];
    assert q[..f + 1][f] == q[f];
    forall d | d in Names(ss, q[..f + 1])
      ensures d in Names(ss, q) && d in Names(ss, q[..f]) + {ss[q[f]].name}
    {
      var k: nat :| k < f + 1 && q[..f + 1][k] < |ss| && ss[q[..f + 1][k]].name == d;
      assert q[k] < |ss| && ss[q[k]].name == d;
      assert k < f ==> q[..f][k] < |ss| && ss[q[..f][k]].name == d;
    }
    forall d | d in Names(ss, q[..f])
      ensures d in Names(ss, q[..f + 1])
    {
      var k: nat :| k < f && q[..f][k] < |ss| && ss[q[..f][k]].name == d;
      assert q[..f + 1][k] < |ss| && ss[q[..f + 1][k]].name == d;
    }
    assert ss[q[..f + 1][f]].name in Names(ss, q[..f + 1]);
  }

  lemma BootShape(ss: Table, now: Table, launches: seq<Launch>, taken: seq<nat>)
    requires Booting(ss, now, launches, taken)
    ensures Inv(now) && |now| == |ss| && SameTable(ss, now) && forall i | 0 <= i < |ss| :: now[i].name == ss[i].name
    ensures forall i: nat | i < |now| && i !in taken :: now[i] == ss[i]
  {
    assert forall i | 0 <= i < |ss| :: SameShape(ss[i], now[i]);
  }

  /** The table and the count after one more service has been taken. */
  lemma BootAdvances(ss: Table, launches: seq<Launch>, taken: seq<nat>, x: nat, now: Table, count: nat)
    requires FreshBoot(ss, launches) && Booting(ss, now, launches, taken)
    requires x < |ss| && x !in taken && |taken| < |launches| && forall k | 0 <= k < |taken| :: taken[k] < |ss|
    requires (now, count) == Booted(ss, launches, taken)
    ensures |now| == |ss| && now[x].name == ss[x].name
    ensures
      var (next, ok) := Start(now, ss[x].name, launches[|taken|]);
      && |next| == |ss|
      && (next, count + if ok then 1 else 0) == Booted(ss, launches, taken + [x])
      && Booting(ss, next, launches, taken + [x])
  {
    hide Start, Booted, Booting, FreshBoot;
    BootShape(ss, now, launches, taken);
    BootStep(ss, now, launches, taken, x);
    BootedNext(ss, launches, taken, x);
    BootShape(ss, Start(now, ss[x].name, launches[|taken|]).0, launches, taken + [x]);
  }

  /** When the queue has run empty, it is an exhausted order. */
  lemma QueueEmpty(ss: Table, inDegree: seq<int>, order: seq<nat>)
    requires UniqueNames(ss) && Queue(ss, inDegree, order)
    requires forall i | 0 <= i < |ss| :: inDegree[i] == Unmet(ss[i].depends, Names(ss, order))
    ensures Ordered(ss, order)
    ensures forall i: nat | i < |ss| :: i in order <==> !Blocked(ss, i)
  {
    forall i: nat | i < |ss| && i !in order
      ensures exists d | d in ss[i].depends :: d !in Names(ss, order)
    {
      UnmetZero(ss[i].depends, Names(ss, order));
    }
    assert Exhausted(ss, order) && Ordered(ss, order);
    hide Blocked, Exhausted, Ordered, Queue;
    forall i: nat | i < |ss|
      ensures i in order <==> !Blocked(ss, i)
    {
      LeftOutExactly(ss, order, i);
    }
  }

  lemma FindIsNegative(ss: Table, name: string, from: nat)
    requires from <= |ss| && forall k | 0 <= k < |ss| :: ss[k].name != name
    ensures FindFrom(ss, name, from) == -1
    decreases |ss| - from
  {
    if from < |ss| {
      FindIsNegative(ss, name, from + 1);
    }
  }

  class Manager {
    var services: Table

    constructor ()
      ensures services == []
    {
      services := [];
    }

    method FindService(name: string) returns (i: int)
      ensures i == Find(services, name)
    {
      i := 0;
      while i < |services|
        invariant 0 <= i <= |services|
        invariant forall k | 0 <= k < i :: services[k].name != name
      {
        if services[i].name == name {
          return;
        }
        i := i + 1;
      }
      i := -1;
      FindIsNegative(services, name, 0);
    }

    method Register(name: string, kind: Kind, autoRestart: bool) returns (r: int)
      modifies this
      ensures r == 0 || r == -1
      ensures r == 0 <==> |old(services)| < MAX_SERVICES && Find(old(services), name) < 0
      ensures services == if r == 0 then old(services) + [NewService(name, kind, autoRestart)] else old(services)
    {
      if |services| >= MAX_SERVICES {
        return -1;
      }
      var i := FindService(name);
      if i >= 0 {
        return -1;
      }
      services := services + [NewService(name, kind, autoRestart)];
      return 0;
    }

    method DependenciesSatisfied(x: nat) returns (ok: bool)
      requires x < |services|
      ensures ok == DepsSatisfied(services, x)
    {
      for i := 0 to |services[x].depends|
        invariant forall k | 0 <= k < i :: DepSatisfied(services, services[x].depends[k])
      {
        var d := FindService(services[x].depends[i]);
        if d < 0 {
          return false;
        }
        var dep := services[d];
        if dep.kind == Oneshot {
          if dep.state != Stopped || dep.exitCode != 0 {
            if dep.state == Stopped && dep.pid == 0 && dep.restartCount == 0 {
              return false;
            }
          }
        } else if dep.state != Running {
          return false;
        }
      }
      return true;
    }

    method SvcStart(name: string, launch: Launch) returns (ok: bool)
      modifies this
      ensures (services, ok) == Start(old(services), name, launch)
    {
      var i := FindService(name);
      if i < 0 {
        return false;
      }
      if services[i].state == Running {
        return true;
      }
      var met := DependenciesSatisfied(i);
      if !met {
        return false;
      }
      if launch.NoExecutable? {
        services := services[i := services[i].(state := Failed)];
        return false;
      }
      services := services[i := services[i].(state := Starting)];
      if launch.ForkFails? {
        services := services[i := services[i].(state := Failed)];
        assert services == old(services)[i := old(services)[i].(state := Failed)];
        return false;
      }
      services := services[i := services[i].(pid := launch.pid)];
      if services[i].kind == Simple {
        services := services[i := services[i].(state := Running)];
      }
      assert services == old(services)[i := services[i]];
      return true;
    }

    method SvcStop(name: string)
      modifies this
      ensures services == Stop(old(services), name)
    {
      var i := FindService(name);
      if i >= 0 && (services[i].state == Running || services[i].state == Starting) {
        services := services[i := services[i].(state := Stopping)];
      }
    }

    method SvcNotifyExit(pid: int, code: int, launch: Launch)
      modifies this
      ensures services == NotifyExit(old(services), pid, code, launch)
    {
      hide Start;
      var i := 0;
      while i < |services| && services[i].pid != pid
        invariant 0 <= i <= |services| && services == old(services)
        invariant Holder(services, pid, 0) == Holder(services, pid, i)
      {
        i := i + 1;
      }
      if i == |services| {
        return;
      }
      services := services[i := services[i].(exitCode := code, pid := 0)];
      if services[i].kind == Oneshot {
        services := services[i := services[i].(state := if code == 0 then Stopped else Failed)];
      } else if services[i].state == Stopping {
        services := services[i := services[i].(state := Stopped)];
      } else if services[i].autoRestart && services[i].restartCount < services[i].maxRestarts {
        services := services[i := services[i].(restartCount := services[i].restartCount + 1, state := Stopped)];
        ghost var s := old(services)[i].(exitCode := code, pid := 0);
        assert services == old(services)[i := s.(restartCount := s.restartCount + 1, state := Stopped)];
        var ok := SvcStart(services[i].name, launch);
      } else {
        services := services[i := services[i].(state := Failed)];
      }
    }

    /**
     svc_start_all. `order` lists the services in the order in which they were taken from the queue.
     Each is taken at most once and behind all its dependencies, and those never taken are exactly
     the ones from which a cycle or an unregistered name can be reached.
     */
    method StartAll(launches: seq<Launch>) returns (started: nat, order: seq<nat>)
      requires Inv(services) && FreshBoot(services, launches) && |launches| >= |services|
      modifies this
      ensures Inv(services) && SameTable(old(services), services)
      ensures Ordered(old(services), order) && |order| <= |launches|
      ensures (services, started) == Booted(old(services), launches, order)
      ensures forall i: nat | i < |services| :: i in order <==> !Blocked(old(services), i)
      ensures forall i: nat | i < |services| && i !in order :: services[i] == old(services)[i]
    {
      hide Start, Booted, Queue, Booting, Ordered, Exhausted, Blocked, Unmet, Names, SameTable, FreshBoot, DistinctPids, Sane;
      NoNames(services, launches);
      var ss := services;
      var inDegree := new int[|services|];
      var queue := new nat[|services|];
      var qFront, qBack := 0, 0;
      qBack := Fill(services, inDegree, queue);
      started := 0;
      ghost var met: set<string> := {};
      BootStart(ss, launches);
      QueueInRange(ss, inDegree[..], queue[..qBack]);
      assert queue[..0] == [];
      while qFront < qBack
        invariant 0 <= qFront <= qBack <= |ss| && |services| == |ss|
        invariant forall k | 0 <= k < qBack :: queue[k] < |ss|
        invariant (services, started) == Booted(ss, launches, queue[..qFront])
        invariant Queue(ss, inDegree[..], queue[..qBack])
        invariant met == Names(ss, queue[..qFront])
        invariant forall i | 0 <= i < |ss| :: inDegree[i] == Unmet(ss[i].depends, met)
        invariant Booting(ss, services, launches, queue[..qFront])
        decreases |ss| - qFront
      {
        var x := queue[qFront];
        ghost var q, taken := queue[..qBack], queue[..qFront];
        assert taken == q[..qFront] && q[..qFront + 1] == taken + [x];
        TakeNext(ss, inDegree[..], q, qFront);
        BootAdvances(ss, launches, taken, x, services, started);
        var ok := SvcStart(services[x].name, launches[qFront]);
        if ok {
          started := started + 1;
        }
        var back := Release(ss, x, inDegree, queue, qBack, met);
        assert queue[..qBack] == q;
        assert queue[..qFront + 1] == q[..qFront + 1];
        QueueInRange(ss, inDegree[..], queue[..back]);
        met := met + {ss[x].name};
        qFront, qBack := qFront + 1, back;
      }
      order := queue[..qBack];
      QueueEmpty(ss, inDegree[..], order);
      BootShape(ss, services, launches, order);
    }
  }
}
