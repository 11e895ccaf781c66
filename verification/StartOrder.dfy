/**
 Start order of services: dependency paths, the services that cannot be ordered, and the proof that
 the queue of svc_start_all orders exactly the others.
 */
module StartOrder {
  import opened Services

  // ---------------------------------------------------------------- dependency graph

  ghost predicate Edge(ss: Table, i: nat, j: nat)
  {
    i < |ss| && j < |ss| && ss[j].name in ss[i].depends
  }

  /** A dependency that names no service. */
  ghost predicate Dangling(ss: Table, i: nat)
  {
    i < |ss| && exists d | d in ss[i].depends :: forall j | 0 <= j < |ss| :: ss[j].name != d
  }

  ghost predicate Path(ss: Table, p: seq<nat>)
  {
    p != [] && p[0] < |ss| && forall k | 0 <= k < |p| - 1 :: Edge(ss, p[k], p[k + 1])
  }

  function Last(p: seq<nat>): nat
    requires p != []
  {
    p[|p| - 1]
  }

  /** A path that ends in a dangling dependency or comes back to a service it has passed. */
  ghost predicate DeadEnd(ss: Table, p: seq<nat>)
  {
    Path(ss, p) && (Dangling(ss, Last(p)) || Last(p) in p[..|p| - 1])
  }

  /** An unregistered name or a dependency cycle is reachable from `i`. */
  ghost predicate Blocked(ss: Table, i: nat)
  {
    exists p :: DeadEnd(ss, p) && p[0] == i
  }

  // ---------------------------------------------------------------- orders

  function Names(ss: Table, order: seq<nat>): set<string>
  {
    set k: nat | k < |order| && order[k] < |ss| :: ss[order[k]].name
  }

  ghost predicate Distinct(order: seq<nat>)
  {
    forall a, b | 0 <= a < b < |order| :: order[a] != order[b]
  }

  /** Every listed service comes behind all its dependencies, which are thereby registered. */
  ghost predicate Ordered(ss: Table, order: seq<nat>)
  {
    && Distinct(order)
    && forall k | 0 <= k < |order| ::
         order[k] < |ss| && forall d | d in ss[order[k]].depends :: d in Names(ss, order[..k])
  }

  /** Whatever is not listed waits for a name that no listed service bears. */
  ghost predicate Exhausted(ss: Table, order: seq<nat>)
  {
    forall i: nat | i < |ss| && i !in order :: exists d | d in ss[i].depends :: d !in Names(ss, order)
  }

  lemma NamedIndex(ss: Table, order: seq<nat>, k: nat, j: nat) returns (m: nat)
    requires UniqueNames(ss) && k <= |order| && j < |ss| && ss[j].name in Names(ss, order[..k])
    ensures m < k && order[m] == j
  {
    m :| m < |order[..k]| && order[..k][m] < |ss| && ss[order[..k][m]].name == ss[j].name;
  }

  lemma PathTail(ss: Table, p: seq<nat>, a: nat)
    requires Path(ss, p) && a < |p|
    ensures Path(ss, p[a..]) && Last(p[a..]) == Last(p)
  {
    var q := p[a..];
    assert a > 0 ==> Edge(ss, p[a - 1], p[a - 1 + 1]);
    forall k | 0 <= k < |q| - 1
      ensures Edge(ss, q[k], q[k + 1])
    {
      assert Edge(ss, p[a + k], p[a + k + 1]);
    }
  }

  lemma PathHead(ss: Table, p: seq<nat>, a: nat)
    requires Path(ss, p) && 0 < a <= |p|
    ensures Path(ss, p[..a])
  {
    var q := p[..a];
    forall k | 0 <= k < |q| - 1
      ensures Edge(ss, q[k], q[k + 1])
    {
      assert Edge(ss, p[k], p[k + 1]);
    }
  }

  /** Along a path from a listed service, positions in the order go down. */
  lemma {:induction false} PathDescends(ss: Table, order: seq<nat>, p: seq<nat>, k: nat) returns (m: nat)
    requires UniqueNames(ss) && Ordered(ss, order) && Path(ss, p) && k < |order| && order[k] == p[0]
    ensures m <= k && m < |order| && order[m] == Last(p) && (|p| > 1 ==> m < k)
    decreases |p|
  {
    if |p| == 1 {
      return k;
    }
    assert Edge(ss, p[0], p[1]);
    var k' := NamedIndex(ss, order, k, p[1]);
    PathTail(ss, p, 1);
    m := PathDescends(ss, order, p[1..], k');
  }

  lemma ListedIsNotBlocked(ss: Table, order: seq<nat>, i: nat)
    requires UniqueNames(ss) && Ordered(ss, order) && i in order
    ensures !Blocked(ss, i)
  {
    var k :| 0 <= k < |order| && order[k] == i;
    forall p | Path(ss, p) && p[0] == i
      ensures !DeadEnd(ss, p)
    {
      NotDangling(ss, order, p, k);
      forall a | 0 <= a < |p| - 1
        ensures p[a] != Last(p)
      {
        PathHead(ss, p, a + 1);
        var ka := PathDescends(ss, order, p[..a + 1], k);
        PathTail(ss, p, a);
        var kl := PathDescends(ss, order, p[a..], ka);
      }
    }
  }

  lemma NotDangling(ss: Table, order: seq<nat>, p: seq<nat>, k: nat)
    requires UniqueNames(ss) && Ordered(ss, order) && Path(ss, p) && k < |order| && order[k] == p[0]
    ensures !Dangling(ss, Last(p))
  {
    var m := PathDescends(ss, order, p, k);
    forall d | d in ss[order[m]].depends
      ensures exists j | 0 <= j < |ss| :: ss[j].name == d
    {
      assert d in Names(ss, order[..m]);
    }
  }

  // ---------------------------------------------------------------- what is left over is blocked

  function Below(n: nat): (r: set<nat>)
    ensures |r| == n && forall x: nat :: x in r <==> x < n
  {
    if n == 0 then {} else Below(n - 1) + {n - 1}
  }

  function Elements(s: seq<nat>): (r: set<nat>)
    ensures forall x :: x in r <==> x in s
    ensures Distinct(s) ==> |r| == |s|
  {
    if s == [] then {} else Elements(s[..|s| - 1]) + {s[|s| - 1]}
  }

  lemma SubsetSize<T>(a: set<T>, b: set<T>)
    requires a <= b
    ensures |a| <= |b|
  {
    assert b == a + (b - a);
  }

  /** More entries than values: some value comes twice. */
  lemma Pigeonhole(s: seq<nat>, n: nat)
    requires |s| > n && forall x | x in s :: x < n
    ensures !Distinct(s)
  {
    SubsetSize(Elements(s), Below(n));
  }

  /** From a left-over service: a dead end, or a path of any length through left-over services. */
  lemma {:induction false} WalkLeftOver(ss: Table, order: seq<nat>, p: seq<nat>, len: nat) returns (q: seq<nat>)
    requires Exhausted(ss, order) && Path(ss, p) && Last(p) !in order && |p| <= len
    requires forall x | x in p :: x < |ss|
    ensures q != [] && q[0] == p[0] && Path(ss, q) && forall x | x in q :: x < |ss|
    ensures Dangling(ss, Last(q)) || |q| == len
    decreases len - |p|
  {
    if |p| == len {
      return p;
    }
    var i := Last(p);
    assert i in p;
    var d :| d in ss[i].depends && d !in Names(ss, order);
    if j: nat :| j < |ss| && ss[j].name == d {
      NotListed(ss, order, j);
      var p' := p + [j];
      assert Path(ss, p') by {
        forall k | 0 <= k < |p'| - 1
          ensures Edge(ss, p'[k], p'[k + 1])
        {
          if k < |p| - 1 {
            assert Edge(ss, p[k], p[k + 1]);
          }
        }
      }
      q := WalkLeftOver(ss, order, p', len);
    } else {
      q := p;
    }
  }

  lemma NotListed(ss: Table, order: seq<nat>, j: nat)
    requires j < |ss| && ss[j].name !in Names(ss, order)
    ensures j !in order
  {
    forall k: nat | k < |order|
      ensures order[k] != j
    {
      assert order[k] < |ss| ==> ss[order[k]].name in Names(ss, order);
    }
  }

  lemma LeftOverIsBlocked(ss: Table, order: seq<nat>, i: nat)
    requires Exhausted(ss, order) && i < |ss| && i !in order
    ensures Blocked(ss, i)
  {
    var q := WalkLeftOver(ss, order, [i], |ss| + 1);
    if Dangling(ss, Last(q)) {
      assert DeadEnd(ss, q);
    } else {
      Pigeonhole(q, |ss|);
      var a, b :| 0 <= a < b < |q| && q[a] == q[b];
      var p := q[..b + 1];
      PathHead(ss, q, b + 1);
      assert p[..|p| - 1][a] == Last(p);
      assert DeadEnd(ss, p);
    }
  }

  /** The services an exhausted order leaves out are exactly the blocked ones. */
  lemma LeftOutExactly(ss: Table, order: seq<nat>, i: nat)
    requires UniqueNames(ss) && Ordered(ss, order) && Exhausted(ss, order) && i < |ss|
    ensures i in order <==> !Blocked(ss, i)
  {
    hide Blocked, Ordered, Exhausted;
    if i in order {
      ListedIsNotBlocked(ss, order, i);
    } else {
      LeftOverIsBlocked(ss, order, i);
    }
  }
}
