/** What a package installation guarantees, over every intermediate database. */
module PackageProofs {
  import opened Packages

  // ---------------------------------------------------------------- whatever one installation keeps

  /** Entry `i` is the one that a search for its name finds; later entries of the same name are never used. */
  predicate Found(w: World, i: nat)
  {
    i < |w.index| && Find(w.index, w.index[i].name) == i
  }

  /** A property of databases that installing any archive of the repository keeps. */
  ghost predicate Kept(w: World, p: Db -> bool)
  {
    forall db: Db, i: nat | p(db) && Found(w, i) && w.archive(i).Some? :: p(PkgInstall(db, w.archive(i).value).0)
  }

  ghost predicate HoldsFrom(st: St, from: nat, p: Db -> bool)
  {
    p(st.db) && forall k | from <= k < |st.log| :: p(st.log[k].db)
  }

  lemma {:induction false} InstallKeeps(w: World, st: St, name: string, depth: nat, from: nat, p: Db -> bool)
    requires |st.visited| == |w.index| && Kept(w, p) && HoldsFrom(st, from, p)
    ensures HoldsFrom(Install(w, st, name, depth).0, from, p)
    decreases MAX_DEPTH + 1 - depth, 1, 0
  {
    var idx := Find(w.index, name);
    if depth <= MAX_DEPTH && name !in st.db && idx >= 0 && !st.visited[idx] {
      InstallAllKeeps(w, st.(visited := st.visited[idx := true]), w.index[idx].depends, depth + 1, from, p);
    }
  }

  lemma {:induction false} InstallAllKeeps(w: World, st: St, deps: seq<string>, depth: nat, from: nat, p: Db -> bool)
    requires |st.visited| == |w.index| && 0 < depth <= MAX_DEPTH + 1 && Kept(w, p) && HoldsFrom(st, from, p)
    ensures HoldsFrom(InstallAll(w, st, deps, depth).0, from, p)
    decreases MAX_DEPTH + 1 - depth, 2, |deps|
  {
    hide Kept, HoldsFrom;
    if deps != [] {
      InstallKeeps(w, st, deps[0], depth, from, p);
      InstallAllKeeps(w, Install(w, st, deps[0], depth).0, deps[1..], depth, from, p);
    }
  }

  // ---------------------------------------------------------------- dependency closure

  /** Every dependency of an installed package is installed. */
  ghost predicate Closed(db: Db)
  {
    forall n, d | n in db && d in db[n] :: d in db
  }

  /** Every database between the start and the end of an installation is dependency-closed. */
  lemma AlwaysClosed(w: World, st: St, name: string, depth: nat)
    requires |st.visited| == |w.index| && Closed(st.db) && st.log == []
    ensures
      var st' := Install(w, st, name, depth).0;
      Closed(st'.db) && forall k | 0 <= k < |st'.log| :: Closed(st'.log[k].db)
  {
    var p := (db: Db) => Closed(db);
    assert Kept(w, p) by {
      forall db: Db, i: nat | p(db) && Found(w, i) && w.archive(i).Some?
        ensures p(PkgInstall(db, w.archive(i).value).0)
      {
        InstallKeepsClosed(db, w.archive(i).value);
      }
    }
    hide Closed;
    InstallKeeps(w, st, name, depth, 0, p);
  }

  lemma InstallKeepsClosed(db: Db, a: Archive)
    requires Closed(db)
    ensures Closed(PkgInstall(db, a).0)
  {
  }

  // ---------------------------------------------------------------- where records come from

  /** The record of `n` was there before, or repeats a complete archive of the repository. */
  ghost predicate Sourced(w: World, db0: Db, db: Db, n: string)
    requires n in db
  {
    || (n in db0 && db[n] == db0[n])
    || exists i: nat :: Found(w, i) && w.archive(i).Some? && w.archive(i).value == Archive(n, db[n], true)
  }

  /** Only complete archives are ever recorded, under the name and with the dependencies that they state. */
  lemma OnlyArchivesRecorded(w: World, st: St, name: string, depth: nat)
    requires |st.visited| == |w.index| && st.log == []
    ensures
      var st' := Install(w, st, name, depth).0;
      && (forall n | n in st'.db :: Sourced(w, st.db, st'.db, n))
      && forall k, n | 0 <= k < |st'.log| && n in st'.log[k].db :: Sourced(w, st.db, st'.log[k].db, n)
  {
    var p := (db: Db) => forall n | n in db :: Sourced(w, st.db, db, n);
    assert Kept(w, p) by {
      forall db: Db, i: nat | p(db) && Found(w, i) && w.archive(i).Some?
        ensures p(PkgInstall(db, w.archive(i).value).0)
      {
        var a := w.archive(i).value;
        assert PkgInstall(db, a).1 ==> a == Archive(a.name, a.depends, true);
      }
    }
    hide Sourced, Found;
    InstallKeeps(w, st, name, depth, 0, p);
  }

  // ---------------------------------------------------------------- cycles

  /** Archives say of themselves what the index says of them. */
  ghost predicate Agrees(w: World)
  {
    forall i: nat | Found(w, i) && w.archive(i).Some? ::
      w.archive(i).value.name == w.index[i].name && w.archive(i).value.depends == w.index[i].depends
  }

  /** The index entry for a member of `c` depends on a member of `c`: a cycle, or what leads into one. */
  ghost predicate Cyclic(w: World, c: set<string>)
  {
    forall i: nat | Found(w, i) && w.index[i].name in c :: exists d | d in w.index[i].depends :: d in c
  }

  /** No member of a cycle of uninstalled packages is in any database of the installation. */
  lemma CycleNeverInstalled(w: World, st: St, name: string, depth: nat, c: set<string>)
    requires |st.visited| == |w.index| && st.log == [] && Agrees(w) && Cyclic(w, c) && c !! st.db.Keys
    ensures
      var st' := Install(w, st, name, depth).0;
      c !! st'.db.Keys && forall k | 0 <= k < |st'.log| :: c !! st'.log[k].db.Keys
  {
    var p := (db: Db) => c !! db.Keys;
    assert Kept(w, p) by {
      forall db: Db, i: nat | p(db) && Found(w, i) && w.archive(i).Some?
        ensures p(PkgInstall(db, w.archive(i).value).0)
      {
        var a := w.archive(i).value;
        if a.name in c {
          var d :| d in w.index[i].depends && d in c;
          assert d in a.depends && d !in db;
        }
      }
    }
    InstallKeeps(w, st, name, depth, 0, p);
  }

  // ---------------------------------------------------------------- at most one attempt

  /** From `st` to `t`, entries not visited before may have been attempted, once each. */
  ghost predicate Progress(w: World, st: St, t: St)
  {
    && |t.visited| == |st.visited| == |w.index|
    && (forall i | 0 <= i < |w.index| && st.visited[i] :: t.visited[i])
    && st.log <= t.log
    && (forall k | |st.log| <= k < |t.log| ::
          t.log[k].idx < |w.index| && !st.visited[t.log[k].idx] && t.visited[t.log[k].idx])
    && (forall a, b | |st.log| <= a < b < |t.log| :: t.log[a].idx != t.log[b].idx)
    && (forall n | n in st.db :: n in t.db && t.db[n] == st.db[n])
  }

  lemma ProgressTrans(w: World, s: St, t: St, u: St)
    requires Progress(w, s, t) && Progress(w, t, u)
    ensures Progress(w, s, u)
  {
    assert forall k | 0 <= k < |t.log| :: u.log[k] == t.log[k];
  }

  lemma {:induction false} InstallProgress(w: World, st: St, name: string, depth: nat)
    requires |st.visited| == |w.index|
    ensures Progress(w, st, Install(w, st, name, depth).0)
    decreases MAX_DEPTH + 1 - depth, 1, 0
  {
    var idx := Find(w.index, name);
    if depth <= MAX_DEPTH && name !in st.db && idx >= 0 && !st.visited[idx] {
      var st1 := st.(visited := st.visited[idx := true]);
      InstallAllProgress(w, st1, w.index[idx].depends, depth + 1);
      var (st2, ok) := InstallAll(w, st1, w.index[idx].depends, depth + 1);
      AttemptAfter(w, st, st1, st2, idx);
    }
  }

  /** Attempting `idx` after its dependencies, from the state in which it was not visited. */
  lemma AttemptAfter(w: World, st: St, st1: St, st2: St, idx: nat)
    requires |st.visited| == |w.index| && idx < |w.index| && !st.visited[idx]
    requires st1 == st.(visited := st.visited[idx := true]) && Progress(w, st1, st2)
    ensures Progress(w, st, st2) && Progress(w, st, Fetch(w, st2, idx).0)
  {
    hide PkgInstall;
    forall a: Archive
      ensures forall n | n in st2.db :: n in PkgInstall(st2.db, a).0 && PkgInstall(st2.db, a).0[n] == st2.db[n]
    {
      PkgInstallExtends(st2.db, a);
    }
  }

  lemma PkgInstallExtends(db: Db, a: Archive)
    ensures forall n | n in db :: n in PkgInstall(db, a).0 && PkgInstall(db, a).0[n] == db[n]
  {
  }

  lemma {:induction false} InstallAllProgress(w: World, st: St, deps: seq<string>, depth: nat)
    requires |st.visited| == |w.index| && 0 < depth <= MAX_DEPTH + 1
    ensures Progress(w, st, InstallAll(w, st, deps, depth).0)
    decreases MAX_DEPTH + 1 - depth, 2, |deps|
  {
    hide Install;
    if deps != [] {
      var st' := Install(w, st, deps[0], depth).0;
      InstallProgress(w, st, deps[0], depth);
      InstallAllProgress(w, st', deps[1..], depth);
      hide Progress;
      ProgressTrans(w, st, st', InstallAll(w, st', deps[1..], depth).0);
    }
  }

  // ---------------------------------------------------------------- what result 0 means

  /** What `n` depends on: as recorded if it was installed before, else as listed in the entry that a search finds. */
  predicate Needs(w: World, db0: Db, n: string, d: string)
  {
    if n in db0 then d in db0[n] else DependsOn(w, db0, n, d)
  }

  ghost predicate NeedsPath(w: World, db0: Db, p: seq<string>)
  {
    p != [] && forall k | 0 <= k < |p| - 1 :: Needs(w, db0, p[k], p[k + 1])
  }

  /** New records repeat the entry that a search finds for the package. */
  ghost predicate FromIndex(w: World, db0: Db, db: Db)
  {
    forall n | n in db && n !in db0 :: Find(w.index, n) >= 0 && w.index[Find(w.index, n)].depends == db[n]
  }

  /** A closed database whose new records repeat the index holds all that is needed by anything in it. */
  lemma {:induction false} ClosedReaches(w: World, db0: Db, db: Db, p: seq<string>)
    requires Closed(db) && FromIndex(w, db0, db) && (forall n | n in db0 :: n in db && db[n] == db0[n])
    requires NeedsPath(w, db0, p) && p[0] in db
    ensures Last(p) in db
    decreases |p|
  {
    if |p| > 1 {
      var init, n := p[..|p| - 1], p[|p| - 2];
      ClosedReaches(w, db0, db, init);
      assert Needs(w, db0, n, p[|p| - 2 + 1]);
      assert Last(p) in db[n];
    }
  }

  predicate Unvisited(w: World, st: St)
  {
    |st.visited| == |w.index| && st.log == [] && forall i | 0 <= i < |st.visited| :: !st.visited[i]
  }

  /**
   Result 0 means that the request and everything it depends on, directly or not, is installed;
   new records repeat the index, and each index entry was attempted at most once.
   */
  lemma ZeroMeansInstalled(w: World, st: St, name: string)
    requires Unvisited(w, st) && Closed(st.db) && Agrees(w)
    ensures
      var (st', ok) := Install(w, st, name, 0);
      && (ok ==> forall p | NeedsPath(w, st.db, p) && p[0] == name :: Last(p) in st'.db)
      && FromIndex(w, st.db, st'.db)
      && forall a, b | 0 <= a < b < |st'.log| :: st'.log[a].idx != st'.log[b].idx
  {
    var (st', ok) := Install(w, st, name, 0);
    InstallProgress(w, st, name, 0);
    AlwaysClosed(w, st, name, 0);
    RecordsRepeatIndex(w, st, name);
    hide Closed, FromIndex, InstallAll, NeedsPath;
    if ok {
      assert name in st'.db;
      forall p | NeedsPath(w, st.db, p) && p[0] == name
        ensures Last(p) in st'.db
      {
        ClosedReaches(w, st.db, st'.db, p);
      }
    }
  }

  lemma RecordsRepeatIndex(w: World, st: St, name: string)
    requires |st.visited| == |w.index| && Agrees(w)
    ensures FromIndex(w, st.db, Install(w, st, name, 0).0.db)
  {
    var p := (db: Db) => FromIndex(w, st.db, db);
    assert Kept(w, p);
    InstallKeeps(w, st, name, 0, |st.log|, p);
  }

  // ---------------------------------------------------------------- completeness

  /** A dependency path in the index that leaves every package that is not installed yet. */
  ghost predicate DepPath(w: World, db0: Db, p: seq<string>)
  {
    p != [] && forall k | 0 <= k < |p| - 1 :: DependsOn(w, db0, p[k], p[k + 1])
  }

  predicate DependsOn(w: World, db0: Db, n: string, d: string)
  {
    n !in db0 && Find(w.index, n) >= 0 && d in w.index[Find(w.index, n)].depends
  }

  function Last(p: seq<string>): string
    requires p != []
  {
    p[|p| - 1]
  }

  predicate Available(w: World, n: string)
  {
    var i := Find(w.index, n);
    i >= 0 && w.archive(i).Some? && w.archive(i).value.complete
  }

  /** No path over ten edges, and all that is reached is installed or can be downloaded. */
  ghost predicate Installable(w: World, db0: Db, name: string)
  {
    forall p | DepPath(w, db0, p) && p[0] == name :: |p| <= MAX_DEPTH + 1 && (Last(p) in db0 || Available(w, Last(p)))
  }

  lemma PathExtends(w: World, db0: Db, p: seq<string>, d: string)
    requires DepPath(w, db0, p) && DependsOn(w, db0, Last(p), d)
    ensures DepPath(w, db0, p + [d])
  {
    var q := p + [d];
    forall k | 0 <= k < |q| - 1
      ensures DependsOn(w, db0, q[k], q[k + 1])
    {
      if k < |p| - 1 {
        assert DependsOn(w, db0, p[k], p[k + 1]);
      }
    }
  }

  /** A path that returns to one of its own packages can be prolonged past any length. */
  lemma {:induction false} NoReturn(w: World, db0: Db, p: seq<string>, m: nat)
    requires DepPath(w, db0, p) && Installable(w, db0, p[0]) && m < |p| - 1
    ensures p[m] != Last(p)
    decreases MAX_DEPTH + 2 - |p|
  {
    if p[m] == Last(p) {
      assert |p| <= MAX_DEPTH + 1;
      assert DependsOn(w, db0, p[m], p[m + 1]);
      PathExtends(w, db0, p, p[m + 1]);
      NoReturn(w, db0, p + [p[m + 1]], m + 1);
    }
  }

  /** Visited entries are installed, or are on the path that led here, which is not installed yet. */
  ghost predicate Pending(w: World, st: St, trail: seq<string>)
  {
    && |st.visited| == |w.index|
    && (forall n | n in trail :: n !in st.db)
    && forall i | 0 <= i < |w.index| && st.visited[i] :: w.index[i].name in st.db || w.index[i].name in trail
  }

  ghost predicate Extends(db0: Db, db: Db)
  {
    forall n | n in db0 :: n in db
  }

  lemma {:induction false} InstallCompletes(w: World, db0: Db, st: St, trail: seq<string>, depth: nat)
    requires Agrees(w) && trail != [] && |trail| == depth + 1
    requires DepPath(w, db0, trail) && Installable(w, db0, trail[0])
    requires Pending(w, st, trail[..depth]) && Extends(db0, st.db)
    ensures
      var (st', ok) := Install(w, st, Last(trail), depth);
      ok && Last(trail) in st'.db && Pending(w, st', trail[..depth]) && Extends(st.db, st'.db)
    decreases MAX_DEPTH + 1 - depth, 1, 0
  {
    hide Installable, DepPath, Pending, InstallAll, Fetch;
    var name := Last(trail);
    TrailIsFine(w, db0, st, trail, depth);
    if name !in st.db {
      var idx := Find(w.index, name);
      var st1 := st.(visited := st.visited[idx := true]);
      var deps := w.index[idx].depends;
      AllComplete(w, db0, st1, trail, deps, depth + 1);
      FetchCompletes(w, InstallAll(w, st1, deps, depth + 1).0, idx, trail, depth);
    }
  }

  /** The package at the end of the path is installed, or new, available and not being installed. */
  lemma TrailIsFine(w: World, db0: Db, st: St, trail: seq<string>, depth: nat)
    requires trail != [] && |trail| == depth + 1
    requires DepPath(w, db0, trail) && Installable(w, db0, trail[0])
    requires Pending(w, st, trail[..depth]) && Extends(db0, st.db)
    ensures depth <= MAX_DEPTH && |st.visited| == |w.index|
    ensures
      var name := Last(trail);
      name !in st.db ==>
        var idx := Find(w.index, name);
        && idx >= 0 && w.archive(idx).Some? && w.archive(idx).value.complete
        && !st.visited[idx] && name !in trail[..depth]
        && Pending(w, st.(visited := st.visited[idx := true]), trail)
        && forall d | d in w.index[idx].depends :: DependsOn(w, db0, name, d)
  {
    var name := Last(trail);
    assert name in db0 || Available(w, name);
    assert trail == trail[..depth] + [name];
    forall m | 0 <= m < depth
      ensures trail[m] != name
    {
      NoReturn(w, db0, trail, m);
    }
    assert name !in trail[..depth];
  }

  lemma FetchCompletes(w: World, st: St, idx: nat, trail: seq<string>, depth: nat)
    requires Agrees(w) && Found(w, idx) && w.archive(idx).Some? && w.archive(idx).value.complete
    requires |trail| == depth + 1 && w.index[idx].name == trail[depth] && trail[depth] !in trail[..depth]
    requires Pending(w, st, trail) && (forall d | d in w.index[idx].depends :: d in st.db)
    ensures
      var (st', ok) := Fetch(w, st, idx);
      ok && trail[depth] in st'.db && Pending(w, st', trail[..depth]) && Extends(st.db, st'.db)
  {
    assert trail == trail[..depth] + [trail[depth]];
    assert trail[depth] in trail;
  }

  lemma {:induction false} AllComplete(w: World, db0: Db, st: St, trail: seq<string>, deps: seq<string>, depth: nat)
    requires Agrees(w) && trail != [] && |trail| == depth && 0 < depth <= MAX_DEPTH + 1
    requires DepPath(w, db0, trail) && Installable(w, db0, trail[0])
    requires Pending(w, st, trail) && Extends(db0, st.db)
    requires forall d | d in deps :: DependsOn(w, db0, Last(trail), d)
    ensures
      var (st', ok) := InstallAll(w, st, deps, depth);
      ok && (forall d | d in deps :: d in st'.db) && Pending(w, st', trail) && Extends(st.db, st'.db)
    decreases MAX_DEPTH + 1 - depth, 2, |deps|
  {
    hide Install, Installable, Pending, DepPath;
    if deps != [] {
      var d := deps[0];
      PathExtends(w, db0, trail, d);
      var longer := trail + [d];
      assert longer[..depth] == trail;
      InstallCompletes(w, db0, st, longer, depth);
      PendingSize(w, st, trail);
      AllComplete(w, db0, Install(w, st, d, depth).0, trail, deps[1..], depth);
    }
  }

  lemma PendingSize(w: World, st: St, trail: seq<string>)
    requires Pending(w, st, trail)
    ensures |st.visited| == |w.index|
  {
  }

  /** An installable request succeeds. */
  lemma RequestCompletes(w: World, st: St, name: string)
    requires Unvisited(w, st) && Agrees(w) && Installable(w, st.db, name)
    ensures var (st', ok) := Install(w, st, name, 0); ok && name in st'.db
  {
    hide Installable, Install;
    InstallCompletes(w, st.db, st, [name], 0);
  }
}
