/** Where the search for dependencies stops: at packages it is already handling, and eleven packages deep. */
module PackageLimits {
  import opened Packages
  import opened PackageProofs

  // ---------------------------------------------------------------- cycles

  /** Installed, or an index entry that the search has come to before. */
  predicate Handled(w: World, st: St, d: string)
    requires |st.visited| == |w.index|
  {
    d in st.db || (Find(w.index, d) >= 0 && st.visited[Find(w.index, d)])
  }

  /** Dependencies that have been handled cost nothing and hold nothing up. */
  lemma {:induction false} HandledIsPassed(w: World, st: St, deps: seq<string>, depth: nat)
    requires |st.visited| == |w.index| && 0 < depth <= 10
    requires forall d | d in deps :: Handled(w, st, d)
    ensures InstallAll(w, st, deps, depth) == (st, true)
    decreases |deps|
  {
    hide Find;
    if deps != [] {
      assert deps[0] in deps && forall d | d in deps[1..] :: d in deps;
      HandledIsPassed(w, st, deps[1..], depth);
    }
  }

  /** A package that depends on itself, and else on installed ones, is downloaded once and then refused. */
  lemma SelfDependencyIsRefused(w: World, st: St, name: string)
    requires Unvisited(w, st) && Agrees(w) && name !in st.db && Find(w.index, name) >= 0
    requires var deps := w.index[Find(w.index, name)].depends; name in deps && forall d | d in deps :: d == name || d in st.db
    ensures var (st', ok) := Install(w, st, name, 0); !ok && st'.db == st.db && st'.log == [Attempt(Find(w.index, name), st.db)]
  {
    hide Find;
    var idx := Find(w.index, name);
    var st1 := st.(visited := st.visited[idx := true]);
    HandledIsPassed(w, st1, w.index[idx].depends, 1);
    assert Found(w, idx);
    assert w.archive(idx).Some? ==> PkgInstall(st.db, w.archive(idx).value) == (st.db, false);
  }

  // ---------------------------------------------------------------- depth

  predicate Distinct(names: seq<string>)
  {
    forall a, b | 0 <= a < b < |names| :: names[a] != names[b]
  }

  /** Each package needs exactly the next one, none is installed, and all can be downloaded. */
  predicate Chain(w: World, db: Db, names: seq<string>)
  {
    && names != [] && Distinct(names)
    && forall k | 0 <= k < |names| ::
         && names[k] !in db && Available(w, names[k])
         && w.index[Find(w.index, names[k])].depends == if k + 1 < |names| then [names[k + 1]] else []
  }

  lemma LastInstalls(w: World, st: St, idx: nat, name: string)
    requires Agrees(w) && Find(w.index, name) == idx && Available(w, name) && name !in st.db
    requires forall d | d in w.index[idx].depends :: d in st.db
    ensures var (st', ok) := Fetch(w, st, idx); ok && st'.db.Keys == st.db.Keys + {name}
  {
    hide Find;
    assert Found(w, idx);
  }

  lemma {:induction false} ChainFrom(w: World, st: St, names: seq<string>, k: nat)
    requires |st.visited| == |w.index| && Agrees(w) && k < |names| && Chain(w, map[], names)
    requires forall m | k <= m < |names| :: names[m] !in st.db && !st.visited[Find(w.index, names[m])]
    ensures var (st', ok) := Install(w, st, names[k], k);
      (ok <==> |names| <= 11) && (ok ==> names[k] in st'.db) && forall n | n in st'.db :: n in st.db || n in names[k..]
    decreases |names| - k
  {
    hide Find, Fetch, InstallAll;
    if k <= 10 {
      var idx := Find(w.index, names[k]);
      var st1 := st.(visited := st.visited[idx := true]);
      assert Available(w, names[k]);
      if k + 1 == |names| {
        NoDependency(w, st1, k + 1);
        LastInstalls(w, st1, idx, names[k]);
      } else {
        OthersUnvisited(w, names, k);
        ChainFrom(w, st1, names, k + 1);
        var (st2, ok) := Install(w, st1, names[k + 1], k + 1);
        OneDependency(w, st1, names[k + 1], k + 1);
        assert names[k..][1..] == names[k + 1..] && names[k] !in names[k + 1..];
        if ok {
          LastInstalls(w, st2, idx, names[k]);
        }
      }
    }
  }

  lemma NoDependency(w: World, st: St, depth: nat)
    requires |st.visited| == |w.index| && 0 < depth <= 11
    ensures InstallAll(w, st, [], depth) == (st, true)
  {
  }

  lemma OneDependency(w: World, st: St, d: string, depth: nat)
    requires |st.visited| == |w.index| && 0 < depth <= 11
    ensures InstallAll(w, st, [d], depth) == Install(w, st, d, depth)
  {
    assert [d][1..] == [];
    hide Install;
  }

  /** Different packages of the chain are different entries of the index. */
  lemma OthersUnvisited(w: World, names: seq<string>, k: nat)
    requires k < |names| && Chain(w, map[], names)
    ensures forall m | k < m < |names| :: Find(w.index, names[m]) != Find(w.index, names[k])
  {
    assert forall m | 0 <= m < |names| :: Available(w, names[m]);
  }

  /** A chain of packages is installed if and only if it has at most eleven links. */
  lemma ChainExactly(w: World, st: St, names: seq<string>)
    requires Unvisited(w, st) && Agrees(w) && Chain(w, st.db, names)
    ensures Install(w, st, names[0], 0).1 <==> |names| <= 11
  {
    hide Install, Find;
    assert forall m | 0 <= m < |names| :: Available(w, names[m]);
    ChainFrom(w, st, names, 0);
  }
}
