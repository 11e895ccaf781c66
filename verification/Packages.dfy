/**
 The package installer of citcpkg: a depth-limited search through a package index that installs
 dependencies first, over a database that admits a package only when its dependencies are there.
 */
module Packages {

  const MAX_DEPTH := 10

  datatype Option<+T> = None | Some(value: T)

  /** An entry of the repository index. */
  datatype Package = Package(name: string, depends: seq<string>)

  /** A downloaded archive: what its PKGINFO says, and whether its files can be installed. */
  datatype Archive = Archive(name: string, depends: seq<string>, complete: bool)

  /** The index and, for each entry, the archive that downloading it yields. */
  datatype World = World(index: seq<Package>, archive: nat -> Option<Archive>)

  /** Installed packages with the dependencies recorded for them. */
  type Db = map<string, seq<string>>

  /** An index entry that was downloaded, and the database when its installation was over. */
  datatype Attempt = Attempt(idx: nat, db: Db)

  /** The search state and the log of all attempts so far. */
  datatype St = St(visited: seq<bool>, db: Db, log: seq<Attempt>)

  // ---------------------------------------------------------------- the operations

  function FindFrom(index: seq<Package>, name: string, from: nat): (i: int)
    requires from <= |index|
    ensures i >= 0 ==> from <= i < |index| && index[i].name == name
    ensures i < 0 ==> i == -1 && forall k | from <= k < |index| :: index[k].name != name
    decreases |index| - from
  {
    if from == |index| then -1 else if index[from].name == name then from else FindFrom(index, name, from + 1)
  }

  function Find(index: seq<Package>, name: string): (i: int)
    ensures i >= 0 ==> i < |index| && index[i].name == name
    ensures i < 0 ==> i == -1 && forall k | 0 <= k < |index| :: index[k].name != name
  {
    FindFrom(index, name, 0)
  }

  /** The gates of pkg_install: not installed yet, all dependencies installed, files in place. */
  function PkgInstall(db: Db, a: Archive): (Db, bool)
  {
    if a.name in db || (exists d | d in a.depends :: d !in db) || !a.complete then (db, false)
    else (db[a.name := a.depends], true)
  }

  function Fetch(w: World, st: St, idx: nat): (St, bool)
  {
    var (db, ok) := match w.archive(idx) case None => (st.db, false) case Some(a) => PkgInstall(st.db, a);
    (St(st.visited, db, st.log + [Attempt(idx, db)]), ok)
  }

  /** install_with_deps; the flag is true for result 0. */
  function Install(w: World, st: St, name: string, depth: nat): (r: (St, bool))
    requires |st.visited| == |w.index|
    ensures |r.0.visited| == |st.visited|
    decreases MAX_DEPTH + 1 - depth, 1, 0
  {
    if depth > MAX_DEPTH then (st, false)
    else if name in st.db then (st, true)
    else
      var idx := Find(w.index, name);
      if idx < 0 then (st, false)
      else if st.visited[idx] then (st, true)
      else
        var (st', ok) := InstallAll(w, st.(visited := st.visited[idx := true]), w.index[idx].depends, depth + 1);
        if !ok then (st', false) else Fetch(w, st', idx)
  }

  function InstallAll(w: World, st: St, deps: seq<string>, depth: nat): (r: (St, bool))
    requires |st.visited| == |w.index| && 0 < depth <= MAX_DEPTH + 1
    ensures |r.0.visited| == |st.visited|
    decreases MAX_DEPTH + 1 - depth, 2, |deps|
  {
    if deps == [] then (st, true) else
    var (st', ok) := Install(w, st, deps[0], depth);
    if !ok then (st', false) else InstallAll(w, st', deps[1..], depth)
  }

  // ---------------------------------------------------------------- the installer as it runs

  class Installer {
    const w: World
    const visited: array<bool>
    var db: Db
    ghost var log: seq<Attempt>

    ghost predicate Valid()
      reads this
    {
      visited.Length == |w.index|
    }

    ghost function State(): St
      reads this, visited
      requires Valid()
    {
      St(visited[..], db, log)
    }

    constructor (w: World, db: Db)
      ensures Valid() && fresh(visited) && this.w == w
      ensures State() == St(seq(|w.index|, _ => false), db, [])
    {
      this.w := w;
      this.db := db;
      visited := new bool[|w.index|](_ => false);
      log := [];
    }

    method FindInIndex(name: string) returns (i: int)
      ensures i == Find(w.index, name)
    {
      i := 0;
      while i < |w.index|
        invariant 0 <= i <= |w.index|
        invariant Find(w.index, name) == FindFrom(w.index, name, i)
      {
        if w.index[i].name == name {
          return;
        }
        i := i + 1;
      }
      i := -1;
    }

    method InstallArchive(a: Archive) returns (ok: bool)
      requires Valid()
      modifies this`db
      ensures (db, ok) == PkgInstall(old(db), a)
    {
      if a.name in db {
        return false;
      }
      for i := 0 to |a.depends|
        invariant forall k | 0 <= k < i :: a.depends[k] in db
      {
        if a.depends[i] !in db {
          return false;
        }
      }
      if !a.complete {
        return false;
      }
      db := db[a.name := a.depends];
      return true;
    }

    method InstallWithDeps(name: string, depth: nat) returns (ok: bool)
      requires Valid()
      modifies this`db, this`log, visited
      ensures (State(), ok) == Install(w, old(State()), name, depth)
      decreases MAX_DEPTH + 1 - depth
    {
      if depth > MAX_DEPTH {
        return false;
      }
      if name in db {
        return true;
      }
      var idx := FindInIndex(name);
      if idx < 0 {
        return false;
      }
      if visited[idx] {
        return true;
      }
      visited[idx] := true;
      var deps := w.index[idx].depends;
      ghost var st := State();
      for i := 0 to |deps|
        invariant InstallAll(w, st, deps, depth + 1) == InstallAll(w, State(), deps[i..], depth + 1)
      {
        var r := InstallWithDeps(deps[i], depth + 1);
        if !r {
          return false;
        }
        assert deps[i..][1..] == deps[i + 1..];
      }
      match w.archive(idx) {
        case None => ok := false;
        case Some(a) => ok := InstallArchive(a);
      }
      log := log + [Attempt(idx, db)];
    }

    /** repo_install on a loaded index. */
    method RepoInstall(name: string) returns (ok: bool)
      requires Valid() && State() == St(seq(|w.index|, _ => false), db, [])
      modifies this`db, this`log, visited
      ensures (State(), ok) == Install(w, old(State()), name, 0)
    {
      if name in db {
        return true;
      }
      var idx := FindInIndex(name);
      if idx < 0 {
        return false;
      }
      ok := InstallWithDeps(name, 0);
    }
  }
}
