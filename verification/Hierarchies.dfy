/**
  * The v1 hierarchies as the kernel keeps them. Every process is in exactly one cgroup of each hierarchy; a process
  * may die at any moment, and a directory that holds a process cannot be removed.
  */
module Hierarchies {
  import opened Directories
  import opened Wrappers

  type Name = string
  type Pid = int

  /** For each hierarchy, its directories and the cgroup of every live process; the live processes in listing order. */
  datatype World = World(dirs: map<Name, set<Dir>>, place: map<Name, map<Pid, Dir>>, live: seq<Pid>)

  predicate SamePids(place: map<Pid, Dir>, live: seq<Pid>) {
    (forall p :: p in place ==> p in live) && (forall p :: p in live ==> p in place)
  }

  predicate ValidHierarchy(w: World, n: Name)
    requires n in w.dirs && n in w.place
  {
    && SamePids(w.place[n], w.live)
    && (forall p :: p in w.live ==> w.place[n][p] in w.dirs[n])
    && [] in w.dirs[n]
    && forall d {:trigger ParentThere(w.dirs[n], d)} :: d in w.dirs[n] ==> ParentThere(w.dirs[n], d)
  }

  predicate ParentThere(dirs: set<Dir>, d: Dir) {
    Parent(d) in dirs
  }

  predicate ValidWorld(w: World) {
    w.dirs.Keys == w.place.Keys && forall n {:trigger ValidHierarchy(w, n)} :: n in w.dirs ==> ValidHierarchy(w, n)
  }

  /** Nothing happened but the death of some processes. */
  ghost predicate OnlyDeaths(w: World, w': World) {
    && w'.dirs == w.dirs && w'.place.Keys == w.place.Keys && (forall p :: p in w'.live ==> p in w.live)
    && forall n, p :: n in w.place && p in w'.live ==>
         p in w'.place[n] && p in w.place[n] && w'.place[n][p] == w.place[n][p]
  }

  datatype Error =
    | NoEntry                                     // no such file or directory
    | NoProcess                                   // no such process
    | Refused                                     // any other refusal by the kernel
    | InvalidPid
    | CgroupDeleted                               // ErrCgroupDeleted
    | NotActive                                   // the path function knows no path for the subsystem
    | UnableToRemove(errs: seq<(Name, Reason)>)

  datatype Reason = HasProcesses | RemoveFailed

  /** Where directory d of hierarchy n is absent, nothing lies below it. */
  lemma {:induction false} AbsentHasNothingBelow(dirs: set<Dir>, d: Dir, e: Dir)
    requires forall x {:trigger ParentThere(dirs, x)} :: x in dirs ==> ParentThere(dirs, x)
    requires d !in dirs && d <= e
    ensures e !in dirs
    decreases |e|
  {
    if e != d && e in dirs {
      assert ParentThere(dirs, e);
      AbsentHasNothingBelow(dirs, d, Parent(e));
    }
  }

  // ----- The place of a cgroup in the hierarchies -----

  type PathOf = Name -> Result<Dir, Error>

  /** The process is in the subtree of the cgroup in hierarchy s. */
  ghost predicate Inside(w: World, path: PathOf, s: Name, p: Pid) {
    path(s).Ok? && s in w.place && p in w.place[s] && path(s).value <= w.place[s][p]
  }

  ghost predicate InsideAny(w: World, path: PathOf, ns: seq<Name>, p: Pid) {
    exists s :: s in ns && Inside(w, path, s, p)
  }

  predicate Exists(dirs: map<Name, set<Dir>>, path: PathOf, s: Name) {
    path(s).Ok? && s in dirs && path(s).value in dirs[s]
  }

  /** Nothing is left of the cgroup in hierarchy s. */
  ghost predicate Gone(dirs: map<Name, set<Dir>>, path: PathOf, s: Name) {
    path(s).Ok? && s in dirs ==> forall d :: d in dirs[s] ==> !(path(s).value <= d)
  }

  /** Some directory of the cgroup in hierarchy s refuses to be read. */
  ghost predicate Unreadable(dirs: map<Name, set<Dir>>, refused: set<(Name, Dir)>, path: PathOf, s: Name) {
    Exists(dirs, path, s) && exists d :: d in dirs[s] && path(s).value <= d && (s, d) in refused
  }

  ghost predicate Listable(dirs: map<Name, set<Dir>>, refused: set<(Name, Dir)>, path: PathOf, s: Name) {
    Exists(dirs, path, s) && !Unreadable(dirs, refused, path, s)
  }

  predicate Writable(dirs: map<Name, set<Dir>>, refused: set<(Name, Dir)>, path: PathOf, s: Name) {
    Exists(dirs, path, s) && (s, path(s).value) !in refused
  }

  lemma AbsentIsGone(w: World, path: PathOf, s: Name)
    requires ValidWorld(w)
    ensures path(s).Ok? ==> (Gone(w.dirs, path, s) <==> !Exists(w.dirs, path, s))
  {
    if path(s).Ok? && s in w.dirs && path(s).value !in w.dirs[s] {
      assert ValidHierarchy(w, s);
      forall d | d in w.dirs[s]
        ensures !(path(s).value <= d)
      {
        if path(s).value <= d {
          AbsentHasNothingBelow(w.dirs[s], path(s).value, d);
        }
      }
    }
  }

  // ----- What others do -----

  /**
    * What everybody else does, as a function of time: which processes die, how others start, move and kill processes,
    * and how far a removal gets. The results below hold for every environment.
    */
  datatype Environment = Environment(
    dies: nat -> set<Pid>,
    others: (nat, World) -> World,
    removes: (nat, World) -> set<Dir>)

  /**
    * What a caller of the system has done: it has read the process ids in directory d when the world was `at`, or it
    * has tried to remove d and everything below it when `before` were the directories.
    */
  datatype Event =
    | Read(n: Name, d: Dir, pids: seq<Pid>, at: World)
    | Removal(n: Name, d: Dir, before: set<Dir>)

  /** A reading lists exactly the live processes that were in the directory at that moment. */
  ghost predicate Truthful(ev: Event) {
    ev.Read? ==>
      && ValidWorld(ev.at) && ev.n in ev.at.place
      && forall p :: p in ev.pids <==> p in ev.at.live && p in ev.at.place[ev.n] && ev.at.place[ev.n][p] == ev.d
  }

  /** The processes in a listing that satisfy keep, in order. */
  function Filter(pids: seq<Pid>, keep: Pid -> bool): (r: seq<Pid>)
    ensures forall p :: p in r <==> p in pids && keep(p)
  {
    if pids == [] then [] else (if keep(pids[0]) then [pids[0]] else []) + Filter(pids[1..], keep)
  }

  /** The world after the death of some processes. */
  function Reaped(w: World, dead: set<Pid>): World {
    World(w.dirs, map n | n in w.place :: ReapedPlaces(w.place[n], dead), Filter(w.live, p => p !in dead))
  }

  function ReapedPlaces(place: map<Pid, Dir>, dead: set<Pid>): map<Pid, Dir> {
    map p | p in place && p !in dead :: place[p]
  }

  lemma ReapedIsValid(w: World, dead: set<Pid>)
    requires ValidWorld(w)
    ensures ValidWorld(Reaped(w, dead)) && OnlyDeaths(w, Reaped(w, dead))
  {
    var w' := Reaped(w, dead);
    forall n {:trigger ValidHierarchy(w', n)} | n in w'.dirs
      ensures ValidHierarchy(w', n) && w'.place[n] == ReapedPlaces(w.place[n], dead)
    {
      assert ValidHierarchy(w, n);
    }
    forall n, p | n in w.place && p in w'.live
      ensures p in w'.place[n] && p in w.place[n] && w'.place[n][p] == w.place[n][p]
    {
      assert ValidHierarchy(w, n);
    }
  }

  /** The world after a live process was moved within one hierarchy. */
  function Relocated(w: World, n: Name, d: Dir, pid: Pid): World
    requires n in w.place
  {
    w.(place := w.place[n := w.place[n][pid := d]])
  }

  lemma RelocatedIsValid(w: World, n: Name, d: Dir, pid: Pid)
    requires ValidWorld(w) && n in w.dirs && d in w.dirs[n] && pid in w.live
    ensures ValidWorld(Relocated(w, n, d, pid)) && MovedOne(w, Relocated(w, n, d, pid), n, d, pid)
  {
    var w' := Relocated(w, n, d, pid);
    forall m {:trigger ValidHierarchy(w', m)} | m in w'.dirs
      ensures ValidHierarchy(w', m)
    {
      assert ValidHierarchy(w, m);
    }
    forall m, p | m in w.place && p in w'.live
      ensures p in w'.place[m] && p in w.place[m]
    {
      assert ValidHierarchy(w, m);
    }
  }

  /** Deaths before a step do not change what the step did. */
  lemma DeathsThenMove(w: World, w1: World, w2: World, n: Name, d: Dir, pid: Pid)
    requires OnlyDeaths(w, w1) && MovedOne(w1, w2, n, d, pid)
    ensures MovedOne(w, w2, n, d, pid)
  {
  }

  class System {
    var w: World
    var clock: nat
    const refused: set<(Name, Dir)>
    const env: Environment
    ghost var log: seq<Event>

    constructor (w: World, refused: set<(Name, Dir)>, env: Environment)
      ensures this.w == w && this.refused == refused && this.env == env && log == []
    {
      this.w, this.clock, this.refused, this.env, this.log := w, 0, refused, env, [];
    }

    /** Between any two steps of a caller, processes may die. */
    method Die()
      requires ValidWorld(w)
      modifies this`w, this`clock
      ensures ValidWorld(w) && OnlyDeaths(old(w), w)
    {
      ReapedIsValid(w, env.dies(clock));
      w := Reaped(w, env.dies(clock));
      clock := clock + 1;
    }

    /** Anything may happen to processes: they may be started, moved and killed by others. Directories stay. */
    method Churn()
      requires ValidWorld(w)
      modifies this`w, this`clock
      ensures ValidWorld(w) && w.dirs == old(w.dirs)
    {
      var later := env.others(clock, w);
      clock := clock + 1;
      if ValidWorld(later) && later.dirs == w.dirs {
        w := later;
      }
    }

    /** Writing a process id to cgroup.procs of directory d: the kernel moves that process, if it still lives. */
    method WritePid(n: Name, d: Dir, pid: Pid) returns (err: Option<Error>)
      requires ValidWorld(w)
      modifies this`w, this`clock
      ensures ValidWorld(w) && w.dirs == old(w.dirs)
      ensures err.Some? ==> OnlyDeaths(old(w), w)
      ensures err == None ==> n in w.place && pid in w.live && MovedOne(old(w), w, n, d, pid)
      ensures err == if n !in w.dirs || d !in w.dirs[n] then Some(NoEntry)
                     else if (n, d) in refused then Some(Refused)
                     else if pid in w.live then None else Some(NoProcess)
    {
      Die();
      ghost var w1 := w;
      if n !in w.dirs || d !in w.dirs[n] {
        return Some(NoEntry);
      }
      if (n, d) in refused {
        return Some(Refused);
      }
      if pid !in w.live {
        return Some(NoProcess);
      }
      RelocatedIsValid(w, n, d, pid);
      w := Relocated(w, n, d, pid);
      DeathsThenMove(old(w), w1, w, n, d, pid);
      err := None;
    }

    /** The directories at and below d. */
    method Subtree(n: Name, d: Dir) returns (r: Result<set<Dir>, Error>)
      ensures r == if n in w.dirs && d in w.dirs[n] then Ok(set e | e in w.dirs[n] && d <= e) else Err(NoEntry)
    {
      if n !in w.dirs || d !in w.dirs[n] {
        return Err(NoEntry);
      }
      r := Ok(set e | e in w.dirs[n] && d <= e);
    }

    /** readPids: the process ids in cgroup.procs of directory d. */
    method ReadPids(n: Name, d: Dir) returns (r: Result<seq<Pid>, Error>)
      requires ValidWorld(w) && n in w.dirs && d in w.dirs[n]
      modifies this`log
      ensures r.Err? ==> r == Err(Refused) && log == old(log)
      ensures r.Ok? ==> log == old(log) + [Read(n, d, r.value, w)] && Truthful(Read(n, d, r.value, w))
      ensures r.Ok? <==> (n, d) !in refused
    {
      if (n, d) in refused {
        return Err(Refused);
      }
      assert ValidHierarchy(w, n);
      var place := w.place[n];
      r := Ok(Filter(w.live, p => p in place && place[p] == d));
      log := log + [Read(n, d, r.value, w)];
    }

    /**
      * One `os.RemoveAll` of directory d: it removes some directories below d, children first, none of which holds a
      * process at that moment; it succeeds when nothing is left.
      */
    method RemoveAll(n: Name, d: Dir) returns (ok: bool)
      requires ValidWorld(w) && n in w.dirs
      modifies this
      ensures ValidWorld(w) && w.dirs.Keys == old(w.dirs).Keys
      ensures forall m :: m in w.dirs && m != n ==> w.dirs[m] == old(w.dirs)[m]
      ensures RemovedBelow(old(w.dirs)[n], w.dirs[n], d)
      ensures ok <==> forall e :: e in w.dirs[n] ==> !(d <= e)
      ensures log == old(log) + [Removal(n, d, old(w.dirs)[n])]
    {
      log := log + [Removal(n, d, w.dirs[n])];
      Churn();
      assert ValidHierarchy(w, n);
      var gone := env.removes(clock, w);
      clock := clock + 1;
      if !CanGo(w, n, d, gone) {
        return forall e :: e in w.dirs[n] ==> !(d <= e);
      }
      label before:
      w := w.(dirs := w.dirs[n := w.dirs[n] - gone]);
      forall m {:trigger ValidHierarchy(w, m)} | m in w.dirs
        ensures ValidHierarchy(w, m)
      {
        assert ValidHierarchy(old@before(w), m);
      }
      ok := forall e :: e in w.dirs[n] ==> !(d <= e);
    }
  }

  /** Process pid was moved to directory d of hierarchy n, some processes died, and nothing else happened. */
  ghost predicate MovedOne(w: World, w': World, n: Name, d: Dir, pid: Pid) {
    && w'.dirs == w.dirs && w'.place.Keys == w.place.Keys && (forall p :: p in w'.live ==> p in w.live) && n in w.place
    && forall m, p :: m in w.place && p in w'.live ==>
         p in w'.place[m] && p in w.place[m] && w'.place[m][p] == if m == n && p == pid then d else w.place[m][p]
  }

  /** These directories, not the hierarchy's root, hold no process, and no directory that stays is below one of them. */
  predicate CanGo(w: World, n: Name, d: Dir, gone: set<Dir>)
    requires n in w.dirs && n in w.place && SamePids(w.place[n], w.live)
  {
    && [] !in gone && (forall e :: e in gone ==> e in w.dirs[n] && d <= e)
    && (forall p :: p in w.live ==> w.place[n][p] !in gone)
    && forall e {:trigger ParentThere(w.dirs[n] - gone, e)} :: e in w.dirs[n] - gone ==>
         ParentThere(w.dirs[n] - gone, e)
  }

  ghost predicate RemovedBelow(before: set<Dir>, after: set<Dir>, d: Dir) {
    after <= before && forall e :: e in before && !(d <= e) ==> e in after
  }
}
