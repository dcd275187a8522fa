/**
  * A v1 cgroup: one path in each of several hierarchies. Adding, moving and deleting go hierarchy by hierarchy, while
  * processes die and are moved by others.
  */
module CgroupV1 {
  import opened Directories
  import opened Wrappers
  import opened Hierarchies
  import opened Deletion
  import opened Runs

  // ----- What adding and moving do to the world -----

  /** One process was put at the given paths in these hierarchies; otherwise only deaths. */
  ghost predicate AddedTo(w0: World, w: World, pid: Pid, path: PathOf, ns: seq<Name>) {
    && w.dirs == w0.dirs && w.place.Keys == w0.place.Keys && (forall p :: p in w.live ==> p in w0.live)
    && (forall n :: n in ns ==> path(n).Ok?)
    && forall n, p :: n in w0.place && p in w.live ==>
         && p in w.place[n] && p in w0.place[n]
         && w.place[n][p] == if p == pid && n in ns then path(n).value else w0.place[n][p]
  }

  lemma {:induction false} FrameAfter(w0: World, w1: World, w2: World, pid: Pid, path: PathOf, ns: seq<Name>, n: Name)
    requires AddedTo(w0, w1, pid, path, ns) && path(n).Ok? && MovedOne(w1, w2, n, path(n).value, pid)
    ensures w2.dirs == w0.dirs && w2.place.Keys == w0.place.Keys && forall p :: p in w2.live ==> p in w0.live
    ensures forall m :: m in ns + [n] <==> m in ns || m == n
    ensures forall m :: m in ns + [n] ==> path(m).Ok?
  {
  }

  lemma {:induction false} PlacedAfter(w0: World, w1: World, w2: World, pid: Pid, path: PathOf, ns: seq<Name>, n: Name,
                                       m: Name, p: Pid)
    requires AddedTo(w0, w1, pid, path, ns) && path(n).Ok? && MovedOne(w1, w2, n, path(n).value, pid)
    requires m in w0.place && p in w2.live
    ensures p in w2.place[m] && p in w0.place[m] && (m in ns || m == n ==> path(m).Ok?)
    ensures w2.place[m][p] == if p == pid && (m in ns || m == n) then path(m).value else w0.place[m][p]
  {
    assert p in w1.live && m in w1.place;
  }

  lemma {:induction false} AddedToOneMore(w0: World, w1: World, w2: World, pid: Pid, path: PathOf, ns: seq<Name>,
                                          n: Name)
    requires AddedTo(w0, w1, pid, path, ns) && path(n).Ok? && MovedOne(w1, w2, n, path(n).value, pid)
    ensures AddedTo(w0, w2, pid, path, ns + [n])
  {
    hide MovedOne;
    FrameAfter(w0, w1, w2, pid, path, ns, n);
    forall m, p | m in w0.place && p in w2.live
      ensures p in w2.place[m] && p in w0.place[m]
      ensures w2.place[m][p] == if p == pid && m in ns + [n] then path(m).value else w0.place[m][p]
    {
      PlacedAfter(w0, w1, w2, pid, path, ns, n, m, p);
    }
  }

  lemma {:induction false} AddedToDeaths(w0: World, w1: World, w2: World, pid: Pid, path: PathOf, ns: seq<Name>)
    requires AddedTo(w0, w1, pid, path, ns) && OnlyDeaths(w1, w2)
    ensures AddedTo(w0, w2, pid, path, ns)
  {
  }

  /** The process is where it was. */
  ghost predicate Unmoved(w0: World, w: World, p: Pid) {
    forall n :: n in w.place ==> n in w0.place && p in w.place[n] && p in w0.place[n] && w.place[n][p] == w0.place[n][p]
  }

  /** The process is at the destination in every hierarchy of the destination, and where it was in all others. */
  ghost predicate Arrived(w0: World, w: World, path: PathOf, ns: seq<Name>, p: Pid) {
    forall n :: n in w.place ==>
      && n in w0.place && p in w.place[n] && p in w0.place[n]
      && (n in ns ==> path(n).Ok?)
      && w.place[n][p] == if n in ns then path(n).value else w0.place[n][p]
  }

  /** Wherever the process is now, it was there before or it was put there on the way to the destination. */
  ghost predicate PartlyMoved(w0: World, w: World, path: PathOf, ns: seq<Name>, p: Pid) {
    forall n :: n in w.place ==>
      && n in w0.place && p in w.place[n] && p in w0.place[n]
      && (w.place[n][p] == w0.place[n][p] || (n in ns && path(n).Ok? && w.place[n][p] == path(n).value))
  }

  /** The destination exists in every hierarchy of the source, outside the source's subtree. */
  ghost predicate Apart(source: Cgroup, dest: Cgroup) {
    forall s :: s in source.subsystems ==>
      s in dest.subsystems && (source.path(s).Ok? && dest.path(s).Ok? ==> !(source.path(s).value <= dest.path(s).value))
  }

  /** The destination never reports of its own accord that a process is missing. */
  ghost predicate ProperErrors(c: Cgroup)
    reads c
  {
    c.err != Some(NoProcess) && forall n :: c.path(n) != Err(NoProcess)
  }

  /**
    * Processes are only ever taken from the source's subtrees, in its first k hierarchies, and only ever put at the
    * destination.
    */
  ghost predicate Conserved(w0: World, w: World, source: Cgroup, dest: Cgroup, k: nat)
    requires k <= |source.subsystems|
  {
    && w.dirs == w0.dirs && w.place.Keys == w0.place.Keys && ValidWorld(w)
    && (forall p :: p in w.live ==> p in w0.live && PartlyMoved(w0, w, dest.path, dest.subsystems, p))
    && (forall p :: p in w.live && !InsideAny(w0, source.path, source.subsystems[..k], p) ==> Unmoved(w0, w, p))
  }

  /** Every process was moved completely or not at all. */
  ghost predicate MoveUnderWay(w0: World, w: World, dest: Cgroup) {
    forall p :: p in w.live ==> Unmoved(w0, w, p) || Arrived(w0, w, dest.path, dest.subsystems, p)
  }

  /** Whoever was in the source's subtree in one of the first k hierarchies, and lives, is at the destination. */
  ghost predicate Fetched(w0: World, w: World, source: Cgroup, dest: Cgroup, k: nat)
    requires k <= |source.subsystems|
  {
    forall j, p :: 0 <= j < k && p in w.live && Inside(w0, source.path, source.subsystems[j], p) ==>
      Arrived(w0, w, dest.path, dest.subsystems, p)
  }

  /** Whoever had arrived, and lives, is still there. */
  ghost predicate StillArrived(w0: World, w1: World, w: World, dest: Cgroup) {
    forall p :: p in w.live ==>
      && p in w1.live
      && (Arrived(w0, w1, dest.path, dest.subsystems, p) ==> Arrived(w0, w, dest.path, dest.subsystems, p))
  }

  /** The destination takes whatever is sent: it can be written everywhere, and the processes have proper ids. */
  ghost predicate Receives(w: World, refused: set<(Name, Dir)>, source: Cgroup, dest: Cgroup)
    reads dest
  {
    && dest.err == None
    && (forall n :: n in dest.subsystems ==> Writable(w.dirs, refused, dest.path, n))
    && forall p :: p in w.live && InsideAny(w, source.path, source.subsystems, p) ==> p > 0
  }

  /** Why the destination does not take a process: its own error, a hierarchy that cannot be written, an improper id. */
  ghost predicate Declines(w: World, refused: set<(Name, Dir)>, source: Cgroup, dest: Cgroup, e: Error)
    reads dest
  {
    || dest.err == Some(e)
    || (exists n :: n in dest.subsystems && WriteError(w.dirs, refused, dest.path, n, e))
    || (e == InvalidPid && exists p :: p in w.live && InsideAny(w, source.path, source.subsystems, p) && p <= 0)
  }

  /** Why one hierarchy cannot be written, and why it cannot be listed. */
  ghost predicate WriteError(dirs: map<Name, set<Dir>>, refused: set<(Name, Dir)>, path: PathOf, n: Name, e: Error) {
    if path(n).Err? then e == path(n).error
    else if !Exists(dirs, path, n) then e == NoEntry
    else e == Refused && (n, path(n).value) in refused
  }

  ghost predicate ListError(dirs: map<Name, set<Dir>>, refused: set<(Name, Dir)>, path: PathOf, n: Name, e: Error) {
    if path(n).Err? then e == path(n).error
    else if !Exists(dirs, path, n) then e == NoEntry
    else e == Refused && Unreadable(dirs, refused, path, n)
  }

  /**
    * The move has stopped in the k-th hierarchy, because it could not be listed or the destination declined a process:
    * the hierarchies before it are done, and nobody was moved who is not inside in one of these.
    */
  ghost predicate StoppedIn(w0: World, w: World, refused: set<(Name, Dir)>, source: Cgroup, dest: Cgroup, k: nat,
                            e: Error)
    requires k < |source.subsystems|
    reads dest
  {
    && Conserved(w0, w, source, dest, k + 1)
    && (forall j :: 0 <= j < k ==> Listable(w0.dirs, refused, source.path, source.subsystems[j]))
    && (ProperErrors(dest) ==> Fetched(w0, w, source, dest, k))
    && if Listable(w0.dirs, refused, source.path, source.subsystems[k]) then Declines(w0, refused, source, dest, e)
       else ListError(w0.dirs, refused, source.path, source.subsystems[k], e)
  }

  // ----- Listing while processes die -----

  lemma WorldLasts(w: World)
    requires ValidWorld(w)
    ensures OnlyDeaths(w, w)
  {
    forall n, p | n in w.place && p in w.live
      ensures p in w.place[n]
    {
      assert ValidHierarchy(w, n);
    }
  }

  lemma DeathsTwice(a: World, b: World, c: World)
    ensures OnlyDeaths(a, b) && OnlyDeaths(b, c) ==> OnlyDeaths(a, c)
  {
  }

  /** Everybody listed was inside at the beginning, and whoever is inside at the end is listed. */
  ghost predicate Listing(w0: World, w: World, path: PathOf, s: Name, pids: seq<Pid>) {
    && (forall p :: p in pids ==> p in w0.live && Inside(w0, path, s, p))
    && forall p :: p in w.live && Inside(w, path, s, p) ==> p in pids
  }

  ghost predicate ListedSoFar(w0: World, w: World, path: PathOf, s: Name, pids: seq<Pid>, unread: set<Dir>) {
    && (forall p :: p in pids ==> p in w0.live && Inside(w0, path, s, p))
    && forall p :: p in w.live && Inside(w, path, s, p) ==> p in pids || w.place[s][p] in unread
  }

  lemma NothingListed(w: World, path: PathOf, s: Name)
    requires ValidWorld(w) && Exists(w.dirs, path, s)
    ensures ListedSoFar(w, w, path, s, [], set d | d in w.dirs[s] && path(s).value <= d)
  {
    assert ValidHierarchy(w, s);
  }

  lemma AllListed(w0: World, w: World, path: PathOf, s: Name, pids: seq<Pid>)
    ensures ListedSoFar(w0, w, path, s, pids, {}) ==> Listing(w0, w, path, s, pids)
  {
  }

  lemma {:induction false} ListOneMore(w0: World, w1: World, w2: World, path: PathOf, s: Name, pids: seq<Pid>,
                                       unread: set<Dir>, d: Dir, here: seq<Pid>)
    requires OnlyDeaths(w0, w2) && OnlyDeaths(w1, w2) && ListedSoFar(w0, w1, path, s, pids, unread)
    requires path(s).Ok? && path(s).value <= d && Truthful(Read(s, d, here, w2))
    ensures ListedSoFar(w0, w2, path, s, pids + here, unread - {d})
  {
    forall p | p in pids + here
      ensures p in w0.live && Inside(w0, path, s, p)
    {
      if p !in pids {
        assert p in w2.live && w2.place[s][p] == d;
      }
    }
    forall p | p in w2.live && Inside(w2, path, s, p)
      ensures p in pids + here || w2.place[s][p] in unread - {d}
    {
      assert p in w1.live && Inside(w1, path, s, p);
    }
  }

  class Cgroup {
    const path: PathOf
    const subsystems: seq<Name>
    var err: Option<Error>

    constructor (path: PathOf, subsystems: seq<Name>)
      ensures this.path == path && this.subsystems == subsystems && err == None
    {
      this.path, this.subsystems, this.err := path, subsystems, None;
    }

    /** subsystemsFilter: all subsystems, or those that were named, in order. */
    method SubsystemsFilter(names: seq<Name>) returns (filtered: seq<Name>)
      ensures filtered == if names == [] then subsystems else Named(subsystems, names)
      ensures names != [] ==> forall s :: s in filtered <==> s in subsystems && s in names
    {
      if names == [] {
        return subsystems;
      }
      filtered := [];
      for i := 0 to |subsystems|
        invariant filtered == Named(subsystems[..i], names)
      {
        ghost var before := filtered;
        assert subsystems[..i + 1][..i] == subsystems[..i];
        for j := 0 to |names|
          invariant subsystems[i] !in names[..j]
          invariant filtered == before
        {
          if subsystems[i] == names[j] {
            filtered := filtered + [subsystems[i]];
            break;
          }
        }
      }
      assert subsystems[..|subsystems|] == subsystems;
      NamedMeaning(subsystems, names);
    }

    function Filtered(names: seq<Name>): seq<Name> {
      if names == [] then subsystems else Named(subsystems, names)
    }

    /** add: write the process id to cgroup.procs in each hierarchy, stopping at the first error. */
    method Add(sys: System, pid: Pid, names: seq<Name>) returns (e: Option<Error>, ghost added: seq<Name>)
      requires ValidWorld(sys.w)
      modifies sys`w, sys`clock
      ensures CallEffect(AddCall(pid), old(Status(sys.w, err)), Returned(e), Status(sys.w, err), path, subsystems)
      ensures ValidWorld(sys.w)
      ensures pid <= 0 ==> e == Some(InvalidPid)
      ensures pid > 0 && err.Some? ==> e == err
      ensures pid <= 0 || err.Some? ==> sys.w == old(sys.w) && added == []
      // the process is put into the first hierarchies of those wanted, in order, and nobody else moves
      ensures AddedTo(old(sys.w), sys.w, pid, path, added) && added <= Filtered(names)
      // it ends with the last of them, or with the first that cannot be written, or when the process has died
      ensures e == None ==> added == Filtered(names)
      ensures pid > 0 && err == None && e.Some? ==>
                && |added| < |Filtered(names)|
                && (WriteError(sys.w.dirs, sys.refused, path, Filtered(names)[|added|], e.value)
                    || (e == Some(NoProcess) && pid !in sys.w.live))
      ensures forall n :: n in added ==> Writable(sys.w.dirs, sys.refused, path, n)
    {
      hide AddedTo, ValidWorld, SomeMissing, DirsRemoved, Named;
      added := [];
      WorldIsItself(sys.w, pid, path);
      if pid <= 0 {
        return Some(InvalidPid), [];
      }
      if err.Some? {
        return err, [];
      }
      var filtered := SubsystemsFilter(names);
      var i := 0;
      e := None;
      while i < |filtered| && e == None
        invariant 0 <= i <= |filtered| && ValidWorld(sys.w)
        invariant AddedTo(old(sys.w), sys.w, pid, path, added) && sys.w.dirs == old(sys.w.dirs)
        invariant e.Some? ==> i > 0
        invariant added == filtered[..if e == None then i else i - 1]
        invariant forall n :: n in added ==> Writable(sys.w.dirs, sys.refused, path, n)
        invariant e.Some? ==> WriteError(sys.w.dirs, sys.refused, path, filtered[i - 1], e.value)
                              || (e == Some(NoProcess) && pid !in sys.w.live)
      {
        e := AddTo(sys, pid, filtered[i], old(sys.w), added);
        if e == None {
          added := added + [filtered[i]];
        }
        assert filtered[..i + 1] == filtered[..i] + [filtered[i]];
        i := i + 1;
      }
      assert filtered[..|filtered|] == filtered;
    }

    /** The body of the loop in add. */
    method AddTo(sys: System, pid: Pid, s: Name, ghost w0: World, ghost added: seq<Name>) returns (e: Option<Error>)
      requires ValidWorld(sys.w) && AddedTo(w0, sys.w, pid, path, added)
      modifies sys`w, sys`clock
      ensures ValidWorld(sys.w) && sys.w.dirs == old(sys.w.dirs)
      ensures AddedTo(w0, sys.w, pid, path, if e == None then added + [s] else added)
      ensures e == None ==> Writable(sys.w.dirs, sys.refused, path, s)
      ensures e.Some? ==> WriteError(sys.w.dirs, sys.refused, path, s, e.value)
                          || (e == Some(NoProcess) && pid !in sys.w.live)
    {
      var p := path(s);
      if p.Err? {
        return Some(p.error);
      }
      ghost var w1 := sys.w;
      e := sys.WritePid(s, p.value, pid);
      if e.Some? {
        AddedToDeaths(w0, w1, sys.w, pid, path, added);
      } else {
        AddedToOneMore(w0, w1, sys.w, pid, path, added, s);
      }
    }

    /**
      * processes, recursively: the ids found at and below the cgroup's directory in one hierarchy. The directories are
      * read one after the other, in any order. When the caller is alone, processes do nothing but die in between.
      */
    method Processes(sys: System, s: Name, alone: bool) returns (r: Result<seq<Pid>, Error>)
      requires ValidWorld(sys.w)
      modifies sys
      ensures ValidWorld(sys.w) && sys.w.dirs == old(sys.w.dirs)
      ensures r.Ok? <==> Listable(sys.w.dirs, sys.refused, path, s)
      ensures r.Err? ==> r.error == if path(s).Err? then path(s).error
                                    else if Exists(sys.w.dirs, path, s) then Refused else NoEntry
      ensures old(sys.log) <= sys.log && Readings(Since(old(sys.log), sys.log), s)
      ensures r.Ok? ==> ReadBelow(Since(old(sys.log), sys.log), s, path(s).value, sys.w.dirs)
      ensures r.Ok? ==> r.value == PidsRead(Since(old(sys.log), sys.log))
      ensures r.Ok? ==> |Since(old(sys.log), sys.log)| == |set d | d in sys.w.dirs[s] && path(s).value <= d|
      ensures r.Ok? ==> forall p :: p in r.value <==> PidRead(Since(old(sys.log), sys.log), p)
      ensures !Exists(sys.w.dirs, path, s) ==> sys.log == old(sys.log)
      ensures alone ==> OnlyDeaths(old(sys.w), sys.w)
      ensures alone && r.Ok? ==> Listing(old(sys.w), sys.w, path, s, r.value)
    {
      hide OnlyDeaths, ValidWorld, Truthful, Readings, WasRead, PidRead, PidsRead, ListedSoFar, Inside;
      WorldLasts(sys.w);
      NothingRead(s);
      assert Since(sys.log, sys.log) == [];
      var p := path(s);
      if p.Err? {
        return Err(p.error);
      }
      var found := sys.Subtree(s, p.value);
      if found.Err? {
        return Err(found.error);
      }
      var all := found.value;
      var unread := all;
      var pids := [];
      NothingListed(sys.w, path, s);
      while unread != {}
        invariant unread <= all && ValidWorld(sys.w) && sys.w.dirs == old(sys.w.dirs)
        invariant old(sys.log) <= sys.log && Readings(Since(old(sys.log), sys.log), s)
        invariant forall d :: d in all - unread ==>
                    (s, d) !in sys.refused && WasRead(Since(old(sys.log), sys.log), s, d)
        invariant |sys.log| - |old(sys.log)| == |all| - |unread| && pids == PidsRead(Since(old(sys.log), sys.log))
        invariant forall q :: q in pids <==> PidRead(Since(old(sys.log), sys.log), q)
        invariant alone ==> OnlyDeaths(old(sys.w), sys.w) && ListedSoFar(old(sys.w), sys.w, path, s, pids, unread)
        decreases unread
      {
        var d :| d in unread;
        var here := ReadOne(sys, s, d, alone, old(sys.w), old(sys.log), pids, unread);
        if here.Err? {
          return Err(here.error);
        }
        unread := unread - {d};
        pids := pids + here.value;
      }
      r := Ok(pids);
      AllListed(old(sys.w), sys.w, path, s, pids);
    }

    /** One directory of the walk. */
    method ReadOne(sys: System, s: Name, d: Dir, alone: bool, ghost w0: World, ghost log0: seq<Event>,
                   ghost pids: seq<Pid>, ghost unread: set<Dir>) returns (r: Result<seq<Pid>, Error>)
      requires ValidWorld(sys.w) && Exists(sys.w.dirs, path, s) && path(s).value <= d && d in sys.w.dirs[s]
      requires log0 <= sys.log && Readings(Since(log0, sys.log), s)
      requires alone ==> OnlyDeaths(w0, sys.w) && ListedSoFar(w0, sys.w, path, s, pids, unread)
      modifies sys
      ensures ValidWorld(sys.w) && sys.w.dirs == old(sys.w.dirs)
      ensures r.Err? ==> r == Err(Refused)
      ensures r.Ok? <==> (s, d) !in sys.refused
      ensures log0 <= sys.log && Readings(Since(log0, sys.log), s)
      ensures r.Ok? ==> forall e :: WasRead(Since(log0, old(sys.log)), s, e) || e == d ==>
                WasRead(Since(log0, sys.log), s, e)
      ensures r.Ok? ==> |sys.log| == |old(sys.log)| + 1
      ensures r.Ok? ==> PidsRead(Since(log0, sys.log)) == PidsRead(Since(log0, old(sys.log))) + r.value
      ensures r.Ok? ==> forall p :: PidRead(Since(log0, sys.log), p) <==>
                PidRead(Since(log0, old(sys.log)), p) || p in r.value
      ensures alone ==> OnlyDeaths(w0, sys.w)
      ensures alone && r.Ok? ==> ListedSoFar(w0, sys.w, path, s, pids + r.value, unread - {d})
    {
      hide OnlyDeaths, ValidWorld, Truthful, Readings, WasRead, PidRead, PidsRead, ListedSoFar, Inside;
      ghost var w, log := sys.w, sys.log;
      if alone {
        sys.Die();
        DeathsTwice(w0, w, sys.w);
      } else {
        sys.Churn();
      }
      r := sys.ReadPids(s, d);
      if r.Ok? {
        assert Since(log0, sys.log) == Since(log0, log) + [Read(s, d, r.value, sys.w)];
        MoreRead(Since(log0, log), Read(s, d, r.value, sys.w));
        if alone {
          ListOneMore(w0, w, sys.w, path, s, pids, unread, d, r.value);
        }
      }
    }

    /** MoveTo: hierarchy by hierarchy, add every process found there to the destination. */
    method MoveTo(sys: System, dest: Cgroup) returns (e: Option<Error>)
      requires ValidWorld(sys.w)
      modifies sys
      ensures CallEffect(MoveToCall, old(Status(sys.w, err)), Returned(e), Status(sys.w, err), path, subsystems)
      ensures err.Some? ==> e == err && sys.w == old(sys.w)
      // at any outcome, nobody is lost and nobody else is touched
      ensures Conserved(old(sys.w), sys.w, this, dest, |subsystems|)
      // in a hierarchy that the destination lacks, nobody moves
      ensures forall s, p :: s in sys.w.place && s !in dest.subsystems && p in sys.w.live ==>
                s in old(sys.w.place) && p in sys.w.place[s] && p in old(sys.w.place)[s]
                && sys.w.place[s][p] == old(sys.w.place)[s][p]
      // success moves everybody, whatever the destination
      ensures e == None && ProperErrors(dest) ==>
                forall p :: p in sys.w.live && InsideAny(old(sys.w), path, subsystems, p) ==>
                  Arrived(old(sys.w), sys.w, dest.path, dest.subsystems, p)
      // and leaves nobody behind, when the destination covers the source and lies outside it
      ensures e == None && ProperErrors(dest) && Apart(this, dest) ==>
                forall s, p :: s in subsystems && p in sys.w.live ==> !Inside(sys.w, path, s, p)
      // it succeeds unless a hierarchy cannot be listed or the destination declines a process, and stops there
      ensures e == None ==> err == None && forall s :: s in subsystems ==> Listable(sys.w.dirs, sys.refused, path, s)
      ensures err == None && e.Some? ==>
                exists k: nat :: k < |subsystems| && StoppedIn(old(sys.w), sys.w, sys.refused, this, dest, k, e.value)
      ensures (err == None && (forall s :: s in subsystems ==> Listable(sys.w.dirs, sys.refused, path, s))
               && Receives(old(sys.w), sys.refused, this, dest)) ==> e == None
    {
      hide Conserved, MoveUnderWay, Fetched, ValidWorld, InsideAny, Arrived, SomeMissing, DirsRemoved, Receives,
           Declines, ListError, StoppedIn, Listable, Exists;
      ghost var w0 := sys.w;
      NothingMovedYet(w0, this, dest);
      if err.Some? {
        ConservedMore(w0, sys.w, this, dest, 0);
        UncoveredStays(w0, sys.w, this, dest);
        return err;
      }
      var i := 0;
      e := None;
      while i < |subsystems| && e == None
        invariant 0 <= i <= |subsystems|
        invariant Conserved(w0, sys.w, this, dest, i)
        invariant e == None && ProperErrors(dest) ==> MoveUnderWay(w0, sys.w, dest) && Fetched(w0, sys.w, this, dest, i)
        invariant e == None ==> forall j :: 0 <= j < i ==> Listable(w0.dirs, sys.refused, path, subsystems[j])
        invariant e.Some? ==> i > 0 && StoppedIn(w0, sys.w, sys.refused, this, dest, i - 1, e.value)
      {
        DuringMove(w0, sys.w, this, dest, i);
        e := MoveHierarchy(sys, dest, i, w0);
        i := i + 1;
      }
      if e.Some? {
        NoGoodReason(w0, sys.w, sys.refused, this, dest, i - 1, e.value);
      } else if ProperErrors(dest) {
        AllFetched(w0, sys.w, this, dest);
      }
      ConservedMore(w0, sys.w, this, dest, i);
      UncoveredStays(w0, sys.w, this, dest);
    }

    /** The body of the outer loop in MoveTo. */
    method MoveHierarchy(sys: System, dest: Cgroup, i: nat, ghost w0: World) returns (e: Option<Error>)
      requires i < |subsystems| && ValidWorld(sys.w) && Conserved(w0, sys.w, this, dest, i)
      requires ProperErrors(dest) ==> MoveUnderWay(w0, sys.w, dest) && Fetched(w0, sys.w, this, dest, i)
      requires forall j :: 0 <= j < i ==> Listable(w0.dirs, sys.refused, path, subsystems[j])
      modifies sys
      ensures Conserved(w0, sys.w, this, dest, i + 1)
      ensures e == None && ProperErrors(dest) ==>
                MoveUnderWay(w0, sys.w, dest) && Fetched(w0, sys.w, this, dest, i + 1)
      ensures e == None ==> Listable(w0.dirs, sys.refused, path, subsystems[i])
      ensures e.Some? ==> StoppedIn(w0, sys.w, sys.refused, this, dest, i, e.value)
    {
      hide AddedTo, Conserved, MoveUnderWay, Fetched, ProcessesUnderWay, OnlyDeaths, CallEffect, ValidWorld, Readings,
           ReadBelow, PidRead, InsideAny, Declines;
      var s := subsystems[i];
      ghost var wa := sys.w;
      DuringMove(w0, wa, this, dest, i);
      ListedWereInside(w0, wa, this, dest, i);
      var found := Processes(sys, s, true);
      ghost var w1 := sys.w;
      DeathsDuringMove(w0, wa, w1, this, dest, i);
      if found.Err? {
        return Some(found.error);
      }
      var processes := found.value;
      ListingStarts(w0, w1, this, dest, i);
      assert processes[..0] == [];
      var k := 0;
      e := None;
      while k < |processes| && e == None
        invariant 0 <= k <= |processes| && Conserved(w0, sys.w, this, dest, i + 1)
        invariant ProperErrors(dest) ==> Fetched(w0, sys.w, this, dest, i)
        invariant e == None ==> ProcessesUnderWay(w0, w1, sys.w, this, dest, i, processes[..k])
        invariant e.Some? ==> Declines(w0, sys.refused, this, dest, e.value)
      {
        var pid := processes[k];
        assert pid in wa.live && Inside(wa, path, s, pid) && InsideAny(w0, path, subsystems[..i + 1], pid);
        e := MoveOne(sys, dest, i, pid, w0, w1, processes[..k]);
        assert processes[..k + 1] == processes[..k] + [pid];
        k := k + 1;
      }
      assert processes[..|processes|] == processes;
      if e == None {
        HierarchyDone(w0, w1, sys.w, this, dest, i, processes);
      }
    }

    /** The body of the inner loop in MoveTo: a process that has died meanwhile is passed over. */
    method MoveOne(sys: System, dest: Cgroup, i: nat, pid: Pid, ghost w0: World, ghost w1: World, ghost done: seq<Pid>)
      returns (e: Option<Error>)
      requires i < |subsystems| && Conserved(w0, sys.w, this, dest, i + 1)
      requires ProcessesUnderWay(w0, w1, sys.w, this, dest, i, done)
      requires ProperErrors(dest) ==> Fetched(w0, sys.w, this, dest, i)
      requires pid in w0.live && InsideAny(w0, path, subsystems[..i + 1], pid)
      modifies sys
      ensures Conserved(w0, sys.w, this, dest, i + 1)
      ensures ProperErrors(dest) ==> Fetched(w0, sys.w, this, dest, i)
      ensures e == None ==> ProcessesUnderWay(w0, w1, sys.w, this, dest, i, done + [pid])
      ensures e.Some? ==> Declines(w0, sys.refused, this, dest, e.value)
    {
      hide AddedTo, Conserved, ProcessesUnderWay, Fetched, CallEffect, ValidWorld, InsideAny, Named;
      ghost var w2 := sys.w;
      DuringMove(w0, w2, this, dest, i + 1);
      ghost var added;
      var failure;
      failure, added := dest.Add(sys, pid, []);
      assert forall n :: n in added ==> n in dest.subsystems;
      ConservedStep(w0, w2, sys.w, this, dest, i + 1, pid, added);
      FetchedStep(w0, w2, sys.w, this, dest, i, pid, added);
      DuringMove(w0, sys.w, this, dest, i + 1);
      if failure.Some? && failure != Some(NoProcess) {
        InsideMore(w0, path, subsystems, i + 1, pid);
        return failure;
      }
      OneMoved(w0, w1, w2, sys.w, this, dest, i, done, pid, added);
      e := None;
    }

    /** Deleting in one hierarchy: only when the readings come upon no process is anything removed. */
    method DeleteIn(sys: System, s: Name) returns (o: SubsystemOutcome)
      requires ValidWorld(sys.w)
      modifies sys
      ensures ValidWorld(sys.w) && old(sys.log) <= sys.log
      ensures OneDone(old(sys.w.dirs), sys.w.dirs, path, s, Since(old(sys.log), sys.log), o)
      ensures Visited(old(sys.w.dirs), path, s, Since(old(sys.log), sys.log), o)
      ensures if o.Stop? then Obstacle(old(sys.w.dirs), sys.refused, path, s, o.error)
              else !Blocked(old(sys.w.dirs), sys.refused, path, s)
    {
      hide OneDone, Readings, ReadBelow, PidRead, Found, ValidWorld, OnlyDeaths, Listing, Gone, RemovedBelow, Tried;
      ghost var d0 := sys.w.dirs;
      var found := Processes(sys, s, false);
      ghost var readings := Since(old(sys.log), sys.log);
      AbsentIsGone(sys.w, path, s);
      if found.Err? {
        NothingRead(s);
        OnlyRead(d0, path, s, readings, if found.error == NoEntry then Skipped else Stop(found.error));
        if found.error == NoEntry {
          return Skipped;
        }
        return Stop(found.error);
      }
      ListedIsFound(readings, s, found.value);
      if |found.value| > 0 {
        OnlyRead(d0, path, s, readings, Busy);
        return Busy;
      }
      ghost var log := sys.log;
      var ok := Remove(sys, s, path(s).value);
      o := if ok then Removed else NotRemoved;
      assert o == Removed <==> Gone(sys.w.dirs, path, s) by {
        GoneMeans(sys.w.dirs, path, s);
      }
      SinceSplits(old(sys.log), log, sys.log);
      ReadThenRemoved(d0, sys.w.dirs, path, s, readings, Since(log, sys.log), o);
    }

    /** Delete: go through all subsystems, collect what could not be removed, and mark the cgroup deleted if nothing. */
    method Delete(sys: System) returns (e: Option<Error>)
      requires ValidWorld(sys.w)
      modifies sys, this
      ensures CallEffect(DeleteCall, old(Status(sys.w, err)), Returned(e), Status(sys.w, err), path, subsystems)
      ensures old(err).Some? ==> e == old(err) && sys.log == old(sys.log)
      // safety, at any outcome: what is removed was read before, and there was no process anywhere in it
      ensures old(sys.log) <= sys.log
      ensures SafelyDone(old(sys.w.dirs), sys.w.dirs, path, subsystems, Since(old(sys.log), sys.log))
      // a process that was found makes the call fail, and its hierarchy stays as it is
      ensures forall s :: Found(Since(old(sys.log), sys.log), s) ==>
                e.Some? && (NoDuplicates(subsystems) ==> s in sys.w.dirs ==> sys.w.dirs[s] == old(sys.w.dirs)[s])
      // nil: every subsystem was missing, or it was read, found empty and removed
      ensures e == None ==>
                Settled(old(sys.w.dirs), sys.w.dirs, path, subsystems, Since(old(sys.log), sys.log))
      // every subsystem is dealt with, up to the first obstacle; the error names what is left, in order
      ensures old(err) == None ==>
                DeleteResult(old(sys.w.dirs), sys.w.dirs, sys.refused, path, subsystems,
                             Since(old(sys.log), sys.log), e)
      // nil exactly when nothing is left
      ensures old(err) == None && NoDuplicates(subsystems) ==>
                (e == None <==> NothingLeft(sys.w.dirs, path, subsystems))
    {
      NothingDone(sys.w.dirs, sys.refused, path, subsystems);
      hide SafelyDone, DeletedSoFar, AllHandled, Settled, DeleteResult, Found, Gone, OneDone, Visited, Obstacle,
           Blocked;
      if err.Some? {
        return err;
      }
      ghost var d0 := sys.w.dirs;
      var errs: seq<(Name, Reason)> := [];
      for i := 0 to |subsystems|
        invariant ValidWorld(sys.w) && err == None && old(sys.log) <= sys.log
        invariant DeletedSoFar(d0, sys.w.dirs, path, subsystems, i, errs, Since(old(sys.log), sys.log))
        invariant AllHandled(d0, sys.w.dirs, sys.refused, path, subsystems, i, errs, Since(old(sys.log), sys.log))
      {
        var s := subsystems[i];
        ghost var d1 := sys.w.dirs;
        ghost var log := sys.log;
        var o := DeleteIn(sys, s);
        SinceSplits(old(sys.log), log, sys.log);
        if o.Stop? {
          DeleteStops(d0, d1, sys.w, sys.refused, path, subsystems, i, errs, Since(old(sys.log), log),
                      Since(log, sys.log), o);
          return Some(o.error);
        }
        DeleteStep(d0, d1, sys.w.dirs, path, subsystems, i, errs, Since(old(sys.log), log), Since(log, sys.log), o);
        HandledStep(d0, d1, sys.w.dirs, sys.refused, path, subsystems, i, errs, Since(old(sys.log), log),
                    Since(log, sys.log), o);
        errs := errs + Complaint(s, o);
      }
      DeleteEnds(d0, sys.w.dirs, sys.refused, path, subsystems, errs, Since(old(sys.log), sys.log));
      if |errs| > 0 {
        return Some(UnableToRemove(errs));
      }
      err := Some(CgroupDeleted);
      e := None;
    }

    /**
      * State: a missing directory in any hierarchy counts as deleted. Otherwise the answer is what the freezer's state
      * file reads (None when it cannot be read; the kernel never writes "deleted" there).
      */
    method State(sys: System, freezer: Option<CgroupState>) returns (st: CgroupState)
      requires freezer != Some(CgroupState.Deleted)
      modifies this
      ensures CallEffect(StateCall, old(Status(sys.w, err)), Reported(st), Status(sys.w, err), path, subsystems)
      ensures err == if SomeMissing(sys.w, path, subsystems) then Some(CgroupDeleted) else old(err)
      ensures err == Some(CgroupDeleted) ==> st == Deleted
      ensures err != Some(CgroupDeleted) ==>
                st == if "freezer" !in subsystems then Thawed
                      else if path("freezer").Err? || freezer == None then Unknown else freezer.value
    {
      CheckExists(sys);
      if err == Some(CgroupDeleted) {
        return Deleted;
      }
      if "freezer" !in subsystems {
        return Thawed;
      }
      if path("freezer").Err? || freezer == None {
        return Unknown;
      }
      st := freezer.value;
    }

    /** checkExists: look at the directories in order; the first path error ends the search. */
    method CheckExists(sys: System)
      modifies this
      ensures err == if SomeMissing(sys.w, path, subsystems) then Some(CgroupDeleted) else old(err)
    {
      for i := 0 to |subsystems|
        invariant err == old(err)
        invariant SomeMissing(sys.w, path, subsystems) == SomeMissing(sys.w, path, subsystems[i..])
      {
        var s := subsystems[i];
        assert subsystems[i..][1..] == subsystems[i + 1..];
        var p := path(s);
        if p.Err? {
          return;
        }
        if s !in sys.w.dirs || p.value !in sys.w.dirs[s] {
          err := Some(CgroupDeleted);
          return;
        }
      }
    }
  }

  /** The attempt found something to remove. */
  ghost predicate SomethingLeft(ev: Event, d: Dir) {
    ev.Removal? && exists e :: e in ev.before && d <= e
  }

  /** remove: up to five attempts, each but the first because something was left. */
  method Remove(sys: System, n: Name, d: Dir) returns (ok: bool)
    requires ValidWorld(sys.w) && n in sys.w.dirs
    modifies sys
    ensures ValidWorld(sys.w) && OthersKept(old(sys.w.dirs), sys.w.dirs, n)
    ensures RemovedBelow(old(sys.w.dirs)[n], sys.w.dirs[n], d)
    ensures ok <==> forall e :: e in sys.w.dirs[n] ==> !(d <= e)
    ensures old(sys.log) <= sys.log
    ensures var attempts := Since(old(sys.log), sys.log);
            && 1 <= |attempts| <= 5 && (!ok ==> |attempts| == 5)
            && (forall i :: 0 < i < |attempts| ==> SomethingLeft(attempts[i], d))
            && forall i :: 0 <= i < |attempts| ==> Attempts(attempts[i], n, d, old(sys.w.dirs)[n])
  {
    ok := false;
    var i := 0;
    while i < 5 && !ok
      invariant ValidWorld(sys.w) && OthersKept(old(sys.w.dirs), sys.w.dirs, n)
      invariant RemovedBelow(old(sys.w.dirs)[n], sys.w.dirs[n], d)
      invariant i > 0 ==> (ok <==> forall e :: e in sys.w.dirs[n] ==> !(d <= e))
      invariant ok ==> i > 0
      invariant old(sys.log) <= sys.log && |sys.log| == |old(sys.log)| + i
      invariant forall k :: |old(sys.log)| <= k < |sys.log| ==> Attempts(sys.log[k], n, d, old(sys.w.dirs)[n])
      invariant forall k :: |old(sys.log)| < k < |sys.log| ==> SomethingLeft(sys.log[k], d)
    {
      ok := sys.RemoveAll(n, d);
      i := i + 1;
    }
  }

  // ----- Steps of a move -----

  lemma WorldIsItself(w: World, pid: Pid, path: PathOf)
    requires ValidWorld(w)
    ensures AddedTo(w, w, pid, path, [])
  {
    forall n, p | n in w.place && p in w.live
      ensures p in w.place[n]
    {
      assert ValidHierarchy(w, n);
    }
  }

  /** The named ones among the subsystems, in their order. */
  function Named(subsystems: seq<Name>, names: seq<Name>): seq<Name> {
    if subsystems == [] then []
    else
      var last := subsystems[|subsystems| - 1];
      Named(subsystems[..|subsystems| - 1], names) + (if last in names then [last] else [])
  }

  /** Filtering keeps the members, and filters any two lists as it filters them together. */
  lemma {:induction false} NamedMeaning(subsystems: seq<Name>, names: seq<Name>)
    ensures forall s :: s in Named(subsystems, names) <==> s in subsystems && s in names
  {
    if subsystems != [] {
      var n := |subsystems| - 1;
      NamedMeaning(subsystems[..n], names);
      assert subsystems == subsystems[..n] + [subsystems[n]];
    }
  }

  lemma NamedSnoc(a: seq<Name>, s: Name, names: seq<Name>)
    ensures Named(a + [s], names) == Named(a, names) + (if s in names then [s] else [])
  {
    assert (a + [s])[..|a|] == a;
  }

  lemma {:induction false} NamedConcat(a: seq<Name>, b: seq<Name>, names: seq<Name>)
    ensures Named(a + b, names) == Named(a, names) + Named(b, names)
    decreases |b|
  {
    if b == [] {
      assert a + b == a;
    } else {
      var rest, s := b[..|b| - 1], b[|b| - 1];
      assert b == rest + [s] && a + b == (a + rest) + [s];
      NamedConcat(a, rest, names);
      NamedSnoc(a + rest, s, names);
      NamedSnoc(rest, s, names);
    }
  }

  lemma NothingMovedYet(w: World, source: Cgroup, dest: Cgroup)
    requires ValidWorld(w)
    ensures MoveUnderWay(w, w, dest) && Conserved(w, w, source, dest, 0) && Fetched(w, w, source, dest, 0)
  {
    forall p | p in w.live
      ensures Unmoved(w, w, p) && PartlyMoved(w, w, dest.path, dest.subsystems, p)
    {
      forall n | n in w.place
        ensures p in w.place[n]
      {
        assert ValidHierarchy(w, n);
      }
    }
  }

  lemma InsideMore(w: World, path: PathOf, ns: seq<Name>, k: nat, p: Pid)
    requires k <= |ns|
    ensures InsideAny(w, path, ns[..k], p) ==> InsideAny(w, path, ns, p)
  {
  }

  lemma ConservedMore(w0: World, w: World, source: Cgroup, dest: Cgroup, k: nat)
    requires k <= |source.subsystems| && Conserved(w0, w, source, dest, k)
    ensures Conserved(w0, w, source, dest, |source.subsystems|) && ValidWorld(w) && w.dirs == w0.dirs
  {
    forall p
      ensures InsideAny(w0, source.path, source.subsystems[..k], p) ==>
                InsideAny(w0, source.path, source.subsystems[..|source.subsystems|], p)
    {
    }
  }

  /** Deaths undo nothing of what a move has achieved. */
  lemma {:induction false} DeathsDuringMove(w0: World, w1: World, w2: World, source: Cgroup, dest: Cgroup, i: nat)
    requires i < |source.subsystems| && Conserved(w0, w1, source, dest, i) && OnlyDeaths(w1, w2) && ValidWorld(w2)
    ensures Conserved(w0, w2, source, dest, i + 1)
    ensures MoveUnderWay(w0, w1, dest) ==> MoveUnderWay(w0, w2, dest)
    ensures Fetched(w0, w1, source, dest, i) ==> Fetched(w0, w2, source, dest, i)
  {
    forall p | p in w2.live
      ensures PartlyMoved(w0, w2, dest.path, dest.subsystems, p)
      ensures Unmoved(w0, w1, p) ==> Unmoved(w0, w2, p)
      ensures Arrived(w0, w1, dest.path, dest.subsystems, p) ==> Arrived(w0, w2, dest.path, dest.subsystems, p)
      ensures InsideAny(w0, source.path, source.subsystems[..i], p) ==>
                InsideAny(w0, source.path, source.subsystems[..i + 1], p)
    {
      SamePlaces(w1, w2, p);
      assert forall s :: s in source.subsystems[..i] ==> s in source.subsystems[..i + 1];
    }
  }

  lemma SamePlaces(w1: World, w2: World, p: Pid)
    requires OnlyDeaths(w1, w2) && p in w2.live
    ensures p in w1.live
    ensures forall n :: n in w2.place ==>
              n in w1.place && p in w2.place[n] && p in w1.place[n] && w2.place[n][p] == w1.place[n][p]
  {
  }

  lemma UncoveredStays(w0: World, w: World, source: Cgroup, dest: Cgroup)
    requires Conserved(w0, w, source, dest, |source.subsystems|)
    ensures forall s, p :: s in w.place && s !in dest.subsystems && p in w.live ==>
              s in w0.place && p in w.place[s] && p in w0.place[s] && w.place[s][p] == w0.place[s][p]
  {
    forall s, p | s in w.place && s !in dest.subsystems && p in w.live
      ensures s in w0.place && p in w.place[s] && p in w0.place[s] && w.place[s][p] == w0.place[s][p]
    {
      assert PartlyMoved(w0, w, dest.path, dest.subsystems, p);
    }
  }

  /** A step that concerns another process leaves this one as it is. */
  lemma {:induction false} OthersStay(w0: World, w1: World, w2: World, path: PathOf, ns: seq<Name>, pid: Pid,
                                      added: seq<Name>, p: Pid)
    requires AddedTo(w1, w2, pid, path, added) && p != pid && p in w2.live
    ensures Unmoved(w0, w1, p) ==> Unmoved(w0, w2, p)
    ensures Arrived(w0, w1, path, ns, p) ==> Arrived(w0, w2, path, ns, p)
  {
    assert forall n :: n in w2.place ==> p in w2.place[n] && p in w1.place[n] && w2.place[n][p] == w1.place[n][p];
  }

  /** A complete step brings its process to the destination. */
  lemma {:induction false} OneArrives(w0: World, w1: World, w2: World, path: PathOf, ns: seq<Name>, p: Pid)
    requires AddedTo(w1, w2, p, path, ns) && p in w2.live
    requires Unmoved(w0, w1, p) || Arrived(w0, w1, path, ns, p)
    ensures Arrived(w0, w2, path, ns, p)
  {
    forall n | n in w2.place
      ensures p in w2.place[n] && w2.place[n][p] == if n in ns then path(n).value else w0.place[n][p]
    {
      assert p in w1.place[n];
    }
  }

  lemma {:induction false} PartlyMovedStep(w0: World, w1: World, w2: World, path: PathOf, ns: seq<Name>, pid: Pid,
                                           added: seq<Name>, p: Pid)
    requires AddedTo(w1, w2, pid, path, added) && p in w2.live && PartlyMoved(w0, w1, path, ns, p)
    requires forall n :: n in added ==> n in ns
    ensures PartlyMoved(w0, w2, path, ns, p)
  {
    forall n | n in w2.place
      ensures n in w0.place && p in w0.place[n] && p in w2.place[n]
      ensures w2.place[n][p] == w0.place[n][p] || (n in ns && path(n).Ok? && w2.place[n][p] == path(n).value)
    {
      assert n in w1.place && p in w1.place[n];
      assert w2.place[n][p] == if p == pid && n in added then path(n).value else w1.place[n][p];
    }
  }

  /** What one call of add may do: the process comes from a source subtree, or it has died. */
  lemma {:induction false} ConservedStep(w0: World, w1: World, w2: World, source: Cgroup, dest: Cgroup, k: nat,
                                         pid: Pid,
                                         added: seq<Name>)
    requires k <= |source.subsystems| && Conserved(w0, w1, source, dest, k)
    requires ValidWorld(w2) && AddedTo(w1, w2, pid, dest.path, added)
    requires forall n :: n in added ==> n in dest.subsystems
    requires pid in w2.live ==> InsideAny(w0, source.path, source.subsystems[..k], pid)
    ensures Conserved(w0, w2, source, dest, k)
  {
    forall p | p in w2.live
      ensures PartlyMoved(w0, w2, dest.path, dest.subsystems, p)
    {
      PartlyMovedStep(w0, w1, w2, dest.path, dest.subsystems, pid, added, p);
    }
    forall p | p in w2.live && !InsideAny(w0, source.path, source.subsystems[..k], p)
      ensures Unmoved(w0, w2, p)
    {
      OthersStay(w0, w1, w2, dest.path, dest.subsystems, pid, added, p);
    }
  }

  /** Whoever has arrived stays there, even if put there again. */
  lemma {:induction false} ArrivedStays(w0: World, w1: World, w2: World, dest: Cgroup, pid: Pid, added: seq<Name>)
    requires AddedTo(w1, w2, pid, dest.path, added) && forall n :: n in added ==> n in dest.subsystems
    ensures StillArrived(w0, w1, w2, dest)
  {
    forall p | p in w2.live && Arrived(w0, w1, dest.path, dest.subsystems, p)
      ensures Arrived(w0, w2, dest.path, dest.subsystems, p)
    {
      forall n | n in w2.place
        ensures p in w2.place[n] && w2.place[n][p] == w1.place[n][p]
      {
        assert n in w1.place && p in w1.live;
      }
    }
  }

  lemma {:induction false} FetchedStep(w0: World, w1: World, w2: World, source: Cgroup, dest: Cgroup, k: nat, pid: Pid,
                                       added: seq<Name>)
    requires k <= |source.subsystems|
    requires AddedTo(w1, w2, pid, dest.path, added) && forall n :: n in added ==> n in dest.subsystems
    ensures Fetched(w0, w1, source, dest, k) ==> Fetched(w0, w2, source, dest, k)
  {
    ArrivedStays(w0, w1, w2, dest, pid, added);
  }

  lemma {:induction false} MoveStep(w0: World, w1: World, w2: World, dest: Cgroup, pid: Pid, added: seq<Name>)
    requires MoveUnderWay(w0, w1, dest) && AddedTo(w1, w2, pid, dest.path, added)
    requires pid in w2.live ==> added == dest.subsystems
    ensures MoveUnderWay(w0, w2, dest)
    ensures pid in w2.live ==> Arrived(w0, w2, dest.path, dest.subsystems, pid)
  {
    forall p | p in w2.live
      ensures Unmoved(w0, w2, p) || Arrived(w0, w2, dest.path, dest.subsystems, p)
      ensures p == pid ==> Arrived(w0, w2, dest.path, dest.subsystems, p)
    {
      if p == pid {
        OneArrives(w0, w1, w2, dest.path, dest.subsystems, p);
      } else {
        OthersStay(w0, w1, w2, dest.path, dest.subsystems, pid, added, p);
      }
    }
  }

  ghost predicate AllArrived(w0: World, w: World, dest: Cgroup, pids: seq<Pid>) {
    forall p :: p in pids && p in w.live ==> Arrived(w0, w, dest.path, dest.subsystems, p)
  }

  /** Every process that the listing finds was in a source subtree from the start. */
  lemma ListedWereInside(w0: World, w1: World, source: Cgroup, dest: Cgroup, i: nat)
    requires i < |source.subsystems| && Conserved(w0, w1, source, dest, i)
    ensures forall p :: p in w1.live && Inside(w1, source.path, source.subsystems[i], p) ==>
              InsideAny(w0, source.path, source.subsystems[..i + 1], p)
  {
    var s, ns := source.subsystems[i], source.subsystems[..i + 1];
    assert s == ns[i] && forall n :: n in source.subsystems[..i] ==> n in ns;
    forall p | p in w1.live && Inside(w1, source.path, s, p)
      ensures InsideAny(w0, source.path, ns, p)
    {
      if !InsideAny(w0, source.path, source.subsystems[..i], p) {
        assert Unmoved(w0, w1, p);
        assert Inside(w0, source.path, s, p);
      }
    }
  }

  /** Where a move stands within hierarchy i, after these processes. */
  ghost predicate ProcessesUnderWay(w0: World, w1: World, w: World, source: Cgroup, dest: Cgroup, i: nat,
                                    done: seq<Pid>)
    requires i < |source.subsystems|
    reads dest
  {
    ProperErrors(dest) ==>
      && MoveUnderWay(w0, w, dest) && StillArrived(w0, w1, w, dest)
      && AllArrived(w0, w, dest, done) && Fetched(w0, w, source, dest, i)
  }

  lemma {:induction false} OneMoved(w0: World, w1: World, w2: World, w3: World, source: Cgroup, dest: Cgroup, i: nat,
                                    done: seq<Pid>, pid: Pid, added: seq<Name>)
    requires i < |source.subsystems| && ProcessesUnderWay(w0, w1, w2, source, dest, i, done)
    requires AddedTo(w2, w3, pid, dest.path, added) && forall n :: n in added ==> n in dest.subsystems
    requires ProperErrors(dest) && pid in w3.live ==> added == dest.subsystems
    ensures ProcessesUnderWay(w0, w1, w3, source, dest, i, done + [pid])
  {
    if ProperErrors(dest) {
      MoveStep(w0, w2, w3, dest, pid, added);
      ArrivedStays(w0, w2, w3, dest, pid, added);
    }
  }

  lemma DuringMove(w0: World, w: World, source: Cgroup, dest: Cgroup, k: nat)
    requires k <= |source.subsystems| && Conserved(w0, w, source, dest, k)
    ensures ValidWorld(w) && w.dirs == w0.dirs && forall p :: p in w.live ==> p in w0.live
  {
  }

  lemma ListingStarts(w0: World, w1: World, source: Cgroup, dest: Cgroup, i: nat)
    requires i < |source.subsystems|
    requires ProperErrors(dest) ==> MoveUnderWay(w0, w1, dest) && Fetched(w0, w1, source, dest, i)
    ensures ProcessesUnderWay(w0, w1, w1, source, dest, i, [])
  {
  }

  /**
    * When everybody who was listed has arrived, everybody who was inside has: who was not listed had arrived before
    * the listing.
    */
  lemma HierarchyDone(w0: World, w1: World, w: World, source: Cgroup, dest: Cgroup, i: nat, pids: seq<Pid>)
    requires i < |source.subsystems| && ProcessesUnderWay(w0, w1, w, source, dest, i, pids)
    requires ProperErrors(dest) ==> MoveUnderWay(w0, w1, dest)
    requires ValidWorld(w1) && source.subsystems[i] in w1.dirs
    requires forall p :: p in w1.live && Inside(w1, source.path, source.subsystems[i], p) ==> p in pids
    ensures ProperErrors(dest) ==> MoveUnderWay(w0, w, dest) && Fetched(w0, w, source, dest, i + 1)
  {
    if ProperErrors(dest) {
      var s := source.subsystems[i];
      forall p | p in w.live && Inside(w0, source.path, s, p)
        ensures Arrived(w0, w, dest.path, dest.subsystems, p)
      {
        if !Arrived(w0, w1, dest.path, dest.subsystems, p) {
          assert Unmoved(w0, w1, p);
          assert Inside(w1, source.path, s, p);
        }
      }
    }
  }

  lemma AllFetched(w0: World, w: World, source: Cgroup, dest: Cgroup)
    requires MoveUnderWay(w0, w, dest) && Fetched(w0, w, source, dest, |source.subsystems|)
    ensures forall p :: p in w.live && InsideAny(w0, source.path, source.subsystems, p) ==>
              Arrived(w0, w, dest.path, dest.subsystems, p)
    ensures Apart(source, dest) ==>
              forall s, p :: s in source.subsystems && p in w.live ==> !Inside(w, source.path, s, p)
  {
    forall p | p in w.live && InsideAny(w0, source.path, source.subsystems, p)
      ensures Arrived(w0, w, dest.path, dest.subsystems, p)
    {
      var s :| s in source.subsystems && Inside(w0, source.path, s, p);
    }
    if Apart(source, dest) {
      forall s, p | s in source.subsystems && p in w.live
        ensures !Inside(w, source.path, s, p)
      {
        if Inside(w, source.path, s, p) && Unmoved(w0, w, p) {
          assert Inside(w0, source.path, s, p);
        }
      }
    }
  }

  /** Where a move stops, something stands against it. */
  lemma NoGoodReason(w0: World, w: World, refused: set<(Name, Dir)>, source: Cgroup, dest: Cgroup, k: nat, e: Error)
    requires k < |source.subsystems| && StoppedIn(w0, w, refused, source, dest, k, e)
    ensures Listable(w0.dirs, refused, source.path, source.subsystems[k]) ==> !Receives(w0, refused, source, dest)
  {
  }
}
