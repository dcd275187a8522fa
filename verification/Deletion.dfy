/**
  * Deleting a v1 cgroup, as seen from outside: what is gone, what was read and tried on the way, and what may be
  * removed at all.
  */
module Deletion {
  import opened Directories
  import opened Wrappers
  import opened Hierarchies

  datatype SubsystemOutcome = Skipped | Busy | Removed | NotRemoved | Stop(error: Error)

  predicate NoDuplicates(names: seq<Name>) {
    forall i, j :: 0 <= i < j < |names| ==> names[i] != names[j]
  }

  // ----- Directories -----

  /** Directories disappear only below the cgroup's own path, and only in its own hierarchies. */
  ghost predicate DirsRemoved(before: map<Name, set<Dir>>, after: map<Name, set<Dir>>, path: PathOf, ns: seq<Name>) {
    && before.Keys == after.Keys
    && forall n :: n in before ==>
         && (n !in ns || path(n).Err? ==> after[n] == before[n])
         && (n in ns && path(n).Ok? ==> RemovedBelow(before[n], after[n], path(n).value))
  }

  /** Walking the subsystems in order, a directory is missing before any path error. */
  predicate SomeMissing(w: World, path: PathOf, ns: seq<Name>) {
    && ns != [] && path(ns[0]).Ok?
    && (!Exists(w.dirs, path, ns[0]) || SomeMissing(w, path, ns[1..]))
  }

  /** The i-th subsystem's directory is missing, and no path error comes before it. */
  ghost predicate MissingAt(w: World, path: PathOf, ns: seq<Name>, i: nat)
    requires i < |ns|
  {
    (forall j :: 0 <= j <= i ==> path(ns[j]).Ok?) && !Exists(w.dirs, path, ns[i])
  }

  lemma MissingLater(w: World, path: PathOf, ns: seq<Name>, i: nat)
    requires 0 < i < |ns|
    ensures MissingAt(w, path, ns, i) <==> path(ns[0]).Ok? && MissingAt(w, path, ns[1..], i - 1)
  {
    var rest := ns[1..];
    assert forall j :: 0 < j <= i ==> ns[j] == rest[j - 1];
    if path(ns[0]).Ok? && MissingAt(w, path, rest, i - 1) {
      forall j | 0 <= j <= i
        ensures path(ns[j]).Ok?
      {
        assert j > 0 ==> path(rest[j - 1]).Ok?;
      }
    }
    if MissingAt(w, path, ns, i) {
      forall j | 0 <= j <= i - 1
        ensures path(rest[j]).Ok?
      {
        assert path(ns[j + 1]).Ok?;
      }
    }
  }

  /** What State looks for: the first directory that is missing, if no path error comes before it. */
  lemma {:induction false} SomeMissingIff(w: World, path: PathOf, ns: seq<Name>)
    ensures SomeMissing(w, path, ns) <==> exists i: nat :: i < |ns| && MissingAt(w, path, ns, i)
  {
    hide Exists;
    if ns != [] {
      SomeMissingIff(w, path, ns[1..]);
      if path(ns[0]).Ok? && !Exists(w.dirs, path, ns[0]) {
        assert MissingAt(w, path, ns, 0);
      } else if SomeMissing(w, path, ns) {
        var i: nat :| i < |ns[1..]| && MissingAt(w, path, ns[1..], i);
        MissingLater(w, path, ns, i + 1);
      }
      if i: nat :| i < |ns| && MissingAt(w, path, ns, i) {
        if i > 0 {
          MissingLater(w, path, ns, i);
        }
      }
    }
  }

  // ----- What was read and tried -----

  /** What happened since the log was `before`. */
  ghost function Since(before: seq<Event>, after: seq<Event>): seq<Event>
    requires before <= after
  {
    after[|before|..]
  }

  lemma SinceSplits(a: seq<Event>, b: seq<Event>, c: seq<Event>)
    requires a <= b <= c
    ensures Since(a, c) == Since(a, b) + Since(b, c)
  {
  }

  ghost predicate ReadsNothing(ev: Event, n: Name, d: Dir) {
    ev.Read? && ev.n == n && ev.d == d && ev.pids == []
  }

  ghost predicate FindsSome(ev: Event, n: Name) {
    ev.Read? && ev.n == n && ev.pids != []
  }

  /** Directory d of hierarchy n was read, and there was no process in it. */
  ghost predicate ReadEmpty(trace: seq<Event>, n: Name, d: Dir) {
    exists i :: 0 <= i < |trace| && ReadsNothing(trace[i], n, d)
  }

  /** Some reading of hierarchy n came upon a process. */
  ghost predicate Found(trace: seq<Event>, n: Name) {
    exists i :: 0 <= i < |trace| && FindsSome(trace[i], n)
  }

  /** A removal was tried in hierarchy n. */
  ghost predicate Tried(trace: seq<Event>, n: Name) {
    exists i :: 0 <= i < |trace| && trace[i].Removal? && trace[i].n == n
  }

  ghost predicate AllTruthful(trace: seq<Event>) {
    forall i :: 0 <= i < |trace| ==> Truthful(trace[i])
  }

  ghost predicate AllIn(trace: seq<Event>, n: Name) {
    forall i :: 0 <= i < |trace| ==> trace[i].n == n
  }

  /** Nothing but truthful readings in hierarchy n. */
  ghost predicate Readings(trace: seq<Event>, n: Name) {
    forall i :: 0 <= i < |trace| ==> trace[i].Read? && trace[i].n == n && Truthful(trace[i])
  }

  ghost predicate WasRead(trace: seq<Event>, n: Name, d: Dir) {
    exists i :: 0 <= i < |trace| && trace[i].Read? && trace[i].n == n && trace[i].d == d
  }

  ghost predicate ReadBelow(trace: seq<Event>, n: Name, top: Dir, dirs: map<Name, set<Dir>>) {
    n in dirs ==> forall d :: d in dirs[n] && top <= d ==> WasRead(trace, n, d)
  }

  /** The process was seen in some reading. */
  ghost predicate PidRead(trace: seq<Event>, p: Pid) {
    exists i :: 0 <= i < |trace| && trace[i].Read? && p in trace[i].pids
  }

  /** All that was read, in the order of the readings. */
  ghost function PidsRead(trace: seq<Event>): seq<Pid> {
    if trace == [] then []
    else
      var last := trace[|trace| - 1];
      PidsRead(trace[..|trace| - 1]) + (if last.Read? then last.pids else [])
  }

  lemma MoreRead(trace: seq<Event>, ev: Event)
    requires ev.Read?
    ensures PidsRead(trace + [ev]) == PidsRead(trace) + ev.pids
    ensures forall n :: Readings(trace, n) && ev.n == n && Truthful(ev) ==> Readings(trace + [ev], n)
    ensures forall n, d :: WasRead(trace + [ev], n, d) <==> WasRead(trace, n, d) || (ev.n == n && ev.d == d)
    ensures forall p :: PidRead(trace + [ev], p) <==> PidRead(trace, p) || p in ev.pids
  {
    var all := trace + [ev];
    assert all[|trace|] == ev && forall i :: 0 <= i < |trace| ==> all[i] == trace[i];
    assert all[..|trace|] == trace;
  }

  /** Directory d was read and found empty at moment i, and up to moment k no process was found in the hierarchy. */
  ghost predicate EmptySince(trace: seq<Event>, i: nat, k: nat, n: Name, d: Dir)
    requires i < k <= |trace|
  {
    ReadsNothing(trace[i], n, d) && forall j :: i <= j < k ==> !FindsSome(trace[j], n)
  }

  /** Whatever is to be removed at moment k has been read and found empty of processes. */
  ghost predicate Checked(trace: seq<Event>, k: nat)
    requires k < |trace| && trace[k].Removal?
  {
    forall d :: d in trace[k].before && trace[k].d <= d ==>
      exists i: nat :: i < k && EmptySince(trace, i, k, trace[k].n, d)
  }

  /** No removal without a check of everything that it may remove. */
  ghost predicate Careful(trace: seq<Event>) {
    forall k: nat :: k < |trace| && trace[k].Removal? ==> Checked(trace, k)
  }

  lemma {:induction false} CarefulTogether(a: seq<Event>, b: seq<Event>)
    requires Careful(a) && Careful(b)
    ensures Careful(a + b)
  {
    var c := a + b;
    forall k: nat | k < |c| && c[k].Removal?
      ensures Checked(c, k)
    {
      forall d | d in c[k].before && c[k].d <= d
        ensures exists i: nat :: i < k && EmptySince(c, i, k, c[k].n, d)
      {
        if k < |a| {
          assert Checked(a, k);
          var i: nat :| i < k && EmptySince(a, i, k, a[k].n, d);
          assert EmptySince(c, i, k, c[k].n, d);
        } else {
          var m := k - |a|;
          assert b[m] == c[k] && Checked(b, m);
          var i: nat :| i < m && EmptySince(b, i, m, b[m].n, d);
          assert forall j :: |a| + i <= j < k ==> c[j] == b[j - |a|];
          assert EmptySince(c, |a| + i, k, c[k].n, d);
        }
      }
    }
  }

  /** Readings that came upon nothing, and then attempts to remove directories that were all read. */
  lemma {:induction false} CarefulAttempts(readings: seq<Event>, attempts: seq<Event>, n: Name, d: Dir, dirs: set<Dir>)
    requires AllIn(readings, n) && !Found(readings, n) && (forall i :: 0 <= i < |readings| ==> readings[i].Read?)
    requires forall e :: e in dirs && d <= e ==> ReadEmpty(readings, n, e)
    requires forall i :: 0 <= i < |attempts| ==> Attempts(attempts[i], n, d, dirs)
    ensures Careful(readings + attempts)
  {
    var c := readings + attempts;
    forall k: nat | k < |c| && c[k].Removal?
      ensures Checked(c, k)
    {
      assert k >= |readings| && Attempts(attempts[k - |readings|], n, d, dirs);
      forall e | e in c[k].before && d <= e
        ensures exists i: nat :: i < k && EmptySince(c, i, k, n, e)
      {
        assert ReadEmpty(readings, n, e);
        var i: nat :| i < |readings| && ReadsNothing(readings[i], n, e);
        forall j | i <= j < k
          ensures !FindsSome(c[j], n)
        {
          if j < |readings| {
            assert !FindsSome(readings[j], n);
          } else {
            assert Attempts(attempts[j - |readings|], n, d, dirs);
          }
        }
        assert EmptySince(c, i, k, n, e);
      }
    }
  }

  /** One attempt to remove directory d, when no more than `dirs` were there. */
  ghost predicate Attempts(ev: Event, n: Name, d: Dir, dirs: set<Dir>) {
    ev.Removal? && ev.n == n && ev.d == d && ev.before <= dirs
  }

  lemma MoreWasRead(a: seq<Event>, b: seq<Event>)
    ensures forall n, d :: ReadEmpty(a + b, n, d) <==> ReadEmpty(a, n, d) || ReadEmpty(b, n, d)
    ensures forall n :: Found(a + b, n) <==> Found(a, n) || Found(b, n)
    ensures forall n :: Tried(a + b, n) <==> Tried(a, n) || Tried(b, n)
  {
    var c := a + b;
    assert forall i :: 0 <= i < |a| ==> c[i] == a[i];
    assert forall i :: 0 <= i < |b| ==> c[|a| + i] == b[i];
  }

  // ----- Where Delete stands -----

  function Complaint(s: Name, o: SubsystemOutcome): seq<(Name, Reason)> {
    if o == Busy then [(s, HasProcesses)] else if o == NotRemoved then [(s, RemoveFailed)] else []
  }

  /** What Delete has done to the directories and seen on the way. */
  ghost predicate SafelyDone(d0: map<Name, set<Dir>>, dirs: map<Name, set<Dir>>, path: PathOf, ns: seq<Name>,
                             trace: seq<Event>) {
    && DirsRemoved(d0, dirs, path, ns) && AllTruthful(trace) && Careful(trace)
    && forall n, d :: n in d0 && d in d0[n] && d !in dirs[n] ==> ReadEmpty(trace, n, d)
  }

  /** In this world the directory holds no process. */
  ghost predicate Vacant(w: World, n: Name, d: Dir) {
    ValidWorld(w) && n in w.place && forall p :: p in w.live ==> p in w.place[n] && w.place[n][p] != d
  }

  /**
    * What safety means for processes: whatever was removed, the call had seen a moment at which that directory held no
    * process.
    */
  lemma RemovedWasVacant(d0: map<Name, set<Dir>>, dirs: map<Name, set<Dir>>, path: PathOf, ns: seq<Name>,
                         trace: seq<Event>, n: Name, d: Dir)
    requires SafelyDone(d0, dirs, path, ns, trace) && n in d0 && d in d0[n] && d !in dirs[n]
    ensures exists i :: 0 <= i < |trace| && trace[i].Read? && trace[i].n == n && Vacant(trace[i].at, n, d)
  {
    assert ReadEmpty(trace, n, d);
    var i :| 0 <= i < |trace| && ReadsNothing(trace[i], n, d);
    EmptyIsVacant(trace, i);
  }

  /** Moreover, each attempt came after such a moment for every directory in its reach, with nothing found since. */
  lemma AttemptsFollowChecks(trace: seq<Event>, k: nat, d: Dir)
    requires AllTruthful(trace) && Careful(trace) && k < |trace| && trace[k].Removal?
    requires d in trace[k].before && trace[k].d <= d
    ensures exists i :: 0 <= i < k && trace[i].Read? && Vacant(trace[i].at, trace[k].n, d)
                        && forall j :: i <= j < k ==> !FindsSome(trace[j], trace[k].n)
  {
    assert Checked(trace, k);
    var i: nat :| i < k && EmptySince(trace, i, k, trace[k].n, d);
    EmptyIsVacant(trace, i);
  }

  lemma EmptyIsVacant(trace: seq<Event>, i: nat)
    requires AllTruthful(trace) && i < |trace| && trace[i].Read? && trace[i].pids == []
    ensures Vacant(trace[i].at, trace[i].n, trace[i].d)
  {
    var ev := trace[i];
    assert Truthful(ev) && ValidHierarchy(ev.at, ev.n);
    forall p | p in ev.at.live
      ensures p in ev.at.place[ev.n] && ev.at.place[ev.n][p] != ev.d
    {
      assert p !in ev.pids;
    }
  }

  /** Delete has settled these subsystems: each was missing, or it was read, found empty and removed. */
  ghost predicate Settled(d0: map<Name, set<Dir>>, dirs: map<Name, set<Dir>>, path: PathOf, names: seq<Name>,
                          trace: seq<Event>) {
    forall s :: s in names ==>
      && Gone(dirs, path, s) && (path(s).Ok? || path(s) == Err(NoEntry)) && !Found(trace, s)
      && (path(s).Ok? && s in d0 ==> forall d :: d in d0[s] && path(s).value <= d ==> ReadEmpty(trace, s, d))
  }

  /** Every complaint has its reason: a process that was found, or an attempt at removal. */
  ghost predicate Justified(errs: seq<(Name, Reason)>, trace: seq<Event>) {
    forall i :: 0 <= i < |errs| ==>
      if errs[i].1 == HasProcesses then Found(trace, errs[i].0) else Tried(trace, errs[i].0)
  }

  /** No other hierarchy was touched. */
  ghost predicate OthersKept(d1: map<Name, set<Dir>>, d2: map<Name, set<Dir>>, s: Name) {
    d1.Keys == d2.Keys && forall n :: n in d2 && n != s ==> d2[n] == d1[n]
  }

  /** What one subsystem contributes. */
  ghost predicate OneDone(d1: map<Name, set<Dir>>, d2: map<Name, set<Dir>>, path: PathOf, s: Name, trace: seq<Event>,
                          o: SubsystemOutcome) {
    && OthersKept(d1, d2, s) && SafelyDone(d1, d2, path, [s], trace) && AllIn(trace, s)
    && (o != Removed && o != NotRemoved ==> d2 == d1)
    && (Found(trace, s) ==> d2 == d1 && (o == Busy || o.Stop?))
    && (o == Skipped || o == Removed ==> Settled(d1, d2, path, [s], trace))
    && (o == Busy || o == NotRemoved ==> !Gone(d2, path, s) && Justified(Complaint(s, o), trace))
  }

  /** Where Delete stands after i subsystems. */
  ghost predicate DeletedSoFar(d0: map<Name, set<Dir>>, dirs: map<Name, set<Dir>>, path: PathOf, ns: seq<Name>, i: nat,
                               errs: seq<(Name, Reason)>, trace: seq<Event>) {
    && i <= |ns| && SafelyDone(d0, dirs, path, ns, trace)
    && (errs == [] ==> Settled(d0, dirs, path, ns[..i], trace))
    && Justified(errs, trace)
    && (forall s :: Found(trace, s) ==> s in ns[..i] && errs != [])
    && (NoDuplicates(ns) ==> KeptSoFar(d0, dirs, path, ns, i, errs, trace))
  }

  /** No hierarchy comes up twice: what was busy, or is still to come, is as it was. */
  ghost predicate KeptSoFar(d0: map<Name, set<Dir>>, dirs: map<Name, set<Dir>>, path: PathOf, ns: seq<Name>, i: nat,
                            errs: seq<(Name, Reason)>, trace: seq<Event>)
    requires i <= |ns|
  {
    && (forall s :: s in dirs && (Found(trace, s) || s in ns[i..]) ==> s in d0 && dirs[s] == d0[s])
    && (errs != [] ==> exists s :: s in ns[..i] && !Gone(dirs, path, s))
  }

  lemma {:induction false} SafelyTogether(d0: map<Name, set<Dir>>, d1: map<Name, set<Dir>>, d2: map<Name, set<Dir>>,
                                          path: PathOf, ns: seq<Name>, s: Name, a: seq<Event>, b: seq<Event>)
    requires SafelyDone(d0, d1, path, ns, a) && SafelyDone(d1, d2, path, [s], b) && s in ns
    ensures SafelyDone(d0, d2, path, ns, a + b)
  {
    CarefulTogether(a, b);
    MoreWasRead(a, b);
    forall i | 0 <= i < |a + b|
      ensures Truthful((a + b)[i])
    {
      assert (a + b)[i] == if i < |a| then a[i] else b[i - |a|];
    }
    forall n | n in d0
      ensures n !in ns || path(n).Err? ==> d2[n] == d0[n]
      ensures n in ns && path(n).Ok? ==> RemovedBelow(d0[n], d2[n], path(n).value)
    {
      assert n in d1;
    }
  }

  lemma FoundOnlyIn(trace: seq<Event>, s: Name)
    requires AllIn(trace, s)
    ensures forall n :: n != s ==> !Found(trace, n)
  {
  }

  lemma {:induction false} SettledTogether(d0: map<Name, set<Dir>>, d1: map<Name, set<Dir>>, d2: map<Name, set<Dir>>,
                                           path: PathOf, ns: seq<Name>, names: seq<Name>, s: Name,
                                           a: seq<Event>, b: seq<Event>)
    requires SafelyDone(d0, d1, path, ns, a) && OthersKept(d1, d2, s) && AllIn(b, s)
    requires Settled(d0, d1, path, names, a) && Settled(d1, d2, path, [s], b)
    requires forall n :: Found(a, n) ==> n in names
    ensures Settled(d0, d2, path, names + [s], a + b)
  {
    MoreWasRead(a, b);
    FoundOnlyIn(b, s);
    forall n | n in names + [s]
      ensures Gone(d2, path, n) && (path(n).Ok? || path(n) == Err(NoEntry)) && !Found(a + b, n)
      ensures path(n).Ok? && n in d0 ==> forall d :: d in d0[n] && path(n).value <= d ==> ReadEmpty(a + b, n, d)
    {
      if n == s {
        assert s in [s] && (Found(a, s) ==> s in names);
      } else {
        assert n in names;
      }
    }
  }

  lemma {:induction false} JustifiedTogether(errs: seq<(Name, Reason)>, more: seq<(Name, Reason)>, a: seq<Event>,
                                             b: seq<Event>)
    requires Justified(errs, a) && Justified(more, b)
    ensures Justified(errs + more, a + b)
  {
    MoreWasRead(a, b);
    var all := errs + more;
    forall i | 0 <= i < |all|
      ensures if all[i].1 == HasProcesses then Found(a + b, all[i].0) else Tried(a + b, all[i].0)
    {
      assert all[i] == if i < |errs| then errs[i] else more[i - |errs|];
    }
  }

  lemma {:induction false} KeptTogether(d0: map<Name, set<Dir>>, d1: map<Name, set<Dir>>, d2: map<Name, set<Dir>>,
                                        path: PathOf, ns: seq<Name>, i: nat, errs: seq<(Name, Reason)>,
                                        a: seq<Event>, b: seq<Event>, o: SubsystemOutcome)
    requires i < |ns| && NoDuplicates(ns) && d0.Keys == d1.Keys && KeptSoFar(d0, d1, path, ns, i, errs, a)
    requires OneDone(d1, d2, path, ns[i], b, o) && !o.Stop?
    requires forall s :: Found(a, s) ==> s in ns[..i]
    ensures KeptSoFar(d0, d2, path, ns, i + 1, errs + Complaint(ns[i], o), a + b)
  {
    hide SafelyDone, Settled, Justified, Found;
    var s := ns[i];
    MoreWasRead(a, b);
    FoundOnlyIn(b, s);
    assert ns[..i + 1] == ns[..i] + [s] && ns[i..] == [s] + ns[i + 1..];
    assert s !in ns[..i] && s !in ns[i + 1..];
    if errs != [] {
      var n :| n in ns[..i] && !Gone(d1, path, n);
      assert n in ns[..i + 1] && !Gone(d2, path, n);
    } else if Complaint(s, o) != [] {
      assert s in ns[..i + 1] && !Gone(d2, path, s);
    }
  }

  lemma {:induction false} DeleteStep(d0: map<Name, set<Dir>>, d1: map<Name, set<Dir>>, d2: map<Name, set<Dir>>,
                                      path: PathOf, ns: seq<Name>, i: nat, errs: seq<(Name, Reason)>,
                                      a: seq<Event>, b: seq<Event>, o: SubsystemOutcome)
    requires i < |ns| && DeletedSoFar(d0, d1, path, ns, i, errs, a)
    requires OneDone(d1, d2, path, ns[i], b, o) && !o.Stop?
    ensures DeletedSoFar(d0, d2, path, ns, i + 1, errs + Complaint(ns[i], o), a + b)
  {
    var s := ns[i];
    MoreWasRead(a, b);
    FoundOnlyIn(b, s);
    assert ns[..i + 1] == ns[..i] + [s];
    SafelyTogether(d0, d1, d2, path, ns, s, a, b);
    JustifiedTogether(errs, Complaint(s, o), a, b);
    if errs + Complaint(s, o) == [] {
      SettledTogether(d0, d1, d2, path, ns, ns[..i], s, a, b);
    }
    if NoDuplicates(ns) {
      KeptTogether(d0, d1, d2, path, ns, i, errs, a, b, o);
    }
  }

  /** A call that stops half-way has been as careful as any. */
  lemma {:induction false} StopStep(d0: map<Name, set<Dir>>, d1: map<Name, set<Dir>>, d2: map<Name, set<Dir>>,
                                    path: PathOf, ns: seq<Name>, i: nat, errs: seq<(Name, Reason)>,
                                    a: seq<Event>, b: seq<Event>, o: SubsystemOutcome)
    requires i < |ns| && DeletedSoFar(d0, d1, path, ns, i, errs, a)
    requires OneDone(d1, d2, path, ns[i], b, o) && o.Stop?
    ensures SafelyDone(d0, d2, path, ns, a + b)
    ensures NoDuplicates(ns) ==> forall s :: Found(a + b, s) && s in d2 ==> s in d0 && d2[s] == d0[s]
  {
    MoreWasRead(a, b);
    FoundOnlyIn(b, ns[i]);
    SafelyTogether(d0, d1, d2, path, ns, ns[i], a, b);
    assert ns[i] in ns[i..];
  }

  /** Why Delete stops: the path is not known, or a directory of the cgroup cannot be read. */
  ghost predicate Obstacle(dirs: map<Name, set<Dir>>, refused: set<(Name, Dir)>, path: PathOf, s: Name, e: Error) {
    (path(s) == Err(e) && e != NoEntry) || (e == Refused && Unreadable(dirs, refused, path, s))
  }

  lemma NothingDone(dirs: map<Name, set<Dir>>, refused: set<(Name, Dir)>, path: PathOf, ns: seq<Name>)
    ensures SafelyDone(dirs, dirs, path, ns, []) && DeletedSoFar(dirs, dirs, path, ns, 0, [], [])
    ensures AllHandled(dirs, dirs, refused, path, ns, 0, [], [])
    ensures DirsRemoved(dirs, dirs, path, ns) && forall s :: !Found([], s)
  {
  }

  /** A subsystem in which something was read and nothing removed. */
  lemma OnlyRead(dirs: map<Name, set<Dir>>, path: PathOf, s: Name, trace: seq<Event>, o: SubsystemOutcome)
    requires Readings(trace, s) && o != Removed && o != NotRemoved
    requires Found(trace, s) ==> o == Busy || o.Stop?
    requires o == Skipped ==> path(s) == Err(NoEntry) || (path(s).Ok? && Gone(dirs, path, s))
    requires o == Busy ==> !Gone(dirs, path, s) && Found(trace, s)
    ensures OneDone(dirs, dirs, path, s, trace, o)
  {
    if o == Skipped && path(s).Ok? && s in dirs {
      assert forall d :: d in dirs[s] ==> !(path(s).value <= d);
    }
  }

  lemma NothingRead(s: Name)
    ensures Readings([], s) && !Found([], s) && PidsRead([]) == [] && forall p :: !PidRead([], p)
  {
  }

  lemma ListedIsFound(readings: seq<Event>, s: Name, pids: seq<Pid>)
    requires Readings(readings, s) && forall p :: p in pids <==> PidRead(readings, p)
    ensures pids == [] <==> !Found(readings, s)
  {
    if pids != [] {
      assert PidRead(readings, pids[0]);
      var i :| 0 <= i < |readings| && readings[i].Read? && pids[0] in readings[i].pids;
      assert FindsSome(readings[i], s);
    }
    if Found(readings, s) {
      var i :| 0 <= i < |readings| && FindsSome(readings[i], s);
      assert PidRead(readings, readings[i].pids[0]);
    }
  }

  lemma GoneMeans(dirs: map<Name, set<Dir>>, path: PathOf, s: Name)
    requires path(s).Ok? && s in dirs
    ensures Gone(dirs, path, s) <==> forall d :: d in dirs[s] ==> !(path(s).value <= d)
  {
  }

  /** What was read and not found occupied was found empty. */
  lemma ReadIsEmpty(trace: seq<Event>, n: Name, d: Dir)
    requires WasRead(trace, n, d) && !Found(trace, n)
    ensures ReadEmpty(trace, n, d)
  {
    var i :| 0 <= i < |trace| && trace[i].Read? && trace[i].n == n && trace[i].d == d;
    assert !FindsSome(trace[i], n);
    assert ReadsNothing(trace[i], n, d);
  }

  /** A subsystem in which everything was read and found empty before removals were tried. */
  lemma {:induction false} ReadThenRemoved(d1: map<Name, set<Dir>>, d2: map<Name, set<Dir>>, path: PathOf, s: Name,
                                           readings: seq<Event>, attempts: seq<Event>, o: SubsystemOutcome)
    requires Readings(readings, s) && !Found(readings, s) && attempts != []
    requires Exists(d1, path, s) && ReadBelow(readings, s, path(s).value, d1)
    requires forall i :: 0 <= i < |attempts| ==> Attempts(attempts[i], s, path(s).value, d1[s])
    requires OthersKept(d1, d2, s) && RemovedBelow(d1[s], d2[s], path(s).value)
    requires o == if Gone(d2, path, s) then Removed else NotRemoved
    ensures OneDone(d1, d2, path, s, readings + attempts, o) && Visited(d1, path, s, readings + attempts, o)
  {
    hide Truthful, Careful;
    ReadStays(readings, attempts, s);
    var d := path(s).value;
    MoreWasRead(readings, attempts);
    forall e | e in d1[s] && d <= e
      ensures ReadEmpty(readings, s, e)
    {
      ReadIsEmpty(readings, s, e);
    }
    CarefulAttempts(readings, attempts, s, d, d1[s]);
    TruthfulTogether(readings, attempts, s, d, d1[s]);
  }

  lemma {:induction false} TruthfulTogether(readings: seq<Event>, attempts: seq<Event>, s: Name, d: Dir, dirs: set<Dir>)
    requires Readings(readings, s) && attempts != []
    requires forall i :: 0 <= i < |attempts| ==> Attempts(attempts[i], s, d, dirs)
    ensures AllTruthful(readings + attempts) && AllIn(readings + attempts, s)
    ensures !Found(attempts, s) && Tried(attempts, s)
  {
    hide Truthful;
    var trace := readings + attempts;
    forall i | 0 <= i < |trace|
      ensures Truthful(trace[i]) && trace[i].n == s
    {
      if i >= |readings| {
        AttemptIsTruthful(attempts[i - |readings|], s, d, dirs);
      }
    }
    assert Attempts(attempts[0], s, d, dirs);
  }

  lemma AttemptIsTruthful(ev: Event, s: Name, d: Dir, dirs: set<Dir>)
    requires Attempts(ev, s, d, dirs)
    ensures Truthful(ev) && ev.n == s && !FindsSome(ev, s)
  {
  }

  // ----- Nothing is left out -----

  ghost predicate Blocked(d0: map<Name, set<Dir>>, refused: set<(Name, Dir)>, path: PathOf, s: Name) {
    exists e :: Obstacle(d0, refused, path, s, e)
  }

  /** How far one subsystem was dealt with, for each outcome. */
  ghost predicate Visited(d1: map<Name, set<Dir>>, path: PathOf, s: Name, trace: seq<Event>, o: SubsystemOutcome) {
    match o
    case Skipped => path(s) == Err(NoEntry) || (path(s).Ok? && !Exists(d1, path, s))
    case Busy => Exists(d1, path, s) && ReadBelow(trace, s, path(s).value, d1) && Found(trace, s)
    case Stop(_) => true
    case _ =>
      Exists(d1, path, s) && ReadBelow(trace, s, path(s).value, d1) && !Found(trace, s) && Tried(trace, s)
  }

  /**
    * The subsystem was dealt with: it was missing from the start, or every directory of it was read, and either a
    * process was found or a removal was tried.
    */
  ghost predicate Handled(d0: map<Name, set<Dir>>, path: PathOf, s: Name, trace: seq<Event>) {
    || path(s) == Err(NoEntry)
    || (path(s).Ok? && !Exists(d0, path, s))
    || (Exists(d0, path, s) && ReadBelow(trace, s, path(s).value, d0) && (Found(trace, s) || Tried(trace, s)))
  }

  /** What was found occupied, or is still there, is named. */
  ghost predicate NamedIn(errs: seq<(Name, Reason)>, dirs: map<Name, set<Dir>>, path: PathOf, s: Name,
                          trace: seq<Event>) {
    && (Found(trace, s) ==> (s, HasProcesses) in errs)
    && (!Found(trace, s) && !Gone(dirs, path, s) ==> (s, RemoveFailed) in errs)
  }

  /** What the error says of one subsystem, and of several in their order. */
  ghost function ComplaintFor(dirs: map<Name, set<Dir>>, path: PathOf, trace: seq<Event>, s: Name): seq<(Name,
                              Reason)> {
    if Found(trace, s) then [(s, HasProcesses)] else if Gone(dirs, path, s) then [] else [(s, RemoveFailed)]
  }

  ghost function Complaints(dirs: map<Name, set<Dir>>, path: PathOf, trace: seq<Event>, names: seq<Name>)
    : seq<(Name, Reason)>
  {
    if names == [] then []
    else Complaints(dirs, path, trace, names[..|names| - 1]) + ComplaintFor(dirs, path, trace, names[|names| - 1])
  }

  ghost predicate EventsIn(trace: seq<Event>, names: seq<Name>) {
    forall k :: 0 <= k < |trace| ==> trace[k].n in names
  }

  ghost predicate UntouchedBut(d0: map<Name, set<Dir>>, dirs: map<Name, set<Dir>>, names: seq<Name>) {
    d0.Keys == dirs.Keys && forall n :: n in dirs && n !in names ==> dirs[n] == d0[n]
  }

  /** After i subsystems, each of them was dealt with and is named if it should be; the others were left alone. */
  ghost predicate AllHandled(d0: map<Name, set<Dir>>, dirs: map<Name, set<Dir>>, refused: set<(Name, Dir)>,
                             path: PathOf,
                             ns: seq<Name>, i: nat, errs: seq<(Name, Reason)>, trace: seq<Event>) {
    && i <= |ns| && UntouchedBut(d0, dirs, ns[..i]) && EventsIn(trace, ns[..i])
    && (forall s :: s in ns[..i] ==> Handled(d0, path, s, trace) && NamedIn(errs, dirs, path, s, trace))
    && (forall s :: s in ns[..i] ==> !Blocked(d0, refused, path, s))
    && (NoDuplicates(ns) ==> errs == Complaints(dirs, path, trace, ns[..i]))
  }

  lemma {:induction false} ComplaintsStay(d1: map<Name, set<Dir>>, d2: map<Name, set<Dir>>, path: PathOf, a: seq<Event>,
                                          b: seq<Event>, names: seq<Name>, s: Name)
    requires OthersKept(d1, d2, s) && AllIn(b, s) && s !in names
    ensures Complaints(d2, path, a + b, names) == Complaints(d1, path, a, names)
  {
    if names != [] {
      var n := names[|names| - 1];
      ComplaintsStay(d1, d2, path, a, b, names[..|names| - 1], s);
      MoreWasRead(a, b);
      FoundOnlyIn(b, s);
    }
  }

  /** What was dealt with stays so when the next subsystem is visited. */
  lemma {:induction false} HandledStays(d0: map<Name, set<Dir>>, d1: map<Name, set<Dir>>, d2: map<Name, set<Dir>>,
                                        path: PathOf, a: seq<Event>, b: seq<Event>, errs: seq<(Name, Reason)>,
                                        s: Name, o: SubsystemOutcome, n: Name)
    requires OneDone(d1, d2, path, s, b, o) && !o.Stop? && Handled(d0, path, n, a) && NamedIn(errs, d1, path, n, a)
    ensures Handled(d0, path, n, a + b)
    ensures NamedIn(errs + Complaint(s, o), d2, path, n, a + b)
  {
    MoreWasRead(a, b);
    FoundOnlyIn(b, s);
    ReadStays(a, b, n);
    if n == s {
      NamedOnce(d1, d2, path, s, b, o);
    }
  }

  lemma ReadStays(a: seq<Event>, b: seq<Event>, n: Name)
    ensures forall d :: WasRead(a, n, d) || WasRead(b, n, d) ==> WasRead(a + b, n, d)
  {
    var c := a + b;
    assert forall i :: 0 <= i < |a| ==> c[i] == a[i];
    assert forall i :: 0 <= i < |b| ==> c[|a| + i] == b[i];
  }

  /** The visit itself names what it should. */
  lemma NamedOnce(d1: map<Name, set<Dir>>, d2: map<Name, set<Dir>>, path: PathOf, s: Name, b: seq<Event>,
                  o: SubsystemOutcome)
    requires OneDone(d1, d2, path, s, b, o) && !o.Stop?
    ensures NamedIn(Complaint(s, o), d2, path, s, b)
  {
    assert s in [s];
  }

  lemma {:induction false} NewlyHandled(d0: map<Name, set<Dir>>, d1: map<Name, set<Dir>>, path: PathOf, a: seq<Event>,
                                        b: seq<Event>, s: Name, o: SubsystemOutcome)
    requires Visited(d1, path, s, b, o) && !o.Stop? && d0.Keys == d1.Keys && (s in d1 ==> d1[s] == d0[s])
    ensures Handled(d0, path, s, a + b)
  {
    MoreWasRead(a, b);
    ReadStays(a, b, s);
  }

  lemma {:induction false} HandledStep(d0: map<Name, set<Dir>>, d1: map<Name, set<Dir>>, d2: map<Name, set<Dir>>,
                                       refused: set<(Name, Dir)>, path: PathOf, ns: seq<Name>, i: nat,
                                       errs: seq<(Name, Reason)>, a: seq<Event>, b: seq<Event>, o: SubsystemOutcome)
    requires i < |ns| && AllHandled(d0, d1, refused, path, ns, i, errs, a)
    requires OneDone(d1, d2, path, ns[i], b, o) && Visited(d1, path, ns[i], b, o) && !o.Stop?
    requires !Blocked(d1, refused, path, ns[i])
    ensures AllHandled(d0, d2, refused, path, ns, i + 1, errs + Complaint(ns[i], o), a + b)
  {
    hide Handled, NamedIn, Visited, OneDone, Complaint, ComplaintFor, Found, EventsIn, Blocked, AllIn;
    var s := ns[i];
    var before, after := ns[..i], ns[..i + 1];
    assert after == before + [s];
    OneDoneFrame(d1, d2, path, s, b, o);
    forall n | n in after
      ensures Handled(d0, path, n, a + b) && NamedIn(errs + Complaint(s, o), d2, path, n, a + b)
      ensures !Blocked(d0, refused, path, n)
    {
      if n in before {
        HandledStays(d0, d1, d2, path, a, b, errs, s, o, n);
      } else {
        NewlyHandled(d0, d1, path, a, b, s, o);
        NewlyNamed(d1, d2, path, a, b, errs, before, s, o);
        SameBlocked(d0, d1, refused, path, s);
      }
    }
    EventsTogether(a, b, before, s);
    if NoDuplicates(ns) {
      ComplaintsGrow(d1, d2, path, a, b, before, s, o);
    }
  }

  lemma EventsTogether(a: seq<Event>, b: seq<Event>, names: seq<Name>, s: Name)
    requires EventsIn(a, names) && AllIn(b, s)
    ensures EventsIn(a + b, names + [s])
  {
    var c := a + b;
    forall k | 0 <= k < |c|
      ensures c[k].n in names + [s]
    {
      assert c[k] == if k < |a| then a[k] else b[k - |a|];
    }
  }

  lemma OneDoneFrame(d1: map<Name, set<Dir>>, d2: map<Name, set<Dir>>, path: PathOf, s: Name, b: seq<Event>,
                     o: SubsystemOutcome)
    requires OneDone(d1, d2, path, s, b, o)
    ensures OthersKept(d1, d2, s) && AllIn(b, s)
  {
  }

  lemma NewlyNamed(d1: map<Name, set<Dir>>, d2: map<Name, set<Dir>>, path: PathOf, a: seq<Event>, b: seq<Event>,
                   errs: seq<(Name, Reason)>, before: seq<Name>, s: Name, o: SubsystemOutcome)
    requires OneDone(d1, d2, path, s, b, o) && !o.Stop? && EventsIn(a, before) && s !in before
    ensures NamedIn(errs + Complaint(s, o), d2, path, s, a + b)
  {
    MoreWasRead(a, b);
    NamedOnce(d1, d2, path, s, b, o);
    assert !Found(a, s);
  }

  /** The complaint of a first visit is the one that the outcome calls for. */
  lemma ComplaintIs(d1: map<Name, set<Dir>>, d2: map<Name, set<Dir>>, path: PathOf, a: seq<Event>, b: seq<Event>,
                    before: seq<Name>, s: Name, o: SubsystemOutcome)
    requires OneDone(d1, d2, path, s, b, o) && Visited(d1, path, s, b, o) && !o.Stop?
    requires EventsIn(a, before) && s !in before
    ensures Complaint(s, o) == ComplaintFor(d2, path, a + b, s)
  {
    MoreWasRead(a, b);
    assert !Found(a, s);
    assert s in [s];
  }

  lemma ComplaintsGrow(d1: map<Name, set<Dir>>, d2: map<Name, set<Dir>>, path: PathOf, a: seq<Event>, b: seq<Event>,
                       before: seq<Name>, s: Name, o: SubsystemOutcome)
    requires OneDone(d1, d2, path, s, b, o) && Visited(d1, path, s, b, o) && !o.Stop?
    requires EventsIn(a, before) && s !in before
    ensures Complaints(d2, path, a + b, before + [s]) == Complaints(d1, path, a, before) + Complaint(s, o)
  {
    OneDoneFrame(d1, d2, path, s, b, o);
    hide OneDone, Visited, EventsIn, Complaint, ComplaintFor, OthersKept;
    var after := before + [s];
    ComplaintsStay(d1, d2, path, a, b, before, s);
    ComplaintIs(d1, d2, path, a, b, before, s, o);
    assert after[..|after| - 1] == before && after[|after| - 1] == s;
  }

  lemma SameBlocked(d0: map<Name, set<Dir>>, d1: map<Name, set<Dir>>, refused: set<(Name, Dir)>, path: PathOf, s: Name)
    requires d0.Keys == d1.Keys && (s in d1 ==> d1[s] == d0[s]) && !Blocked(d1, refused, path, s)
    ensures !Blocked(d0, refused, path, s)
  {
    forall e | Obstacle(d0, refused, path, s, e)
      ensures Obstacle(d1, refused, path, s, e)
    {
    }
  }

  /** What Delete's result is about: the first obstacle, or else every subsystem. */
  ghost predicate DeleteResult(d0: map<Name, set<Dir>>, dirs: map<Name, set<Dir>>, refused: set<(Name, Dir)>,
                               path: PathOf, ns: seq<Name>, trace: seq<Event>, e: Option<Error>) {
    || (e.Some? && exists k: nat {:trigger ns[k]} ::
          k < |ns| && StoppedBy(d0, dirs, refused, path, ns, k, trace, e.value))
    || ((e == None || (e.value.UnableToRemove? && e.value.errs != []))
        && Justified(Errs(e), trace)
        && AllHandled(d0, dirs, refused, path, ns, |ns|, Errs(e), trace))
  }

  function Errs(e: Option<Error>): seq<(Name, Reason)> {
    if e.Some? && e.value.UnableToRemove? then e.value.errs else []
  }

  /** The k-th subsystem has the first obstacle: those before it were dealt with, those after it were left alone. */
  ghost predicate StoppedBy(d0: map<Name, set<Dir>>, dirs: map<Name, set<Dir>>, refused: set<(Name, Dir)>, path: PathOf,
                            ns: seq<Name>, k: nat, trace: seq<Event>, e: Error)
    requires k < |ns|
  {
    && Obstacle(d0, refused, path, ns[k], e)
    && (forall s :: s in ns[..k] ==> !Blocked(d0, refused, path, s) && Handled(d0, path, s, trace))
    && UntouchedBut(d0, dirs, ns[..k]) && EventsIn(trace, ns[..k + 1])
  }

  lemma {:induction false} StopHandled(d0: map<Name, set<Dir>>, d1: map<Name, set<Dir>>, refused: set<(Name, Dir)>,
                                       path: PathOf, ns: seq<Name>, i: nat, errs: seq<(Name, Reason)>,
                                       a: seq<Event>, b: seq<Event>, e: Error)
    requires i < |ns| && AllHandled(d0, d1, refused, path, ns, i, errs, a) && DirsRemoved(d0, d1, path, ns)
    requires AllIn(b, ns[i]) && Obstacle(d1, refused, path, ns[i], e)
    ensures StoppedBy(d0, d1, refused, path, ns, i, a + b, e)
  {
    var s := ns[i];
    forall n | n in ns[..i]
      ensures Handled(d0, path, n, a + b)
    {
      MoreWasRead(a, b);
      ReadStays(a, b, n);
    }
    EventsTogether(a, b, ns[..i], s);
    assert ns[..i + 1] == ns[..i] + [s];
  }

  /** No directory of the cgroup is left in any hierarchy, and every path is known or its directory missing. */
  ghost predicate NothingLeft(dirs: map<Name, set<Dir>>, path: PathOf, ns: seq<Name>) {
    forall s :: s in ns ==> Gone(dirs, path, s) && (path(s).Ok? || path(s) == Err(NoEntry))
  }

  lemma {:induction false} DeleteEnds(d0: map<Name, set<Dir>>, dirs: map<Name, set<Dir>>, refused: set<(Name, Dir)>,
                                      path: PathOf, ns: seq<Name>, errs: seq<(Name, Reason)>, trace: seq<Event>)
    requires DeletedSoFar(d0, dirs, path, ns, |ns|, errs, trace)
    requires AllHandled(d0, dirs, refused, path, ns, |ns|, errs, trace)
    ensures SafelyDone(d0, dirs, path, ns, trace) && DirsRemoved(d0, dirs, path, ns)
    ensures DeleteResult(d0, dirs, refused, path, ns, trace, if errs == [] then None else Some(UnableToRemove(errs)))
    ensures errs == [] ==> Settled(d0, dirs, path, ns, trace)
    ensures NoDuplicates(ns) ==> (errs == [] <==> NothingLeft(dirs, path, ns))
    ensures forall s :: Found(trace, s) ==> errs != [] && (NoDuplicates(ns) ==> s in dirs ==> dirs[s] == d0[s])
  {
    var e := if errs == [] then None else Some(UnableToRemove(errs));
    assert ns[..|ns|] == ns && Errs(e) == errs;
    if NoDuplicates(ns) && errs != [] {
      var s :| s in ns && !Gone(dirs, path, s);
    }
  }

  lemma {:induction false} DeleteStops(d0: map<Name, set<Dir>>, d1: map<Name, set<Dir>>, w: World,
                                       refused: set<(Name, Dir)>, path: PathOf, ns: seq<Name>, i: nat,
                                       errs: seq<(Name, Reason)>, a: seq<Event>, b: seq<Event>, o: SubsystemOutcome)
    requires i < |ns| && DeletedSoFar(d0, d1, path, ns, i, errs, a)
    requires AllHandled(d0, d1, refused, path, ns, i, errs, a)
    requires OneDone(d1, w.dirs, path, ns[i], b, o) && o.Stop? && Obstacle(d1, refused, path, ns[i], o.error)
    ensures SafelyDone(d0, w.dirs, path, ns, a + b) && DirsRemoved(d0, w.dirs, path, ns)
    ensures DeleteResult(d0, w.dirs, refused, path, ns, a + b, Some(o.error))
    ensures NoDuplicates(ns) ==> !NothingLeft(w.dirs, path, ns)
    ensures NoDuplicates(ns) ==> forall s :: Found(a + b, s) && s in w.dirs ==> s in d0 && w.dirs[s] == d0[s]
  {
    StopStep(d0, d1, w.dirs, path, ns, i, errs, a, b, o);
    StopHandled(d0, d1, refused, path, ns, i, errs, a, b, o.error);
    ObstacleStands(d1, refused, path, ns[i], o.error);
    assert ns[i] in ns;
  }

  lemma ObstacleStands(dirs: map<Name, set<Dir>>, refused: set<(Name, Dir)>, path: PathOf, s: Name, e: Error)
    requires Obstacle(dirs, refused, path, s, e)
    ensures !(Gone(dirs, path, s) && (path(s).Ok? || path(s) == Err(NoEntry)))
  {
  }
}
