/**
  * Runs of a v1 cgroup: any calls in any order, what each of them answers, and how the deleted state spreads. It is
  * enough for these results that every single call has the effect stated here.
  */
module Runs {
  import opened Directories
  import opened Wrappers
  import opened Hierarchies
  import opened Deletion

  datatype CgroupState = Unknown | Thawed | Frozen | Freezing | Deleted

  /** What a caller and the kernel see of a cgroup. */
  datatype Status = Status(w: World, err: Option<Error>)

  datatype Call = AddCall(pid: Pid) | MoveToCall | DeleteCall | StateCall

  datatype Answer = Returned(e: Option<Error>) | Reported(st: CgroupState)

  /** What a call with an error already set returns. */
  function Refusal(c: Call, err: Error): Answer {
    match c
    case AddCall(pid) => Returned(Some(if pid <= 0 then InvalidPid else err))
    case StateCall => Reported(Deleted)
    case _ => Returned(Some(err))
  }

  /** What every call does and answers, whatever its outcome. */
  ghost predicate CallEffect(c: Call, a: Status, ans: Answer, b: Status, path: PathOf, ns: seq<Name>) {
    && (ValidWorld(a.w) ==> ValidWorld(b.w))
    && (if c == DeleteCall then DirsRemoved(a.w.dirs, b.w.dirs, path, ns) else b.w.dirs == a.w.dirs)
    && match c
       case StateCall =>
         && b == Status(a.w, if SomeMissing(a.w, path, ns) then Some(CgroupDeleted) else a.err)
         && ans.Reported? && (ans.st == Deleted <==> b.err == Some(CgroupDeleted))
       case _ =>
         && ans.Returned? && (a.err.Some? ==> b == a && ans == Refusal(c, a.err.value))
         && b.err == if c == DeleteCall && ans == Returned(None) then Some(CgroupDeleted) else a.err
  }

  /**
    * A run: any calls in any order; between two calls the rest of the system may do anything but touch the error
    * field.
    */
  ghost predicate IsRun(calls: seq<Call>, before: seq<Status>, answers: seq<Answer>, after: seq<Status>,
                        path: PathOf, ns: seq<Name>) {
    && |calls| == |before| == |answers| == |after|
    && (forall i :: 0 <= i < |calls| ==> CallEffect(calls[i], before[i], answers[i], after[i], path, ns))
    && (forall i {:trigger Follows(before, after, i)} :: 0 < i < |calls| ==> Follows(before, after, i))
  }

  ghost predicate Follows(before: seq<Status>, after: seq<Status>, i: nat)
    requires 0 < i < |before| == |after|
  {
    before[i].err == after[i - 1].err
  }

  /**
    * Deletion is final: once the error field says deleted, it stays so; every later call is refused (State: reports
    * Deleted) and changes nothing.
    */
  lemma {:induction false} DeletedIsFinal(calls: seq<Call>, before: seq<Status>, answers: seq<Answer>,
                                          after: seq<Status>,
                                          path: PathOf, ns: seq<Name>, i: nat, j: nat)
    requires IsRun(calls, before, answers, after, path, ns) && i < j < |calls| && after[i].err == Some(CgroupDeleted)
    ensures before[j].err == Some(CgroupDeleted) && after[j] == before[j]
    ensures answers[j] == Refusal(calls[j], CgroupDeleted)
    decreases j
  {
    assert Follows(before, after, j);
    if i < j - 1 {
      DeletedIsFinal(calls, before, answers, after, path, ns, i, j - 1);
    }
    assert CallEffect(calls[j], before[j], answers[j], after[j], path, ns);
  }

  /** Call k has marked the cgroup: a Delete that returned nil, or a State that saw a directory missing. */
  ghost predicate Marks(c: Call, a: Status, ans: Answer, path: PathOf, ns: seq<Name>) {
    (c == DeleteCall && ans == Returned(None)) || (c == StateCall && SomeMissing(a.w, path, ns))
  }

  /** The error field is set exactly when some call before has marked the cgroup, and then it says deleted. */
  lemma {:induction false} SetIffMarked(calls: seq<Call>, before: seq<Status>, answers: seq<Answer>, after: seq<Status>,
                                        path: PathOf, ns: seq<Name>, j: nat)
    requires IsRun(calls, before, answers, after, path, ns) && j < |calls| && before[0].err == None
    ensures after[j].err == None || after[j].err == Some(CgroupDeleted)
    ensures after[j].err != None <==> exists k :: 0 <= k <= j && Marks(calls[k], before[k], answers[k], path, ns)
    decreases j
  {
    assert CallEffect(calls[j], before[j], answers[j], after[j], path, ns);
    if j > 0 {
      assert Follows(before, after, j);
      SetIffMarked(calls, before, answers, after, path, ns, j - 1);
    }
    if after[j].err != None && before[j].err == None {
      assert Marks(calls[j], before[j], answers[j], path, ns);
    }
    if Marks(calls[j], before[j], answers[j], path, ns) {
      assert after[j].err != None;
    }
  }

  // ----- What marking can strand -----

  /** Some hierarchy still has the cgroup's directory. */
  ghost predicate SomeExists(w: World, path: PathOf, ns: seq<Name>) {
    exists s :: s in ns && Exists(w.dirs, path, s)
  }

  /** State would mark the cgroup while a live process is inside it. */
  ghost predicate Strands(w: World, path: PathOf, ns: seq<Name>) {
    SomeMissing(w, path, ns) && exists p :: p in w.live && InsideAny(w, path, ns, p)
  }

  lemma {:induction false} MissingByDirs(w0: World, w: World, path: PathOf, ns: seq<Name>)
    requires w.dirs == w0.dirs
    ensures SomeMissing(w, path, ns) <==> SomeMissing(w0, path, ns)
  {
    if ns != [] {
      MissingByDirs(w0, w, path, ns[1..]);
    }
  }

  /** The same directories with a single process: in directory d of hierarchy s, and at the top of all others. */
  ghost function Occupied(dirs: map<Name, set<Dir>>, s: Name, d: Dir): World {
    World(dirs, map n | n in dirs :: map[1 := if n == s then d else []], [1])
  }

  lemma OccupiedIsValid(w0: World, s: Name, d: Dir)
    requires ValidWorld(w0) && s in w0.dirs && d in w0.dirs[s]
    ensures ValidWorld(Occupied(w0.dirs, s, d))
  {
    var w := Occupied(w0.dirs, s, d);
    forall n {:trigger ValidHierarchy(w, n)} | n in w.dirs
      ensures ValidHierarchy(w, n)
    {
      assert ValidHierarchy(w0, n);
    }
  }

  /**
    * Exactly when State can strand processes, in terms of the directories: some directory is missing before any path
    * error, and another one is there. Then, and only then, these directories can hold a process of the cgroup that
    * State marks deleted.
    */
  lemma {:induction false} StrandsIff(w0: World, path: PathOf, ns: seq<Name>)
    requires ValidWorld(w0)
    ensures (exists w :: ValidWorld(w) && w.dirs == w0.dirs && Strands(w, path, ns)) <==>
            SomeMissing(w0, path, ns) && SomeExists(w0, path, ns)
  {
    if w :| ValidWorld(w) && w.dirs == w0.dirs && Strands(w, path, ns) {
      MissingByDirs(w0, w, path, ns);
      var p :| p in w.live && InsideAny(w, path, ns, p);
      var s :| s in ns && Inside(w, path, s, p);
      AbsentIsGone(w, path, s);
      assert ValidHierarchy(w, s);
      assert Exists(w0.dirs, path, s);
    }
    if SomeMissing(w0, path, ns) && SomeExists(w0, path, ns) {
      var s :| s in ns && Exists(w0.dirs, path, s);
      var w := Occupied(w0.dirs, s, path(s).value);
      OccupiedIsValid(w0, s, path(s).value);
      MissingByDirs(w0, w, path, ns);
      assert Inside(w, path, s, 1) && 1 in w.live;
      assert Strands(w, path, ns);
    }
  }

  /**
    * What is stranded stays so: after a State that saw a directory missing, every later Delete is refused and removes
    * nothing, and every later Add and MoveTo is refused and moves nobody.
    */
  lemma {:induction false} StrandedForGood(calls: seq<Call>, before: seq<Status>, answers: seq<Answer>,
                                           after: seq<Status>,
                                           path: PathOf, ns: seq<Name>, i: nat, j: nat)
    requires IsRun(calls, before, answers, after, path, ns) && i < j < |calls|
    requires calls[i] == StateCall && SomeMissing(before[i].w, path, ns)
    ensures answers[i] == Reported(Deleted) && after[j] == before[j]
    ensures answers[j] == Refusal(calls[j], CgroupDeleted)
  {
    assert CallEffect(calls[i], before[i], answers[i], after[i], path, ns);
    DeletedIsFinal(calls, before, answers, after, path, ns, i, j);
  }

  /** A process in the cpu hierarchy, and no directory in the memory hierarchy. */
  function HalfGone(): World {
    World(map["cpu" := {[], ["c"]}, "memory" := {[]}], map["cpu" := map[7 := ["c"]], "memory" := map[7 := []]], [7])
  }

  function PathC(): PathOf {
    _ => Ok(["c"])
  }

  lemma HalfGoneIsValid()
    ensures ValidWorld(HalfGone()) && Inside(HalfGone(), PathC(), "cpu", 7)
  {
    var w := HalfGone();
    assert ["c"][..0] == [];
    assert ParentThere({[], ["c"]}, ["c"]);
    assert ValidHierarchy(w, "cpu") && ValidHierarchy(w, "memory");
  }

  lemma HalfGoneIsMissing()
    ensures SomeMissing(HalfGone(), PathC(), ["cpu", "memory"])
  {
    assert ["cpu", "memory"][1..] == ["memory"];
    assert SomeMissing(HalfGone(), PathC(), ["memory"]);
  }

  /** One such case: State reports Deleted, Delete refuses, and process 7 is still inside. */
  lemma StateCanStrandACgroup(b: Status, c: Status, st: Answer, deleted: Answer)
    requires CallEffect(StateCall, Status(HalfGone(), None), st, b, PathC(), ["cpu", "memory"])
    requires CallEffect(DeleteCall, b, deleted, c, PathC(), ["cpu", "memory"])
    ensures ValidWorld(HalfGone()) && Inside(HalfGone(), PathC(), "cpu", 7)
    ensures st == Reported(Deleted) && deleted == Returned(Some(CgroupDeleted)) && c.w == HalfGone()
  {
    hide HalfGone, PathC, DirsRemoved;
    HalfGoneIsValid();
    HalfGoneIsMissing();
  }
}
