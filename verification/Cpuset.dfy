/**
  * The v1 cpuset controller: creating a cgroup creates every missing directory above it and fills every empty
  * cpuset.cpus and cpuset.mems, from the root of the hierarchy down, with the value of the directory above.
  */
module Cpuset {
  import opened Directories
  import opened Wrappers
  import opened Strings
  import opened Paths

  // ----- Empty values -----

  function TrimLeft(b: string): string {
    if b != "" && b[0] == '\n' then TrimLeft(b[1..]) else b
  }

  function TrimRight(b: string): string {
    if b != "" && b[|b| - 1] == '\n' then TrimRight(b[..|b| - 1]) else b
  }

  /** isEmpty: nothing is left after trimming line breaks at both ends. */
  predicate IsEmpty(b: string) {
    |TrimRight(TrimLeft(b))| == 0
  }

  lemma {:induction false} TrimLeftMeaning(b: string)
    ensures TrimLeft(b) == "" <==> forall i :: 0 <= i < |b| ==> b[i] == '\n'
    ensures TrimLeft(b) != "" ==> TrimLeft(b)[0] != '\n'
  {
    if b != "" && b[0] == '\n' {
      TrimLeftMeaning(b[1..]);
      assert forall i :: 0 < i < |b| ==> b[i] == b[1..][i - 1];
    }
  }

  lemma {:induction false} TrimRightKeepsHead(b: string)
    requires b != "" && b[0] != '\n'
    ensures TrimRight(b) != ""
  {
    if b[|b| - 1] == '\n' {
      TrimRightKeepsHead(b[..|b| - 1]);
    }
  }

  /** A value is empty exactly when it consists of line breaks. */
  lemma IsEmptyIff(b: string)
    ensures IsEmpty(b) <==> forall i :: 0 <= i < |b| ==> b[i] == '\n'
  {
    TrimLeftMeaning(b);
    if TrimLeft(b) != "" {
      TrimRightKeepsHead(TrimLeft(b));
    }
  }

  // ----- The file system -----

  datatype File = Cpus | Mems

  /** The contents of the two control files of a directory; a file that does not exist reads as empty. */
  datatype Entry = Entry(cpus: string, mems: string)
  {
    function Get(f: File): string {
      if f == Cpus then cpus else mems
    }

    function Set(f: File, v: string): Entry {
      if f == Cpus then Entry(v, mems) else Entry(cpus, v)
    }
  }

  /**
    * The directories that exist, what the control files of each other directory would read once it is made (which may
    * already be a value), and the operations that the system refuses: making a directory, reading its files, writing
    * one of them.
    */
  datatype Fs = Fs(
    dirs: map<Dir, Entry>,
    blank: Dir -> Entry,
    noMkdir: set<Dir>,
    unreadable: set<Dir>,
    unwritable: set<(Dir, File)>)

  datatype Error = OutsideRoot | MkdirFailed(d: Dir) | ReadFailed(d: Dir) | WriteFailed(d: Dir, f: File)

  type Outcome = (Fs, Option<Error>)

  function WriteFile(fs: Fs, d: Dir, f: File, v: string): Outcome {
    if d !in fs.dirs || (d, f) in fs.unwritable then (fs, Some(WriteFailed(d, f)))
    else (fs.(dirs := fs.dirs[d := fs.dirs[d].Set(f, v)]), None)
  }

  /** `os.MkdirAll`: the parent first, unless the directory is there. */
  function MkdirAll(fs: Fs, d: Dir): Outcome
    decreases |d|
  {
    if d in fs.dirs || d == [] then (fs, None)
    else
      var (fs1, err) := MkdirAll(fs, Parent(d));
      if err.Some? then (fs1, err)
      else if d in fs.noMkdir then (fs1, Some(MkdirFailed(d)))
      else (fs1.(dirs := fs1.dirs[d := fs.blank(d)]), None)
  }

  /** getValues: a missing file is no error. */
  function GetValues(fs: Fs, d: Dir): Result<Entry, Error> {
    if d in fs.unreadable then Err(ReadFailed(d))
    else if d in fs.dirs then Ok(fs.dirs[d])
    else Ok(Entry("", ""))
  }

  function CopyIfNeeded(fs: Fs, current: Dir, parent: Dir): Outcome {
    match GetValues(fs, current)
    case Err(e) => (fs, Some(e))
    case Ok(mine) =>
      match GetValues(fs, parent)
      case Err(e) => (fs, Some(e))
      case Ok(theirs) =>
        var (fs1, err) := if IsEmpty(mine.cpus) then WriteFile(fs, current, Cpus, theirs.cpus) else (fs, None);
        if err.Some? then (fs1, err)
        else if IsEmpty(mine.mems) then WriteFile(fs1, current, Mems, theirs.mems)
        else (fs1, None)
  }

  function EnsureParent(fs: Fs, current: Dir, root: Dir): Outcome
    decreases |current|
  {
    var parent := Parent(current);
    if parent == current then (fs, Some(OutsideRoot))
    else
      var (fs1, err) := if parent != root then EnsureParent(fs, parent, root) else (fs, None);
      if err.Some? then (fs1, err)
      else
        var (fs2, err) := MkdirAll(fs1, current);
        if err.Some? then (fs2, err) else CopyIfNeeded(fs2, current, parent)
  }

  /** The two values a caller may set explicitly; "" leaves the value alone. */
  datatype Cpu = Cpu(cpus: string, mems: string)

  function Explicit(fs: Fs, d: Dir, cpu: Option<Cpu>): Outcome {
    if cpu == None then (fs, None)
    else
      var (fs1, err) := if cpu.value.cpus != "" then WriteFile(fs, d, Cpus, cpu.value.cpus) else (fs, None);
      if err.Some? then (fs1, err)
      else if cpu.value.mems != "" then WriteFile(fs1, d, Mems, cpu.value.mems)
      else (fs1, None)
  }

  /** The directory of a cgroup path: `filepath.Join` of the controller's root and the path. */
  function Target(root: Dir, path: string): Dir {
    Resolve(true, root, Split(path, '/'))
  }

  function Create(fs: Fs, root: Dir, path: string, cpu: Option<Cpu>): Outcome {
    var d := Target(root, path);
    var (fs1, err) := EnsureParent(fs, d, root);
    if err.Some? then (fs1, err)
    else
      var (fs2, err) := MkdirAll(fs1, d);
      if err.Some? then (fs2, err)
      else
        var (fs3, err) := CopyIfNeeded(fs2, d, Parent(d));
        if err.Some? then (fs3, err) else Explicit(fs3, d, cpu)
  }

  class Disk {
    var fs: Fs

    method WriteFileAt(d: Dir, f: File, v: string) returns (err: Option<Error>)
      modifies this
      ensures (fs, err) == WriteFile(old(fs), d, f, v)
    {
      if d !in fs.dirs || (d, f) in fs.unwritable {
        return Some(WriteFailed(d, f));
      }
      fs := fs.(dirs := fs.dirs[d := fs.dirs[d].Set(f, v)]);
      err := None;
    }

    method Mkdirs(d: Dir) returns (err: Option<Error>)
      modifies this
      ensures (fs, err) == MkdirAll(old(fs), d)
      decreases |d|
    {
      if d in fs.dirs || d == [] {
        return None;
      }
      var blank, refused := fs.blank(d), d in fs.noMkdir;
      err := Mkdirs(Parent(d));
      if err.Some? {
        return;
      }
      if refused {
        return Some(MkdirFailed(d));
      }
      fs := fs.(dirs := fs.dirs[d := blank]);
    }
  }

  class CpusetController {
    const root: Dir

    constructor (root: Dir)
      ensures this.root == root
    {
      this.root := root;
    }

    method Copy(disk: Disk, current: Dir, parent: Dir) returns (err: Option<Error>)
      modifies disk
      ensures (disk.fs, err) == CopyIfNeeded(old(disk.fs), current, parent)
    {
      var mine, theirs := GetValues(disk.fs, current), GetValues(disk.fs, parent);
      if mine.Err? {
        return Some(mine.error);
      }
      if theirs.Err? {
        return Some(theirs.error);
      }
      err := None;
      if IsEmpty(mine.value.cpus) {
        err := disk.WriteFileAt(current, Cpus, theirs.value.cpus);
        if err.Some? {
          return;
        }
      }
      if IsEmpty(mine.value.mems) {
        err := disk.WriteFileAt(current, Mems, theirs.value.mems);
      }
    }

    /** ensureParent: populate everything from the root down to current. */
    method Ensure(disk: Disk, current: Dir) returns (err: Option<Error>)
      modifies disk
      ensures (disk.fs, err) == EnsureParent(old(disk.fs), current, root)
      decreases |current|
    {
      var parent := Parent(current);
      if parent == current {
        return Some(OutsideRoot);
      }
      if parent != root {
        err := Ensure(disk, parent);
        if err.Some? {
          return;
        }
      }
      err := disk.Mkdirs(current);
      if err.Some? {
        return;
      }
      err := Copy(disk, current, parent);
    }

    method CreateCgroup(disk: Disk, path: string, cpu: Option<Cpu>) returns (err: Option<Error>)
      modifies disk
      ensures (disk.fs, err) == Create(old(disk.fs), root, path, cpu)
    {
      var d := Target(root, path);
      err := Ensure(disk, d);
      if err.Some? {
        return;
      }
      err := disk.Mkdirs(d);
      if err.Some? {
        return;
      }
      err := Copy(disk, d, Parent(d));
      if err.Some? {
        return;
      }
      if cpu.Some? {
        err := WriteSettings(disk, d, cpu.value);
      }
    }

    /** The loop of Create over the explicit values. */
    method WriteSettings(disk: Disk, d: Dir, cpu: Cpu) returns (err: Option<Error>)
      modifies disk
      ensures (disk.fs, err) == Explicit(old(disk.fs), d, Some(cpu))
    {
      var settings := [(Cpus, cpu.cpus), (Mems, cpu.mems)];
      ghost var first: Outcome := if cpu.cpus != "" then WriteFile(disk.fs, d, Cpus, cpu.cpus) else (disk.fs, None);
      err := None;
      var i := 0;
      while i < |settings| && err == None
        invariant 0 <= i <= 2
        invariant i == 0 ==> disk.fs == old(disk.fs) && err == None
        invariant i == 1 ==> (disk.fs, err) == first
        invariant i == 2 ==> (disk.fs, err) == Explicit(old(disk.fs), d, Some(cpu))
      {
        if settings[i].1 != "" {
          err := disk.WriteFileAt(d, settings[i].0, settings[i].1);
        }
        i := i + 1;
      }
    }
  }

  // ----- Paths that are not below the root -----

  /** The directory made for a path is the clean join of the controller's root and the path. */
  lemma TargetIsJoin(root: Dir, path: string)
    requires IsPath(root)
    ensures FilepathJoin([Render(root), path]) == Render(Target(root, path)) && IsPath(Target(root, path))
  {
    JoinResolves(root, path);
    JoinOfSplit(path, '/');
    ResolveRootedIsPath(root, Split(path, '/'));
  }

  lemma {:induction false} EnsureOutside(fs: Fs, current: Dir, root: Dir)
    requires !(root < current)
    ensures EnsureParent(fs, current, root) == (fs, Some(OutsideRoot))
    decreases |current|
  {
    if current != [] {
      var parent := Parent(current);
      assert parent < current;
      EnsureOutside(fs, parent, root);
    }
  }

  /** For any path that does not lead strictly below the root, Create fails and touches nothing. */
  lemma OutsideIsRefused(fs: Fs, root: Dir, path: string, cpu: Option<Cpu>)
    requires !(root < Target(root, path))
    ensures Create(fs, root, path, cpu) == (fs, Some(OutsideRoot))
  {
    EnsureOutside(fs, Target(root, path), root);
  }

  // ----- Inheritance -----

  /** What file f of d reads, or will read once d is made. */
  function Value(fs: Fs, d: Dir, f: File): string {
    (if d in fs.dirs then fs.dirs[d] else fs.blank(d)).Get(f)
  }

  /**
    * The value of the nearest directory, from d up to the root, whose value is not empty; the root's if there is
    * none.
    */
  function Inherited(fs: Fs, root: Dir, d: Dir, f: File): string
    requires root <= d
    decreases |d|
  {
    if d == root || !IsEmpty(Value(fs, d, f)) then Value(fs, d, f) else Inherited(fs, root, Parent(d), f)
  }

  /** The level that Inherited takes its value from. */
  lemma {:induction false} InheritedIsNearest(fs: Fs, root: Dir, d: Dir, f: File) returns (k: nat)
    requires root <= d
    ensures |root| <= k <= |d| && Inherited(fs, root, d, f) == Value(fs, d[..k], f)
    ensures k > |root| ==> !IsEmpty(Value(fs, d[..k], f))
    ensures forall j :: k < j <= |d| ==> IsEmpty(Value(fs, d[..j], f))
    decreases |d|
  {
    assert d[..|d|] == d;
    if d == root || !IsEmpty(Value(fs, d, f)) {
      k := |d|;
    } else {
      k := InheritedIsNearest(fs, root, Parent(d), f);
      assert forall j :: 0 <= j <= |d| - 1 ==> Parent(d)[..j] == d[..j];
    }
  }

  /** The settings of the system that no operation changes. */
  ghost predicate SameSystem(a: Fs, b: Fs) {
    a.blank == b.blank && a.noMkdir == b.noMkdir && a.unreadable == b.unreadable && a.unwritable == b.unwritable
  }

  /** The directories form a tree with "/" at its top. */
  ghost predicate ValidFs(fs: Fs) {
    [] in fs.dirs && forall d {:trigger ParentExists(fs, d)} :: d in fs.dirs ==> ParentExists(fs, d)
  }

  ghost predicate ParentExists(fs: Fs, d: Dir) {
    Parent(d) in fs.dirs
  }

  /** The tree still reads as it did, and only ancestors of d may be new. */
  ghost predicate Grown(fs: Fs, fs': Fs, d: Dir) {
    && SameSystem(fs, fs') && ValidFs(fs')
    && (forall e, f :: Value(fs', e, f) == Value(fs, e, f))
    && (forall e :: e in fs'.dirs ==> e in fs.dirs || e <= d)
    && (forall e :: e in fs.dirs ==> e in fs'.dirs)
  }

  lemma AddDir(fs: Fs, d: Dir)
    requires ValidFs(fs) && d !in fs.dirs && Parent(d) in fs.dirs
    ensures Grown(fs, fs.(dirs := fs.dirs[d := fs.blank(d)]), d)
  {
    var fs' := fs.(dirs := fs.dirs[d := fs.blank(d)]);
    forall e {:trigger ParentExists(fs', e)} | e in fs'.dirs
      ensures ParentExists(fs', e)
    {
      if e != d {
        assert ParentExists(fs, e);
      }
    }
  }

  lemma GrownTwice(a: Fs, b: Fs, c: Fs, d: Dir)
    requires Grown(a, b, Parent(d)) && Grown(b, c, d)
    ensures Grown(a, c, d)
  {
    assert Parent(d) <= d;
    forall e, f
      ensures Value(c, e, f) == Value(a, e, f)
    {
      assert Value(b, e, f) == Value(a, e, f);
    }
  }

  lemma {:induction false} MkdirAllExact(fs: Fs, d: Dir)
    requires ValidFs(fs)
    ensures Grown(fs, MkdirAll(fs, d).0, d)
    ensures MkdirAll(fs, d).1 == None ==> d in MkdirAll(fs, d).0.dirs && Parent(d) in MkdirAll(fs, d).0.dirs
    decreases |d|
  {
    if d in fs.dirs || d == [] {
      assert ParentExists(fs, d);
    } else {
      MkdirAllExact(fs, Parent(d));
      var fs1 := MkdirAll(fs, Parent(d)).0;
      assert d !in fs1.dirs by {
        assert |Parent(d)| < |d|;
      }
      if MkdirAll(fs, d).1 == None {
        AddDir(fs1, d);
        GrownTwice(fs, fs1, MkdirAll(fs, d).0, d);
      } else {
        assert Grown(fs1, fs1, d);
        GrownTwice(fs, fs1, fs1, d);
      }
    }
  }

  /** One value was changed. */
  ghost predicate Wrote(fs: Fs, fs': Fs, d: Dir, f: File, v: string) {
    && SameSystem(fs, fs') && fs'.dirs.Keys == fs.dirs.Keys
    && Value(fs', d, f) == v
    && forall e, g :: e != d || g != f ==> Value(fs', e, g) == Value(fs, e, g)
  }

  lemma WriteExact(fs: Fs, d: Dir, f: File, v: string)
    requires WriteFile(fs, d, f, v).1 == None
    ensures Wrote(fs, WriteFile(fs, d, f, v).0, d, f, v)
  {
  }

  lemma CopyExact(fs: Fs, current: Dir, parent: Dir)
    requires current in fs.dirs && parent in fs.dirs && current != parent && ValidFs(fs)
    requires CopyIfNeeded(fs, current, parent).1 == None
    ensures var fs' := CopyIfNeeded(fs, current, parent).0;
            && SameSystem(fs, fs') && fs'.dirs.Keys == fs.dirs.Keys && ValidFs(fs')
            && (forall f :: Value(fs', current, f) ==
                  if IsEmpty(Value(fs, current, f)) then Value(fs, parent, f) else Value(fs, current, f))
            && (forall e, f :: e != current ==> Value(fs', e, f) == Value(fs, e, f))
  {
    var mine, theirs := fs.dirs[current], fs.dirs[parent];
    var fs1 := if IsEmpty(mine.cpus) then WriteFile(fs, current, Cpus, theirs.cpus).0 else fs;
    var fs' := CopyIfNeeded(fs, current, parent).0;
    assert Value(fs, current, Cpus) == mine.cpus && Value(fs, current, Mems) == mine.mems;
    assert Value(fs, parent, Cpus) == theirs.cpus && Value(fs, parent, Mems) == theirs.mems;
    if IsEmpty(mine.cpus) {
      WriteExact(fs, current, Cpus, theirs.cpus);
    }
    if IsEmpty(mine.mems) {
      WriteExact(fs1, current, Mems, theirs.mems);
    }
    forall e {:trigger ParentExists(fs', e)} | e in fs'.dirs
      ensures ParentExists(fs', e)
    {
      assert ParentExists(fs, e);
    }
  }

  /** What one directory e looks like after everything strictly below the root and down to current was populated. */
  ghost predicate PopulatedAt(fs: Fs, fs': Fs, root: Dir, current: Dir, e: Dir) {
    && (e in fs.dirs ==> e in fs'.dirs)
    && (e in fs'.dirs ==> e in fs.dirs || e <= current)
    && (root < e <= current ==> e in fs'.dirs)
    && forall f :: Value(fs', e, f) == if root < e <= current then Inherited(fs, root, e, f) else Value(fs, e, f)
  }

  ghost predicate Populated(fs: Fs, fs': Fs, root: Dir, current: Dir) {
    && SameSystem(fs, fs') && ValidFs(fs')
    && forall e {:trigger PopulatedAt(fs, fs', root, current, e)} :: PopulatedAt(fs, fs', root, current, e)
  }

  lemma BelowOrHere(root: Dir, e: Dir, current: Dir)
    requires root < current
    ensures root < e <= current <==> e == current || root < e <= Parent(current)
    ensures e <= Parent(current) ==> e <= current
  {
    if e <= current && e != current {
      assert |e| <= |current| - 1;
    }
  }

  lemma OneLevel(fs: Fs, fs1: Fs, root: Dir, current: Dir)
    requires ValidFs(fs1) && root < current && Populated(fs, fs1, root, Parent(current))
    requires MkdirAll(fs1, current).1 == None
    requires CopyIfNeeded(MkdirAll(fs1, current).0, current, Parent(current)).1 == None
    ensures Populated(fs, CopyIfNeeded(MkdirAll(fs1, current).0, current, Parent(current)).0, root, current)
  {
    var parent := Parent(current);
    var fs2 := MkdirAll(fs1, current).0;
    var fs3 := CopyIfNeeded(fs2, current, parent).0;
    MkdirAllExact(fs1, current);
    assert |parent| < |current|;
    CopyExact(fs2, current, parent);
    assert PopulatedAt(fs, fs1, root, parent, parent);
    assert PopulatedAt(fs, fs1, root, parent, current);
    forall e
      ensures PopulatedAt(fs, fs3, root, current, e)
    {
      BelowOrHere(root, e, current);
      assert PopulatedAt(fs, fs1, root, parent, e);
    }
  }

  lemma {:induction false} EnsurePopulates(fs: Fs, current: Dir, root: Dir)
    requires ValidFs(fs) && root < current
    requires EnsureParent(fs, current, root).1 == None
    ensures Populated(fs, EnsureParent(fs, current, root).0, root, current)
    decreases |current|
  {
    var parent := Parent(current);
    if parent != root {
      EnsurePopulates(fs, parent, root);
      OneLevel(fs, EnsureParent(fs, parent, root).0, root, current);
    } else {
      forall e
        ensures PopulatedAt(fs, fs, root, parent, e)
      {
      }
      OneLevel(fs, fs, root, current);
    }
  }

  /** Copying once more into a populated level changes nothing. */
  lemma CopyAgain(fs: Fs, fs1: Fs, root: Dir, current: Dir, leaf: Dir)
    requires ValidFs(fs) && root < current <= leaf && Populated(fs, fs1, root, leaf)
    requires CopyIfNeeded(fs1, current, Parent(current)).1 == None
    ensures CopyIfNeeded(fs1, current, Parent(current)).0 == fs1
  {
    var parent := Parent(current);
    assert PopulatedAt(fs, fs1, root, leaf, current);
    assert PopulatedAt(fs, fs1, root, leaf, parent);
    assert ParentExists(fs1, current);
    BelowOrHere(root, parent, current);
    forall f | IsEmpty(Value(fs1, current, f))
      ensures Value(fs1, parent, f) == Value(fs1, current, f)
    {
      assert Inherited(fs, root, current, f) == Inherited(fs, root, parent, f);
    }
    var e := fs1.dirs[current];
    assert e.Get(Cpus) == e.cpus && e.Get(Mems) == e.mems;
    assert IsEmpty(e.cpus) ==> fs1.dirs[parent].cpus == e.cpus by {
      assert Value(fs1, current, Cpus) == e.cpus && Value(fs1, parent, Cpus) == fs1.dirs[parent].cpus;
    }
    assert IsEmpty(e.mems) ==> fs1.dirs[parent].mems == e.mems by {
      assert Value(fs1, current, Mems) == e.mems && Value(fs1, parent, Mems) == fs1.dirs[parent].mems;
    }
    assert fs1.dirs[current := e] == fs1.dirs;
  }

  // ----- Exactly when the call succeeds -----

  /** The system lets level e be read, and each of its empty values be written. */
  ghost predicate Permitted(fs: Fs, e: Dir) {
    && e !in fs.unreadable && Parent(e) !in fs.unreadable
    && forall f :: IsEmpty(Value(fs, e, f)) ==> (e, f) !in fs.unwritable
  }

  /** Every missing directory from the top down to d can be made. */
  ghost predicate Makeable(fs: Fs, d: Dir) {
    forall e {:trigger e in fs.noMkdir} :: e <= d && e !in fs.dirs ==> e !in fs.noMkdir
  }

  ghost predicate LevelsPermitted(fs: Fs, root: Dir, d: Dir) {
    forall e {:trigger Permitted(fs, e)} :: root < e <= d ==> Permitted(fs, e)
  }

  lemma {:induction false} ExistsUpwards(fs: Fs, d: Dir, e: Dir)
    requires ValidFs(fs) && d in fs.dirs && e <= d
    ensures e in fs.dirs
    decreases |d|
  {
    if e != d {
      assert ParentExists(fs, d);
      assert e <= Parent(d);
      ExistsUpwards(fs, Parent(d), e);
    }
  }

  lemma {:induction false} MkdirIff(fs: Fs, d: Dir)
    requires ValidFs(fs)
    ensures MkdirAll(fs, d).1 == None <==> Makeable(fs, d)
    decreases |d|
  {
    if d in fs.dirs {
      forall e | e <= d
        ensures e in fs.dirs
      {
        ExistsUpwards(fs, d, e);
      }
    } else {
      MkdirIff(fs, Parent(d));
      MkdirAllExact(fs, Parent(d));
      assert Makeable(fs, d) <==> Makeable(fs, Parent(d)) && d !in fs.noMkdir by {
        assert forall e {:trigger e in fs.noMkdir} :: e <= d <==> e == d || e <= Parent(d);
      }
    }
  }

  lemma CopyIff(fs: Fs, current: Dir)
    requires current in fs.dirs && Parent(current) in fs.dirs && current != Parent(current)
    ensures CopyIfNeeded(fs, current, Parent(current)).1 == None <==> Permitted(fs, current)
  {
    var e := fs.dirs[current];
    assert Value(fs, current, Cpus) == e.cpus && Value(fs, current, Mems) == e.mems;
    assert Permitted(fs, current) <==>
           current !in fs.unreadable && Parent(current) !in fs.unreadable
           && (IsEmpty(e.cpus) ==> (current, Cpus) !in fs.unwritable)
           && (IsEmpty(e.mems) ==> (current, Mems) !in fs.unwritable);
  }

  /** One level: it can be made and filled exactly when nothing in the original tree stands against it. */
  lemma OneLevelIff(fs: Fs, fs1: Fs, root: Dir, current: Dir)
    requires ValidFs(fs) && ValidFs(fs1) && root < current && Populated(fs, fs1, root, Parent(current))
    requires Makeable(fs1, Parent(current)) && Makeable(fs, Parent(current))
    ensures MkdirAll(fs1, current).1 == None <==> Makeable(fs, current)
    ensures MkdirAll(fs1, current).1 == None ==>
              (CopyIfNeeded(MkdirAll(fs1, current).0, current, Parent(current)).1 == None <==> Permitted(fs, current))
  {
    MkdirIff(fs1, current);
    MkdirAllExact(fs1, current);
    assert PopulatedAt(fs, fs1, root, Parent(current), current);
    assert |Parent(current)| < |current|;
    assert forall e {:trigger e in fs.noMkdir} :: e <= current <==> e == current || e <= Parent(current);
    if MkdirAll(fs1, current).1 == None {
      CopyIff(MkdirAll(fs1, current).0, current);
    }
  }

  lemma LevelsSplit(fs: Fs, root: Dir, current: Dir)
    requires root < current
    ensures LevelsPermitted(fs, root, current) <==>
            && Permitted(fs, current)
            && (forall e {:trigger Permitted(fs, e)} :: root < e <= Parent(current) ==> Permitted(fs, e))
    ensures Makeable(fs, current) ==> Makeable(fs, Parent(current))
  {
    forall e {:trigger Permitted(fs, e)}
      ensures root < e <= current <==> e == current || root < e <= Parent(current)
    {
      BelowOrHere(root, e, current);
    }
    assert forall e {:trigger e in fs.noMkdir} :: e <= Parent(current) ==> e <= current;
  }

  lemma {:induction false} EnsureIff(fs: Fs, current: Dir, root: Dir)
    requires ValidFs(fs) && root < current
    ensures EnsureParent(fs, current, root).1 == None <==> Makeable(fs, current) && LevelsPermitted(fs, root, current)
    decreases |current|
  {
    var parent := Parent(current);
    LevelsSplit(fs, root, current);
    if parent != root {
      EnsureIff(fs, parent, root);
      if EnsureParent(fs, parent, root).1 == None {
        EnsurePopulates(fs, parent, root);
        var fs1 := EnsureParent(fs, parent, root).0;
        assert PopulatedAt(fs, fs1, root, parent, parent);
        MkdirIff(fs1, parent);
        OneLevelIff(fs, fs1, root, current);
      }
    } else {
      forall e
        ensures PopulatedAt(fs, fs, root, parent, e)
      {
      }
      MkdirIff(fs, current);
      if Makeable(fs, current) {
        OneLevelIff(fs, fs, root, current);
      }
    }
  }

  /**
    * Inheritance: after a successful Create without explicit values, every level strictly below the root exists, keeps
    * each value that was not empty, and otherwise has the value of the nearest directory above that is not empty.
    * Nothing else changes.
    */
  lemma CreatePopulates(fs: Fs, root: Dir, path: string)
    requires ValidFs(fs) && root < Target(root, path)
    requires Create(fs, root, path, None).1 == None
    ensures Populated(fs, Create(fs, root, path, None).0, root, Target(root, path))
    ensures Create(fs, root, path, None).0 == EnsureParent(fs, Target(root, path), root).0
  {
    var d := Target(root, path);
    EnsurePopulates(fs, d, root);
    var fs1 := EnsureParent(fs, d, root).0;
    assert PopulatedAt(fs, fs1, root, d, d);
    assert MkdirAll(fs1, d) == (fs1, None);
    CopyAgain(fs, fs1, root, d, d);
  }

  /** If the root's values are not empty, no value on the way to the new cgroup is empty afterwards. */
  lemma NothingStaysEmpty(fs: Fs, root: Dir, path: string, e: Dir, f: File)
    requires ValidFs(fs) && root < e <= Target(root, path) && !IsEmpty(Value(fs, root, f))
    requires Create(fs, root, path, None).1 == None
    ensures !IsEmpty(Value(Create(fs, root, path, None).0, e, f))
  {
    CreatePopulates(fs, root, path);
    assert PopulatedAt(fs, Create(fs, root, path, None).0, root, Target(root, path), e);
    var k := InheritedIsNearest(fs, root, e, f);
    assert e[..|root|] == root;
  }

  // ----- A second call -----

  lemma StillPermitted(fs: Fs, fs1: Fs, root: Dir, e: Dir, leaf: Dir)
    requires root < e <= leaf && Populated(fs, fs1, root, leaf) && Permitted(fs, e)
    ensures Permitted(fs1, e)
  {
    assert PopulatedAt(fs, fs1, root, leaf, e);
  }

  /** A second ensureParent finds every directory there and every value either set or already copied. */
  lemma {:induction false} EnsureAgain(fs: Fs, fs1: Fs, current: Dir, root: Dir, leaf: Dir)
    requires ValidFs(fs) && root < current <= leaf && Populated(fs, fs1, root, leaf) && LevelsPermitted(fs, root, leaf)
    ensures EnsureParent(fs1, current, root) == (fs1, None)
    decreases |current|
  {
    var parent := Parent(current);
    BelowOrHere(root, parent, current);
    if parent != root {
      assert parent < current;
      EnsureAgain(fs, fs1, parent, root, leaf);
    }
    assert PopulatedAt(fs, fs1, root, leaf, current);
    assert MkdirAll(fs1, current) == (fs1, None);
    assert ParentExists(fs1, current);
    assert Permitted(fs, current);
    StillPermitted(fs, fs1, root, current, leaf);
    CopyIff(fs1, current);
    CopyAgain(fs, fs1, root, current, leaf);
  }

  /** Create is idempotent: after one success, the same call succeeds again and changes nothing at all. */
  lemma CreateAgain(fs: Fs, root: Dir, path: string)
    requires ValidFs(fs) && Create(fs, root, path, None).1 == None
    ensures var fs' := Create(fs, root, path, None).0; Create(fs', root, path, None) == (fs', None)
  {
    var d := Target(root, path);
    if !(root < d) {
      OutsideIsRefused(fs, root, path, None);
    }
    CreatePopulates(fs, root, path);
    var fs' := Create(fs, root, path, None).0;
    EnsureIff(fs, d, root);
    EnsureAgain(fs, fs', d, root, d);
    assert PopulatedAt(fs, fs', root, d, d);
    assert Permitted(fs, d) && ParentExists(fs', d);
    StillPermitted(fs, fs', root, d, d);
    CopyIff(fs', d);
    CopyAgain(fs, fs', root, d, d);
  }

  /** What ensureParent achieves, the rest of Create leaves alone when no explicit values are given. */
  lemma EnsureIsEnough(fs: Fs, root: Dir, path: string)
    requires ValidFs(fs) && root < Target(root, path)
    ensures Create(fs, root, path, None) == EnsureParent(fs, Target(root, path), root)
  {
    var d := Target(root, path);
    EnsureIff(fs, d, root);
    if EnsureParent(fs, d, root).1 == None {
      EnsurePopulates(fs, d, root);
      var fs1 := EnsureParent(fs, d, root).0;
      assert PopulatedAt(fs, fs1, root, d, d);
      assert Permitted(fs, d) && ParentExists(fs1, d);
      StillPermitted(fs, fs1, root, d, d);
      CopyIff(fs1, d);
      CopyAgain(fs, fs1, root, d, d);
    }
  }

  /** The files for which explicit values are given can be written. */
  ghost predicate Settable(fs: Fs, d: Dir, cpu: Cpu) {
    (cpu.cpus != "" ==> (d, Cpus) !in fs.unwritable) && (cpu.mems != "" ==> (d, Mems) !in fs.unwritable)
  }

  /**
    * Explicit values come last, and go to the new cgroup only: the cpus first, unless that is refused, then the mems.
    * An empty value leaves the file alone; when Create fails without explicit values it fails in the same way with
    * them.
    */
  lemma ExplicitValues(fs: Fs, root: Dir, path: string, cpu: Cpu)
    requires ValidFs(fs) && root < Target(root, path)
    ensures Create(fs, root, path, None).1.Some? ==>
              Create(fs, root, path, Some(cpu)) == Create(fs, root, path, None)
    ensures Create(fs, root, path, None).1 == None ==>
              ExplicitlySet(Create(fs, root, path, None).0, Create(fs, root, path, Some(cpu)), Target(root, path), cpu)
  {
    if Create(fs, root, path, None).1 == None {
      CreatePopulates(fs, root, path);
      assert PopulatedAt(fs, Create(fs, root, path, None).0, root, Target(root, path), Target(root, path));
    }
  }

  /** What writing explicit values for d makes of a tree, and the error, if one of the writes is refused. */
  ghost predicate ExplicitlySet(fs: Fs, r: Outcome, d: Dir, cpu: Cpu) {
    var (fs', err) := r;
    var noCpus := cpu.cpus != "" && (d, Cpus) in fs.unwritable;
    var noMems := cpu.mems != "" && (d, Mems) in fs.unwritable;
    && SameSystem(fs, fs') && fs'.dirs.Keys == fs.dirs.Keys
    && (forall e, f :: e != d ==> Value(fs', e, f) == Value(fs, e, f))
    && Value(fs', d, Cpus) == (if cpu.cpus == "" || noCpus then Value(fs, d, Cpus) else cpu.cpus)
    && Value(fs', d, Mems) == (if cpu.mems == "" || noCpus || noMems then Value(fs, d, Mems) else cpu.mems)
    && err == if noCpus then Some(WriteFailed(d, Cpus)) else if noMems then Some(WriteFailed(d, Mems)) else None
  }

  /** Exactly when Create succeeds, with or without explicit values, in terms of the tree before the call. */
  lemma CreateIff(fs: Fs, root: Dir, path: string, cpu: Option<Cpu>)
    requires ValidFs(fs)
    ensures Create(fs, root, path, cpu).1 == None <==>
            && root < Target(root, path) && Makeable(fs, Target(root, path))
            && LevelsPermitted(fs, root, Target(root, path))
            && (cpu.Some? ==> Settable(fs, Target(root, path), cpu.value))
  {
    var d := Target(root, path);
    if !(root < d) {
      OutsideIsRefused(fs, root, path, cpu);
    } else {
      EnsureIff(fs, d, root);
      EnsureIsEnough(fs, root, path);
      if Create(fs, root, path, None).1 == None {
        CreatePopulates(fs, root, path);
      }
      if cpu.Some? {
        ExplicitValues(fs, root, path, cpu.value);
      }
    }
  }

  // ----- What a failure leaves -----

  /** The values of e are what they were. */
  ghost predicate Unset(fs: Fs, fs': Fs, e: Dir) {
    forall f :: Value(fs', e, f) == Value(fs, e, f)
  }

  /** Why level e could not be made or filled, and what became of it. */
  ghost predicate StopReason(fs: Fs, fs': Fs, root: Dir, e: Dir, err: Error)
    requires root <= e
  {
    match err
    case OutsideRoot => false
    case MkdirFailed(d) =>
      && e !in fs'.dirs && Unset(fs, fs', e)
      && d <= e && d in fs.noMkdir && d !in fs'.dirs && Parent(d) in fs'.dirs
    case ReadFailed(d) =>
      && e in fs'.dirs && Unset(fs, fs', e)
      && d in fs.unreadable && (d == e || (d == Parent(e) && e !in fs.unreadable))
    case WriteFailed(d, f) =>
      && e in fs'.dirs && d == e && e !in fs.unreadable && Parent(e) !in fs.unreadable
      && (e, f) in fs.unwritable && IsEmpty(Value(fs, e, f)) && Value(fs', e, f) == Value(fs, e, f)
      && (f == Cpus ==> Value(fs', e, Mems) == Value(fs, e, Mems))
      && (f == Mems ==> Value(fs', e, Cpus) == Inherited(fs, root, e, Cpus))
  }

  /** The call has stopped at level e: everything above it is populated, and nothing else was touched. */
  ghost predicate StoppedAt(fs: Fs, fs': Fs, root: Dir, e: Dir, err: Error) {
    && root < e && SameSystem(fs, fs') && LevelsPermitted(fs, root, Parent(e)) && StopReason(fs, fs', root, e, err)
    && forall x {:trigger PopulatedAt(fs, fs', root, Parent(e), x)} :: x != e ==>
         PopulatedAt(fs, fs', root, Parent(e), x)
  }

  lemma {:induction false} MkdirFails(fs: Fs, d: Dir)
    requires ValidFs(fs) && MkdirAll(fs, d).1.Some?
    ensures var (fs', err) := MkdirAll(fs, d);
            && err.value.MkdirFailed? && err.value.d <= d && err.value.d in fs.noMkdir
            && err.value.d !in fs'.dirs && Parent(err.value.d) in fs'.dirs && d !in fs'.dirs
    decreases |d|
  {
    MkdirAllExact(fs, Parent(d));
    if MkdirAll(fs, Parent(d)).1.Some? {
      MkdirFails(fs, Parent(d));
      assert |Parent(d)| < |d|;
    } else {
      assert |Parent(d)| < |d|;
    }
  }

  lemma CopyFails(fs: Fs, current: Dir)
    requires ValidFs(fs) && current in fs.dirs && current != Parent(current)
    requires CopyIfNeeded(fs, current, Parent(current)).1.Some?
    ensures var (fs', err) := CopyIfNeeded(fs, current, Parent(current));
            && SameSystem(fs, fs') && fs'.dirs.Keys == fs.dirs.Keys
            && (forall e, f :: e != current ==> Value(fs', e, f) == Value(fs, e, f))
            && match err.value
               case ReadFailed(d) =>
                 && Unset(fs, fs', current)
                 && d in fs.unreadable && (d == current || (d == Parent(current) && current !in fs.unreadable))
               case WriteFailed(d, f) =>
                 && d == current && current !in fs.unreadable && Parent(current) !in fs.unreadable
                 && (current, f) in fs.unwritable && IsEmpty(Value(fs, current, f))
                 && Value(fs', current, f) == Value(fs, current, f)
                 && (f == Cpus ==> Value(fs', current, Mems) == Value(fs, current, Mems))
                 && (f == Mems ==>
                       Value(fs', current, Cpus) == (if IsEmpty(Value(fs, current, Cpus))
                                                     then Value(fs, Parent(current), Cpus)
                                                     else Value(fs, current, Cpus)))
               case _ => false
  {
    assert ParentExists(fs, current);
    var mine, theirs := fs.dirs[current], fs.dirs[Parent(current)];
    assert Value(fs, current, Cpus) == mine.cpus && Value(fs, current, Mems) == mine.mems;
    assert Value(fs, Parent(current), Cpus) == theirs.cpus;
    if IsEmpty(mine.cpus) && (current, Cpus) !in fs.unwritable {
      WriteExact(fs, current, Cpus, theirs.cpus);
    }
  }

  lemma {:induction false} LevelStops(fs: Fs, fs1: Fs, root: Dir, current: Dir)
    requires ValidFs(fs) && ValidFs(fs1) && root < current && Populated(fs, fs1, root, Parent(current))
    requires LevelsPermitted(fs, root, Parent(current))
    requires MkdirAll(fs1, current).1.Some? || CopyIfNeeded(MkdirAll(fs1, current).0, current, Parent(current)).1.Some?
    ensures var r := if MkdirAll(fs1, current).1.Some? then MkdirAll(fs1, current)
                     else CopyIfNeeded(MkdirAll(fs1, current).0, current, Parent(current));
            StoppedAt(fs, r.0, root, current, r.1.value)
  {
    var parent, fs2 := Parent(current), MkdirAll(fs1, current).0;
    assert |parent| < |current|;
    MkdirAllExact(fs1, current);
    assert PopulatedAt(fs, fs1, root, parent, current);
    assert PopulatedAt(fs, fs1, root, parent, parent);
    var r := if MkdirAll(fs1, current).1.Some? then MkdirAll(fs1, current) else CopyIfNeeded(fs2, current, parent);
    if MkdirAll(fs1, current).1.Some? {
      MkdirFails(fs1, current);
    } else {
      CopyFails(fs2, current);
    }
    forall x | x != current
      ensures PopulatedAt(fs, r.0, root, parent, x)
    {
      assert PopulatedAt(fs, fs1, root, parent, x);
      BelowOrHere(root, x, current);
    }
  }

  lemma {:induction false} EnsureStops(fs: Fs, current: Dir, root: Dir) returns (e: Dir)
    requires ValidFs(fs) && root < current && EnsureParent(fs, current, root).1.Some?
    ensures e <= current
    ensures StoppedAt(fs, EnsureParent(fs, current, root).0, root, e, EnsureParent(fs, current, root).1.value)
    decreases |current|
  {
    var parent := Parent(current);
    if parent == root {
      forall x
        ensures PopulatedAt(fs, fs, root, parent, x)
      {
      }
      e := current;
      LevelStops(fs, fs, root, current);
    } else if EnsureParent(fs, parent, root).1.Some? {
      e := EnsureStops(fs, parent, root);
    } else {
      e := current;
      EnsurePopulates(fs, parent, root);
      EnsureIff(fs, parent, root);
      LevelStops(fs, EnsureParent(fs, parent, root).0, root, current);
    }
  }

  /**
    * What a failure leaves, below the root: the call has stopped at some level e on the way. The levels above it are as
    * after a success, e itself is as the error says, and nothing else was touched.
    */
  lemma CreateStops(fs: Fs, root: Dir, path: string, cpu: Option<Cpu>) returns (e: Dir)
    requires ValidFs(fs) && root < Target(root, path) && Create(fs, root, path, None).1.Some?
    ensures Create(fs, root, path, cpu) == Create(fs, root, path, None)
    ensures e <= Target(root, path)
    ensures StoppedAt(fs, Create(fs, root, path, cpu).0, root, e, Create(fs, root, path, cpu).1.value)
  {
    EnsureIsEnough(fs, root, path);
    e := EnsureStops(fs, Target(root, path), root);
    if cpu.Some? {
      ExplicitValues(fs, root, path, cpu.value);
    }
  }
}
