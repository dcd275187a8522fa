/**
  * Enabling and disabling controllers along the path of a cgroup: the manager writes cgroup.subtree_control of every
  * ancestor, from the mountpoint down, and reports only the last error. The kernel side is a tree in which a cgroup
  * may enable only what its parent has enabled, and give up only what no child has enabled (Control Group v2,
  * "Top-down Constraint").
  */
module Controllers {
  import opened Directories
  import opened Wrappers
  import opened Strings
  import opened Paths
  import opened KernelTree

  const SUBTREE_CONTROL := "cgroup.subtree_control"

  // ----- Which paths a manager accepts -----

  /** VerifyGroupPath. */
  predicate VerifyGroupPath(g: string) {
    HasPrefix(g, "/") && Clean(g) == g && !HasPrefix(g, "/sys/fs/cgroup")
  }

  /** A group path is accepted exactly when it spells a clean absolute path without the forbidden prefix. */
  lemma VerifyGroupPathIff(g: string)
    ensures VerifyGroupPath(g) <==> !HasPrefix(g, "/sys/fs/cgroup") && exists p :: IsPath(p) && g == Render(p)
  {
    if HasPrefix(g, "/") {
      CleanIff(g);
    }
  }

  /** The managed path of NewManager and Load: the mountpoint's components followed by the group's. */
  lemma ManagedPath(mount: Dir, g: string) returns (group: Dir)
    requires IsPath(mount) && VerifyGroupPath(g)
    ensures IsPath(group) && g == Render(group)
    ensures FilepathJoin([Render(mount), g]) == Render(mount + group)
  {
    VerifyGroupPathIff(g);
    group :| IsPath(group) && g == Render(group);
    JoinClean(mount, group);
  }

  // ----- The kernel's side of a write -----

  /** The non-empty tokens of what is written to a control file. */
  function Tokens(content: string): seq<string> {
    NonEmpty(Split(content, ' '))
  }

  function NonEmpty(parts: seq<string>): (r: seq<string>)
    ensures forall i :: 0 <= i < |r| ==> r[i] != ""
  {
    if parts == [] then [] else (if parts[0] == "" then [] else [parts[0]]) + NonEmpty(parts[1..])
  }

  /** The names that the tokens ask for with this sign. */
  function Named(tokens: seq<string>, sign: char): set<string>
    requires forall i :: 0 <= i < |tokens| ==> tokens[i] != ""
  {
    set i | 0 <= i < |tokens| && tokens[i][0] == sign :: tokens[i][1..]
  }

  predicate Accepts(t: Tree, d: Dir, tokens: seq<string>)
    requires forall i :: 0 <= i < |tokens| ==> tokens[i] != ""
  {
    && d in t.enabled && d !in t.refused
    && (forall i :: 0 <= i < |tokens| ==> tokens[i][0] == '+' || tokens[i][0] == '-')
    && Named(tokens, '+') <= Offered(t, d)
    && !UsedBelow(t, d, Named(tokens, '-'))
  }

  /** A write to the control file of d: all of it takes effect, or none of it. */
  function Written(t: Tree, d: Dir, content: string): (Tree, bool) {
    var tokens := Tokens(content);
    if Accepts(t, d, tokens) then (Changed(t, d, Named(tokens, '+'), Named(tokens, '-')), true) else (t, false)
  }

  lemma WrittenKeepsTopDown(t: Tree, d: Dir, content: string)
    requires TopDown(t)
    ensures TopDown(Written(t, d, content).0)
  {
    var tokens := Tokens(content);
    if Accepts(t, d, tokens) {
      ChangeKeepsTopDown(t, d, Named(tokens, '+'), Named(tokens, '-'));
    }
  }

  /** The directory whose control file the path names. */
  function Locate(file: string): Option<Dir> {
    if !HasPrefix(file, "/") then None
    else
      var p := Resolve(true, [], Split(file, '/'));
      if p != [] && p[|p| - 1] == SUBTREE_CONTROL then Some(Parent(p)) else None
  }

  function WrittenFile(t: Tree, file: string, content: string): (Tree, bool) {
    match Locate(file)
    case None => (t, false)
    case Some(d) => Written(t, d, content)
  }

  lemma LocateControlFile(d: Dir)
    requires IsPath(d)
    ensures Locate(FilepathJoin([Render(d), SUBTREE_CONTROL])) == Some(d)
  {
    var p := d + [SUBTREE_CONTROL];
    assert IsName(SUBTREE_CONTROL);
    JoinName(d, SUBTREE_CONTROL);
    ResolveRender(true, [], p);
    assert [] + p == p && Parent(p) == d;
  }

  // ----- The manager -----

  function Prefixed(controllers: seq<string>, prefix: string): (out: seq<string>)
    ensures |out| == |controllers|
    ensures forall i :: 0 <= i < |out| ==> out[i] == prefix + controllers[i]
  {
    if controllers == [] then [] else [prefix + controllers[0]] + Prefixed(controllers[1..], prefix)
  }

  function Sign(toggle: Toggle): string {
    if toggle == Enable then "+" else "-"
  }

  function Content(controllers: seq<string>, toggle: Toggle): string {
    Join(Prefixed(controllers, Sign(toggle)), ' ')
  }

  /** The directories that ToggleControllers visits in its first n rounds, as strings. */
  function TargetsUpTo(split: seq<string>, mount: string, path: string, n: nat): seq<string>
    requires n <= |split|
  {
    if n == 0 then []
    else
      var f := Join(split[..n - 1], '/');
      TargetsUpTo(split, mount, path, n - 1) + (if HasPrefix(f, mount) && f != path then [f] else [])
  }

  function Targets(mount: string, path: string): seq<string> {
    TargetsUpTo(Split(path, '/'), mount, path, |Split(path, '/')|)
  }

  /** The tree, and the last error if the last write failed, after writing to the targets in order. */
  function Toggled(t: Tree, targets: seq<string>, content: string): (Tree, Option<string>) {
    if targets == [] then (t, None)
    else
      var n := |targets| - 1;
      var file := FilepathJoin([targets[n], SUBTREE_CONTROL]);
      var (t', ok) := WrittenFile(Toggled(t, targets[..n], content).0, file, content);
      (t', if ok then None else Some(file))
  }

  /** The control files that were opened, in order. */
  function ControlFiles(targets: seq<string>): (files: seq<string>)
    ensures |files| == |targets|
    ensures forall i :: 0 <= i < |files| ==> files[i] == FilepathJoin([targets[i], SUBTREE_CONTROL])
  {
    if targets == [] then []
    else ControlFiles(targets[..|targets| - 1]) + [FilepathJoin([targets[|targets| - 1], SUBTREE_CONTROL])]
  }

  /** The control files of the mounted hierarchy, and a log of the paths that were opened for writing. */
  class Kernel {
    var tree: Tree
    var writes: seq<string>

    method Write(file: string, content: string) returns (ok: bool)
      modifies this
      ensures (tree, ok) == WrittenFile(old(tree), file, content)
      ensures writes == old(writes) + [file]
    {
      writes := writes + [file];
      var (t, accepted) := WrittenFile(tree, file, content);
      tree := t;
      return accepted;
    }
  }

  method ToggleFunc(controllers: seq<string>, prefix: string) returns (out: seq<string>)
    ensures out == Prefixed(controllers, prefix)
  {
    out := seq(|controllers|, _ => "");
    for i := 0 to |controllers|
      invariant |out| == |controllers|
      invariant forall k :: 0 <= k < i ==> out[k] == prefix + controllers[k]
    {
      out := out[i := prefix + controllers[i]];
    }
  }

  class Manager {
    const unifiedMountpoint: string
    const path: string

    constructor (mountpoint: string, path: string)
      ensures this.unifiedMountpoint == mountpoint && this.path == path
    {
      this.unifiedMountpoint, this.path := mountpoint, path;
    }

    method WriteSubtreeControl(kernel: Kernel, file: string, controllers: seq<string>, t: Toggle) returns (ok: bool)
      modifies kernel
      ensures (kernel.tree, ok) == WrittenFile(old(kernel.tree), file, Content(controllers, t))
      ensures kernel.writes == old(kernel.writes) + [file]
    {
      var signed;
      match t {
        case Enable => signed := ToggleFunc(controllers, "+");
        case Disable => signed := ToggleFunc(controllers, "-");
      }
      ok := kernel.Write(file, Join(signed, ' '));
    }

    /** ToggleControllers: None is the nil error; Some holds the file of the last write, which failed. */
    method ToggleControllers(kernel: Kernel, controllers: seq<string>, t: Toggle) returns (lastErr: Option<string>)
      modifies kernel
      ensures var targets := Targets(unifiedMountpoint, path);
              && (kernel.tree, lastErr) == Toggled(old(kernel.tree), targets, Content(controllers, t))
              && kernel.writes == old(kernel.writes) + ControlFiles(targets)
    {
      hide Toggled, TargetsUpTo, ControlFiles;
      var split := Split(path, '/');
      lastErr := None;
      ghost var visited := [];
      NothingVisited(kernel.tree, Content(controllers, t), split, unifiedMountpoint, path);
      assert kernel.writes == kernel.writes + ControlFiles([]);
      for i := 0 to |split|
        invariant visited == TargetsUpTo(split, unifiedMountpoint, path, i)
        invariant (kernel.tree, lastErr) == Toggled(old(kernel.tree), visited, Content(controllers, t))
        invariant kernel.writes == old(kernel.writes) + ControlFiles(visited)
      {
        var f := Join(split[..i], '/');
        if HasPrefix(f, unifiedMountpoint) && f != path {
          lastErr := Visit(kernel, f, controllers, t, old(kernel.tree), old(kernel.writes), visited);
          visited := visited + [f];
        }
        TargetsStep(split, unifiedMountpoint, path, i);
      }
    }

    /** One round: write the control file of f. */
    method Visit(kernel: Kernel, f: string, controllers: seq<string>, t: Toggle,
                 ghost tree: Tree, ghost writes: seq<string>, ghost visited: seq<string>)
      returns (lastErr: Option<string>)
      requires kernel.tree == Toggled(tree, visited, Content(controllers, t)).0
      requires kernel.writes == writes + ControlFiles(visited)
      modifies kernel
      ensures (kernel.tree, lastErr) == Toggled(tree, visited + [f], Content(controllers, t))
      ensures kernel.writes == writes + ControlFiles(visited + [f])
    {
      var filePath := FilepathJoin([f, SUBTREE_CONTROL]);
      VisitOne(tree, visited, f, Content(controllers, t));
      var ok := WriteSubtreeControl(kernel, filePath, controllers, t);
      lastErr := if ok then None else Some(filePath);
    }
  }

  lemma NothingVisited(t: Tree, content: string, split: seq<string>, mount: string, path: string)
    ensures TargetsUpTo(split, mount, path, 0) == [] && Toggled(t, [], content) == (t, None) && ControlFiles([]) == []
  {
  }

  lemma TargetsStep(split: seq<string>, mount: string, path: string, n: nat)
    requires n < |split|
    ensures var f := Join(split[..n], '/');
            TargetsUpTo(split, mount, path, n + 1) ==
            if HasPrefix(f, mount) && f != path then TargetsUpTo(split, mount, path, n) + [f]
            else TargetsUpTo(split, mount, path, n)
  {
  }

  lemma VisitOne(t: Tree, visited: seq<string>, f: string, content: string)
    ensures var file := FilepathJoin([f, SUBTREE_CONTROL]);
            var (t', ok) := WrittenFile(Toggled(t, visited, content).0, file, content);
            && Toggled(t, visited + [f], content) == (t', if ok then None else Some(file))
            && ControlFiles(visited + [f]) == ControlFiles(visited) + [file]
  {
    assert (visited + [f])[..|visited|] == visited;
  }

  // ----- Which directories are written -----

  /** What the loop computes from the first parts of a managed path. */
  lemma AncestorString(p: Dir, n: nat)
    requires n <= |p| + 1
    ensures Join(([""] + p)[..n], '/') == if n <= 1 then "" else Render(p[..n - 1])
  {
    var parts := ([""] + p)[..n];
    if n == 1 {
      assert parts == [""];
    } else if n > 1 {
      assert parts == [""] + p[..n - 1] && parts[1..] == p[..n - 1];
    }
  }

  lemma AncestorIsTarget(mount: Dir, p: Dir, k: nat)
    requires IsPath(p) && mount != [] && mount <= p && 1 <= k <= |p|
    ensures HasPrefix(Render(p[..k]), Render(mount)) <==> k >= |mount|
    ensures Render(p[..k]) == Render(p) <==> k == |p|
  {
    assert p[..|mount|] == mount && p[..|p|] == p;
    if k < |mount| {
      RenderPrefix(p, k, |mount|);
    } else {
      RenderPrefix(p, |mount|, k);
    }
    RenderPrefix(p, k, |p|);
  }

  /** The ancestors that the first n rounds should visit. */
  function Ancestors(mount: Dir, p: Dir, n: nat): seq<string>
    requires n <= |p| + 1
  {
    if n <= |mount| + 1 then [] else Ancestors(mount, p, n - 1) + [Render(p[..n - 2])]
  }

  lemma {:induction false} TargetsAreAncestors(mount: Dir, p: Dir, n: nat)
    requires IsPath(p) && mount != [] && mount <= p && n <= |p| + 1
    ensures TargetsUpTo([""] + p, Render(mount), Render(p), n) == Ancestors(mount, p, n)
  {
    if n > 0 {
      TargetsAreAncestors(mount, p, n - 1);
      AncestorString(p, n - 1);
      if n > 2 {
        AncestorIsTarget(mount, p, n - 2);
      }
    }
  }

  lemma {:induction false} AncestorsExact(mount: Dir, p: Dir, n: nat)
    requires n <= |p| + 1
    ensures |Ancestors(mount, p, n)| == (if n <= |mount| + 1 then 0 else n - 1 - |mount|)
    ensures forall k :: 0 <= k < |Ancestors(mount, p, n)| ==> Ancestors(mount, p, n)[k] == Render(p[..|mount| + k])
  {
    if n > |mount| + 1 {
      AncestorsExact(mount, p, n - 1);
    }
  }

  lemma TargetsInOrder(mount: Dir, p: Dir)
    requires IsPath(p) && mount != [] && mount <= p
    ensures var r := Targets(Render(mount), Render(p));
            |r| == |p| - |mount| && forall k {:trigger r[k]} :: 0 <= k < |r| ==> r[k] == Render(p[..|mount| + k])
  {
    SplitRender(p);
    assert |[""] + p| == |p| + 1;
    TargetsAreAncestors(mount, p, |p| + 1);
    AncestorsExact(mount, p, |p| + 1);
  }

  lemma AncestorIsAnother(p: Dir, k: nat)
    requires IsPath(p) && k < |p|
    ensures Render(p[..k]) != Render(p)
  {
    assert p[..|p|] == p;
    if k > 0 {
      RenderPrefix(p, k, |p|);
    } else {
      assert |p[0]| > 0 && |Render(p)| > 1;
    }
  }

  /**
    * The exact write set: every ancestor of the managed path from the mountpoint down to its parent, each once,
    * shortest first, and never the managed path itself.
    */
  lemma {:induction false} TargetsExact(mount: Dir, p: Dir)
    requires IsPath(p) && mount != [] && mount <= p
    ensures var r := Targets(Render(mount), Render(p));
            && |r| == |p| - |mount|
            && (forall k :: 0 <= k < |r| ==> r[k] == Render(p[..|mount| + k]))
            && Render(p) !in r
  {
    TargetsInOrder(mount, p);
    forall k: nat {:trigger p[..k]} | k < |p|
      ensures Render(p[..k]) != Render(p)
    {
      AncestorIsAnother(p, k);
    }
  }

  /** The control file of a directory, as a string. */
  lemma ControlFileText(d: Dir)
    requires IsPath(d) && d != []
    ensures FilepathJoin([Render(d), SUBTREE_CONTROL]) == Render(d) + "/cgroup.subtree_control"
  {
    assert IsName(SUBTREE_CONTROL);
    JoinName(d, SUBTREE_CONTROL);
    RenderSnoc(d, SUBTREE_CONTROL);
    SlashControl();
  }

  lemma SlashControl()
    ensures "/" + SUBTREE_CONTROL == "/cgroup.subtree_control"
  {
  }

  lemma RenderSnoc(d: Dir, name: string)
    requires d != []
    ensures Render(d + [name]) == Render(d) + ("/" + name)
  {
    JoinAppend(d, [name], '/');
    assert Join([name], '/') == name;
    assert "/" + (Join(d, '/') + ['/'] + name) == ("/" + Join(d, '/')) + ("/" + name);
  }

  /** The exact write set, as the files that are opened: cgroup.subtree_control of each of these ancestors, in order. */
  lemma FilesWritten(mount: Dir, p: Dir)
    requires IsPath(p) && mount != [] && mount <= p
    ensures var files := ControlFiles(Targets(Render(mount), Render(p)));
            && |files| == |p| - |mount|
            && forall k :: 0 <= k < |files| ==> files[k] == Render(p[..|mount| + k]) + "/cgroup.subtree_control"
  {
    hide Targets, Render, ControlFiles, FilepathJoin;
    var targets := Targets(Render(mount), Render(p));
    TargetsInOrder(mount, p);
    var files := ControlFiles(targets);
    forall k | 0 <= k < |files|
      ensures files[k] == Render(p[..|mount| + k]) + "/cgroup.subtree_control"
    {
      assert files[k] == FilepathJoin([targets[k], SUBTREE_CONTROL]);
      ControlFileText(p[..|mount| + k]);
    }
  }

  /** A mountpoint of "/" is never written: the loop sees the root directory as the empty string. */
  lemma RootMountpointIsSkipped(p: Dir)
    requires IsPath(p) && p != []
    ensures "/" !in Targets("/", Render(p)) && "" !in Targets("/", Render(p))
  {
    SplitRender(p);
    TargetsOfRoot([""] + p, Render(p), |p| + 1);
  }

  lemma {:induction false} TargetsOfRoot(split: seq<string>, path: string, n: nat)
    requires n <= |split| && split != [] && split[0] == "" && (forall i :: 0 < i < |split| ==> split[i] != "")
    ensures "/" !in TargetsUpTo(split, "/", path, n) && "" !in TargetsUpTo(split, "/", path, n)
  {
    if n > 0 {
      TargetsOfRoot(split, path, n - 1);
      var parts := split[..n - 1];
      if n > 2 {
        assert parts[0] == "" && parts[1..][0] == split[1];
        assert |Join(parts, '/')| == 1 + |Join(parts[1..], '/')|;
        assert |Join(parts[1..], '/')| >= 1;
      }
    }
  }

  // ----- What a nil error means -----

  function NameSet(controllers: seq<string>): set<string> {
    set c | c in controllers
  }

  lemma {:induction false} NonEmptyKeepsAll(parts: seq<string>)
    requires forall i :: 0 <= i < |parts| ==> parts[i] != ""
    ensures NonEmpty(parts) == parts
  {
    if parts != [] {
      NonEmptyKeepsAll(parts[1..]);
    }
  }

  lemma TokensAreSigned(controllers: seq<string>, toggle: Toggle)
    requires AllFree(controllers, ' ')
    ensures Tokens(Content(controllers, toggle)) == Prefixed(controllers, Sign(toggle))
  {
    var signed := Prefixed(controllers, Sign(toggle));
    if controllers == [] {
      assert Split("", ' ') == [""];
      assert [""][1..] == [];
    } else {
      SplitOfJoin(signed, ' ');
      NonEmptyKeepsAll(signed);
    }
  }

  lemma SignedNames(controllers: seq<string>, toggle: Toggle, sign: char)
    ensures var signed := Prefixed(controllers, Sign(toggle));
            Named(signed, sign) == if [sign] == Sign(toggle) then NameSet(controllers) else {}
  {
    var signed := Prefixed(controllers, Sign(toggle));
    assert forall i :: 0 <= i < |signed| ==> signed[i][0] == Sign(toggle)[0] && signed[i][1..] == controllers[i];
    if [sign] == Sign(toggle) {
      forall c | c in controllers
        ensures c in Named(signed, sign)
      {
        var i :| 0 <= i < |controllers| && controllers[i] == c;
        assert signed[i][0] == sign && signed[i][1..] == c;
      }
    }
  }

  /** The kernel reads back from the joined text exactly the controllers that were asked for. */
  lemma ContentTokens(controllers: seq<string>, toggle: Toggle)
    requires AllFree(controllers, ' ')
    ensures var tokens := Tokens(Content(controllers, toggle));
            && (forall i :: 0 <= i < |tokens| ==> [tokens[i][0]] == Sign(toggle))
            && Named(tokens, '+') == (if toggle == Enable then NameSet(controllers) else {})
            && Named(tokens, '-') == (if toggle == Disable then NameSet(controllers) else {})
  {
    hide Tokens, Content, Named;
    TokensAreSigned(controllers, toggle);
    SignedNames(controllers, toggle, '+');
    SignedNames(controllers, toggle, '-');
  }

  lemma WrittenIsToggledAt(t: Tree, d: Dir, controllers: seq<string>, toggle: Toggle)
    requires AllFree(controllers, ' ')
    ensures Written(t, d, Content(controllers, toggle)) == ToggledAt(t, d, NameSet(controllers), toggle)
  {
    ContentTokens(controllers, toggle);
  }

  /** The whole call, for a hierarchy mounted at t.root and the managed path p. */
  function Outcome(t: Tree, p: Dir, controllers: seq<string>, toggle: Toggle): (Tree, Option<string>) {
    Toggled(t, Targets(Render(t.root), Render(p)), Content(controllers, toggle))
  }

  ghost predicate Setting(t: Tree, p: Dir, controllers: seq<string>) {
    IsPath(p) && t.root != [] && t.root < p && AllFree(controllers, ' ') && TopDown(t)
  }

  /** One round on strings is one round on directories. */
  lemma {:induction false} RoundOnStrings(before: Tree, d: Dir, controllers: seq<string>, toggle: Toggle)
    requires IsPath(d) && AllFree(controllers, ' ')
    ensures WrittenFile(before, FilepathJoin([Render(d), SUBTREE_CONTROL]), Content(controllers, toggle))
         == ToggledAt(before, d, NameSet(controllers), toggle)
  {
    LocateControlFile(d);
    WrittenIsToggledAt(before, d, controllers, toggle);
  }

  lemma ToggledStep(t: Tree, targets: seq<string>, content: string, n: nat)
    requires n < |targets|
    ensures var file := FilepathJoin([targets[n], SUBTREE_CONTROL]);
            var r := WrittenFile(Toggled(t, targets[..n], content).0, file, content);
            && Toggled(t, targets[..n + 1], content).0 == r.0
            && (Toggled(t, targets[..n + 1], content).1 == None <==> r.1)
  {
    assert targets[..n + 1][..n] == targets[..n];
  }

  lemma {:induction false} ToggledRound(t: Tree, targets: seq<string>, controllers: seq<string>, toggle: Toggle,
                                        n: nat, d: Dir)
    requires n < |targets| && targets[n] == Render(d) && IsPath(d) && AllFree(controllers, ' ')
    ensures var content, names := Content(controllers, toggle), NameSet(controllers);
            var r := ToggledAt(Toggled(t, targets[..n], content).0, d, names, toggle);
            && Toggled(t, targets[..n + 1], content).0 == r.0
            && (Toggled(t, targets[..n + 1], content).1 == None <==> r.1)
  {
    ToggledStep(t, targets, Content(controllers, toggle), n);
    RoundOnStrings(Toggled(t, targets[..n], Content(controllers, toggle)).0, d, controllers, toggle);
  }

  /** The targets spell the levels on the way to p. */
  ghost predicate SpellLevels(t: Tree, p: Dir, targets: seq<string>) {
    && IsPath(p) && t.root <= p && |targets| == |p| - |t.root|
    && forall k {:trigger targets[k]} :: 0 <= k < |targets| ==> targets[k] == Render(p[..|t.root| + k])
  }

  lemma SpelledLevel(t: Tree, p: Dir, targets: seq<string>, k: nat) returns (d: Dir)
    requires SpellLevels(t, p, targets) && k < |targets|
    ensures d == Level(t, p, k) && IsPath(d) && targets[k] == Render(d)
  {
    d := Level(t, p, k);
  }

  lemma TargetsSpellLevels(t: Tree, p: Dir)
    requires IsPath(p) && t.root != [] && t.root <= p
    ensures SpellLevels(t, p, Targets(Render(t.root), Render(p)))
  {
    TargetsInOrder(t.root, p);
  }

  lemma RoundsStep(t: Tree, p: Dir, names: set<string>, toggle: Toggle, n: nat)
    requires t.root <= p && |t.root| + n < |p|
    ensures Rounds(t, p, names, toggle, n + 1)
         == ToggledAt(Rounds(t, p, names, toggle, n).0, Level(t, p, n), names, toggle)
  {
  }

  /** The first n rounds of ToggleControllers are the first n rounds on the directories. */
  ghost predicate RoundsAgree(t: Tree, p: Dir, targets: seq<string>, controllers: seq<string>, toggle: Toggle, n: nat)
    requires SpellLevels(t, p, targets) && n <= |targets|
  {
    var r := Toggled(t, targets[..n], Content(controllers, toggle));
    && r.0 == Rounds(t, p, NameSet(controllers), toggle, n).0
    && (r.1 == None <==> Rounds(t, p, NameSet(controllers), toggle, n).1)
  }

  lemma OneMoreRound(t: Tree, p: Dir, targets: seq<string>, controllers: seq<string>, toggle: Toggle, n: nat)
    requires SpellLevels(t, p, targets) && AllFree(controllers, ' ') && n < |targets|
    requires RoundsAgree(t, p, targets, controllers, toggle, n)
    ensures RoundsAgree(t, p, targets, controllers, toggle, n + 1)
  {
    var d := SpelledLevel(t, p, targets, n);
    ToggledRound(t, targets, controllers, toggle, n, d);
    RoundsStep(t, p, NameSet(controllers), toggle, n);
  }

  lemma {:induction false} ToggledIsRounds(t: Tree, p: Dir, targets: seq<string>, controllers: seq<string>,
                                           toggle: Toggle, n: nat)
    requires SpellLevels(t, p, targets) && AllFree(controllers, ' ') && n <= |targets|
    ensures RoundsAgree(t, p, targets, controllers, toggle, n)
  {
    if n > 0 {
      ToggledIsRounds(t, p, targets, controllers, toggle, n - 1);
      OneMoreRound(t, p, targets, controllers, toggle, n - 1);
    }
  }

  lemma {:induction false} OutcomeIsRounds(t: Tree, p: Dir, controllers: seq<string>, toggle: Toggle)
    requires Setting(t, p, controllers)
    ensures var n := |p| - |t.root|;
            && Outcome(t, p, controllers, toggle).0 == Rounds(t, p, NameSet(controllers), toggle, n).0
            && (Outcome(t, p, controllers, toggle).1 == None <==> Rounds(t, p, NameSet(controllers), toggle, n).1)
  {
    var targets := Targets(Render(t.root), Render(p));
    TargetsSpellLevels(t, p);
    assert targets[..|targets|] == targets;
    ToggledIsRounds(t, p, targets, controllers, toggle, |targets|);
  }

  /**
    * Whatever is written where, enabling or disabling, the hierarchy stays top-down: what a cgroup has enabled its
    * parent has.
    */
  lemma {:induction false} ToggledKeepsTopDown(t: Tree, targets: seq<string>, content: string)
    requires TopDown(t)
    ensures TopDown(Toggled(t, targets, content).0)
  {
    if targets != [] {
      var n := |targets| - 1;
      ToggledKeepsTopDown(t, targets[..n], content);
      var file := FilepathJoin([targets[n], SUBTREE_CONTROL]);
      if Locate(file).Some? {
        WrittenKeepsTopDown(Toggled(t, targets[..n], content).0, Locate(file).value, content);
      }
    }
  }

  // ----- What a nil error means -----

  /**
    * A nil error is enough: whichever earlier writes failed, every cgroup from the mountpoint down to the parent of
    * the managed one has all requested controllers enabled.
    */
  lemma {:induction false} NilMeansEnabled(t: Tree, p: Dir, controllers: seq<string>, k: nat)
    requires Setting(t, p, controllers) && Outcome(t, p, controllers, Enable).1 == None
    requires k < |p| - |t.root|
    ensures Has(Outcome(t, p, controllers, Enable).0, Level(t, p, k), NameSet(controllers))
  {
    hide Outcome;
    OutcomeIsRounds(t, p, controllers, Enable);
    LastRoundEnablesAll(t, p, NameSet(controllers), |p| - |t.root|, k);
  }

  /**
    * Exactly when the error is nil: from some level on, every directory exists and can be written, and that level
    * was offered the controllers before the call.
    */
  lemma {:induction false} NilIff(t: Tree, p: Dir, controllers: seq<string>)
    requires Setting(t, p, controllers)
    ensures Outcome(t, p, controllers, Enable).1 == None <==> Reachable(t, p, NameSet(controllers), |p| - |t.root| - 1)
  {
    hide Outcome;
    OutcomeIsRounds(t, p, controllers, Enable);
    RoundReachable(t, p, NameSet(controllers), |p| - |t.root|);
  }

  /**
    * With every directory writable and everything on offer at the root, the top-down order makes every write succeed.
    */
  lemma NothingRefused(t: Tree, p: Dir, controllers: seq<string>, n: nat)
    requires Setting(t, p, controllers) && 0 < n <= |Targets(Render(t.root), Render(p))|
    requires NameSet(controllers) <= t.available
    requires forall i: nat :: i < |p| - |t.root| ==> Level(t, p, i) in t.enabled && Level(t, p, i) !in t.refused
    ensures Toggled(t, Targets(Render(t.root), Render(p))[..n], Content(controllers, Enable)).1 == None
  {
    hide Toggled, TargetsUpTo;
    var names := NameSet(controllers);
    TargetsSpellLevels(t, p);
    ToggledIsRounds(t, p, Targets(Render(t.root), Render(p)), controllers, Enable, n);
    assert Chain(t, p, names, 0, n - 1) by {
      LevelParent(t, p, 0);
    }
    RoundReachable(t, p, names, n);
  }

  /** A failed call names the control file of the parent of the managed cgroup, whatever failed before. */
  lemma LastErrorIsParents(t: Tree, p: Dir, controllers: seq<string>, toggle: Toggle)
    requires Setting(t, p, controllers)
    ensures Outcome(t, p, controllers, toggle).1 == None
            || Outcome(t, p, controllers, toggle).1 == Some(Render(Parent(p)) + "/cgroup.subtree_control")
  {
    var targets := Targets(Render(t.root), Render(p));
    hide Targets, Render, FilepathJoin, WrittenFile, SUBTREE_CONTROL;
    TargetsInOrder(t.root, p);
    assert p[..|p| - 1] == Parent(p);
    ControlFileText(Parent(p));
  }

  /** Nothing but the requested controllers is added, only on the way to the managed cgroup, and nothing is removed. */
  lemma OnlyAncestorsChange(t: Tree, p: Dir, controllers: seq<string>, d: Dir)
    requires Setting(t, p, controllers) && d in t.enabled
    ensures d in Outcome(t, p, controllers, Enable).0.enabled
    ensures var now := Outcome(t, p, controllers, Enable).0.enabled[d];
            now == t.enabled[d] || (d < p && now == t.enabled[d] + NameSet(controllers))
  {
    hide Outcome;
    OutcomeIsRounds(t, p, controllers, Enable);
    RoundsOnlyAdd(t, p, NameSet(controllers), |p| - |t.root|, d);
  }

  // ----- Disabling -----

  /**
    * What disabling leaves enabled, read off the tree before the call: an ancestor of the managed cgroup loses the
    * names exactly when it can be written and none of its children has any of them enabled.
    */
  lemma DisabledExact(t: Tree, p: Dir, controllers: seq<string>, d: Dir)
    requires Setting(t, p, controllers) && d in t.enabled
    ensures d in Outcome(t, p, controllers, Disable).0.enabled
    ensures Outcome(t, p, controllers, Disable).0.enabled[d]
         == AfterDisabling(t, p, NameSet(controllers), |p| - |t.root|, d)
    ensures AfterDisabling(t, p, NameSet(controllers), |p| - |t.root|, d)
         == if t.root <= d < p && Releases(t, d, NameSet(controllers)) then t.enabled[d] - NameSet(controllers)
            else t.enabled[d]
  {
    hide Outcome;
    OutcomeIsRounds(t, p, controllers, Disable);
    DisableRoundsExact(t, p, NameSet(controllers), |p| - |t.root|, d);
  }

  /** Exactly when disabling returns nil: the parent of the managed cgroup gives the names up. */
  lemma DisableNilIff(t: Tree, p: Dir, controllers: seq<string>)
    requires Setting(t, p, controllers)
    ensures Outcome(t, p, controllers, Disable).1 == None <==> Releases(t, Parent(p), NameSet(controllers))
  {
    hide Outcome;
    var n := |p| - |t.root|;
    OutcomeIsRounds(t, p, controllers, Disable);
    DisableRoundReleases(t, p, NameSet(controllers), n);
    assert Level(t, p, n - 1) == Parent(p);
  }

  /** The call leaves no ancestor with any of the names. */
  ghost predicate NoneLeft(t: Tree, p: Dir, controllers: seq<string>) {
    var now := Outcome(t, p, controllers, Disable).0.enabled;
    forall d :: d in now && t.root <= d < p ==> now[d] * NameSet(controllers) == {}
  }

  /**
    * Exactly when disabling reaches every ancestor: only the mountpoint may have any of the names to begin with, and
    * must then give them up. As soon as an ancestor below the mountpoint has one, the one above it keeps it.
    */
  lemma {:induction false} DisableReachesAllIff(t: Tree, p: Dir, controllers: seq<string>)
    requires Setting(t, p, controllers)
    ensures NoneLeft(t, p, controllers) <==>
            && (forall d :: d in t.enabled && t.root < d < p ==> t.enabled[d] * NameSet(controllers) == {})
            && (t.enabled[t.root] * NameSet(controllers) == {} || Releases(t, t.root, NameSet(controllers)))
  {
    hide Outcome;
    var names, n := NameSet(controllers), |p| - |t.root|;
    OutcomeIsRounds(t, p, controllers, Disable);
    AllDisabledIff(t, p, names, n);
    LevelsAreBetween(t, p, Rounds(t, p, names, Disable, n).0.enabled, names, 0);
    LevelsAreBetween(t, p, t.enabled, names, 1);
  }

  /** Saying something of all levels from the j-th on is saying it of all directories between them and p. */
  lemma {:induction false} LevelsAreBetween(t: Tree, p: Dir, enabled: map<Dir, set<string>>, names: set<string>, j: nat)
    requires t.root < p
    ensures (forall d :: d in enabled && |t.root| + j <= |d| && t.root <= d < p ==> enabled[d] * names == {}) <==>
            forall k: nat {:trigger Level(t, p, k)} ::
              j <= k < |p| - |t.root| && Level(t, p, k) in enabled ==> enabled[Level(t, p, k)] * names == {}
  {
    forall d | t.root <= d < p
      ensures d == Level(t, p, |d| - |t.root|)
    {
    }
    forall k: nat | k < |p| - |t.root|
      ensures t.root <= Level(t, p, k) < p
    {
    }
  }

  /** When the error is nil although an ancestor keeps one of the names. */
  lemma DisableMisleadsIff(t: Tree, p: Dir, controllers: seq<string>)
    requires Setting(t, p, controllers)
    ensures Outcome(t, p, controllers, Disable).1 == None && !NoneLeft(t, p, controllers) <==>
            && Releases(t, Parent(p), NameSet(controllers))
            && ((exists d :: d in t.enabled && t.root < d < p && t.enabled[d] * NameSet(controllers) != {})
                || (t.enabled[t.root] * NameSet(controllers) != {} && !Releases(t, t.root, NameSet(controllers))))
  {
    hide Outcome;
    DisableNilIff(t, p, controllers);
    DisableReachesAllIff(t, p, controllers);
  }

  /** A chain of two cgroups below the mountpoint that both use cpu. */
  function CpuChain(): Tree {
    Tree(["m"], {"cpu"}, {}, map[["m"] := {"cpu"}, ["m", "a"] := {"cpu"}, ["m", "a", "b"] := {}])
  }

  predicate HasEnabled(t: Tree, d: Dir, names: set<string>) {
    d in t.enabled && t.enabled[d] == names
  }

  /** The ordinary case misleads: disabling cpu for m/a/b returns nil, and m keeps it. */
  lemma {:induction false} DisableLeavesAncestors()
    ensures Outcome(CpuChain(), ["m", "a", "b"], ["cpu"], Disable).1 == None
    ensures HasEnabled(Outcome(CpuChain(), ["m", "a", "b"], ["cpu"], Disable).0, ["m"], {"cpu"})
    ensures HasEnabled(Outcome(CpuChain(), ["m", "a", "b"], ["cpu"], Disable).0, ["m", "a"], {})
  {
    hide Outcome;
    var t, root, a, p := CpuChain(), ["m"], ["m", "a"], ["m", "a", "b"];
    assert Parent(a) == root && Parent(p) == a;
    assert NameSet(["cpu"]) == {"cpu"};
    assert "cpu" in t.enabled[a] * {"cpu"};
    assert UsedBelow(t, root, {"cpu"}) && !UsedBelow(t, a, {"cpu"});
    DisableNilIff(t, p, ["cpu"]);
    DisabledExact(t, p, ["cpu"], root);
    DisabledExact(t, p, ["cpu"], a);
  }
}
