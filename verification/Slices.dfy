/** systemd slice names and the directories they stand for. */
module Slices {
  import opened Strings
  import opened Paths

  const SLICE := ".slice"

  function Completed(s: string): string {
    if HasSuffix(s, SLICE) then s else s + SLICE
  }

  /** The path after the first n dash-separated parts. */
  function ExpandedUpTo(parts: seq<string>, n: nat): string
    requires n <= |parts|
  {
    if n == 0 then "" else FilepathJoin([ExpandedUpTo(parts, n - 1), Completed(Join(parts[..n], '-'))])
  }

  predicate IsDashed(name: string) {
    HasSuffix(name, SLICE) && '-' in name
  }

  function Expanded(name: string): string {
    if IsDashed(name) then ExpandedUpTo(Split(name, '-'), |Split(name, '-')|) else FilepathJoin(["", name])
  }

  /** dashesToPath. */
  method DashesToPath(name: string) returns (path: string)
    ensures path == Expanded(name)
  {
    path := "";
    if HasSuffix(name, SLICE) && '-' in name {
      var parts := Split(name, '-');
      for i := 0 to |parts|
        invariant path == ExpandedUpTo(parts, i)
      {
        var s := Join(parts[0..i + 1], '-');
        if !HasSuffix(s, SLICE) {
          s := s + SLICE;
        }
        path := FilepathJoin([path, s]);
      }
    } else {
      path := FilepathJoin([path, name]);
    }
  }

  function GetSystemdFullPath(slice: string, group: string): string {
    FilepathJoin(["/sys/fs/cgroup", Expanded(slice), Expanded(group)])
  }

  /** systemdUnitFromPath: what follows the last slash. */
  function SystemdUnitFromPath(path: string): string {
    var parts := Split(path, '/');
    parts[|parts| - 1]
  }

  // ----- The components of an expanded name -----

  /** The i-th directory of a dashed slice name: the join of its first i + 1 parts, completed with the suffix. */
  function Component(parts: seq<string>, i: nat): string
    requires i < |parts|
  {
    Completed(Join(parts[..i + 1], '-'))
  }

  function Components(parts: seq<string>, n: nat): (r: seq<string>)
    requires n <= |parts|
    ensures |r| == n && forall i :: 0 <= i < n ==> r[i] == Component(parts, i)
  {
    if n == 0 then [] else Components(parts, n - 1) + [Component(parts, n - 1)]
  }

  lemma {:induction false} JoinFree(parts: seq<string>, sep: char, c: char)
    requires AllFree(parts, c) && sep != c
    ensures Free(Join(parts, sep), c)
  {
    if |parts| > 1 {
      JoinFree(parts[1..], sep, c);
    }
  }

  lemma SliceIsName(s: string)
    requires HasSuffix(s, SLICE) && Free(s, '/')
    ensures IsName(s)
  {
    assert |s| >= 6;
  }

  lemma CompletedIsName(s: string)
    requires Free(s, '/')
    ensures IsName(Completed(s))
  {
    if !HasSuffix(s, SLICE) {
      var t := s + SLICE;
      assert t[|t| - 6..] == SLICE;
    }
    SliceIsName(Completed(s));
  }

  /** A clean relative path: its components joined by slashes. */
  lemma CleanRelative(names: seq<string>)
    requires names != [] && IsPath(names)
    ensures Clean(Join(names, '/')) == Join(names, '/')
    ensures Join(names, '/') != "" && Split(Join(names, '/'), '/') == names
  {
    PathIsFree(names);
    assert IsName(names[0]);
    SplitOfJoin(names, '/');
    ResolveNames(false, [], names);
    assert [] + names == names;
    assert Join(names, '/')[0] == names[0][0];
  }

  lemma JoinRelative(names: seq<string>, name: string)
    requires IsPath(names) && IsName(name)
    ensures FilepathJoin([if names == [] then "" else Join(names, '/'), name]) == Join(names + [name], '/')
  {
    CleanRelative(names + [name]);
    if names == [] {
      assert ["", name][1..] == [name];
      assert names + [name] == [name];
    } else {
      CleanRelative(names);
      JoinAppend(names, [name], '/');
      var s := Join(names, '/');
      assert [s, name][1..] == [name];
    }
  }

  lemma {:induction false} ExpandedIsComponents(parts: seq<string>, n: nat)
    requires n <= |parts| && AllFree(parts, '/')
    ensures IsPath(Components(parts, n))
    ensures ExpandedUpTo(parts, n) == if n == 0 then "" else Join(Components(parts, n), '/')
  {
    if n > 0 {
      ExpandedIsComponents(parts, n - 1);
      JoinFree(parts[..n], '-', '/');
      CompletedIsName(Join(parts[..n], '-'));
      JoinRelative(Components(parts, n - 1), Component(parts, n - 1));
    }
  }

  lemma {:induction false} SplitKeepsFree(s: string, sep: char, c: char)
    requires Free(s, c)
    ensures AllFree(Split(s, sep), c)
  {
    if s != "" {
      SplitKeepsFree(s[1..], sep, c);
    }
  }

  /**
    * A dashed slice name without slashes expands to one directory per dash-separated part; the i-th is the join of the
    * first i + 1 parts, completed with ".slice", and the last is the name itself.
    */
  lemma {:induction false} DashedExpansion(name: string)
    requires IsDashed(name) && Free(name, '/')
    ensures var parts := Split(name, '-');
            && Expanded(name) == Join(Components(parts, |parts|), '/')
            && IsPath(Components(parts, |parts|))
            && Component(parts, |parts| - 1) == name
  {
    var parts := Split(name, '-');
    SplitKeepsFree(name, '-', '/');
    ExpandedIsComponents(parts, |parts|);
    JoinOfSplit(name, '-');
    assert parts[..|parts|] == parts;
  }

  /** The components that a unit name expands to, whatever its form; the last one is the name. */
  lemma {:induction false} ExpansionEndsInName(name: string) returns (names: seq<string>)
    requires IsName(name)
    ensures names != [] && IsPath(names) && names[|names| - 1] == name && Expanded(name) == Join(names, '/')
  {
    if IsDashed(name) {
      DashedExpansion(name);
      names := Components(Split(name, '-'), |Split(name, '-')|);
    } else {
      JoinRelative([], name);
      names := [name];
      assert [] + [name] == [name];
    }
  }

  lemma JoinString(a: string, b: string, c: string)
    requires HasPrefix(a, "/")
    ensures FilepathJoin([a, b, c]) == Clean(a + ['/'] + (b + ['/'] + c))
  {
    assert [a, b, c][1..] == [b, c] && [b, c][1..] == [c];
    assert Join([c], '/') == c;
    assert Join([b, c], '/') == b + ['/'] + c;
    assert Join([a, b, c], '/') == a + ['/'] + Join([b, c], '/');
  }

  lemma CleanRooted(s: string)
    requires HasPrefix(s, "/")
    ensures Clean(s) == Render(Resolve(true, [], Split(s, '/')))
  {
  }

  lemma SplitThree(a: string, b: string, names: seq<string>)
    requires names != [] && IsPath(names)
    ensures Split(a + ['/'] + (b + ['/'] + Join(names, '/')), '/') == (Split(a, '/') + Split(b, '/')) + names
  {
    var c := Join(names, '/');
    SplitConcat(a, '/', b + ['/'] + c);
    SplitConcat(b, '/', c);
    assert Split(c, '/') == names by {
      CleanRelative(names);
    }
  }

  lemma CleanThrough(text: string, parts: seq<string>, names: seq<string>)
    requires HasPrefix(text, "/") && Split(text, '/') == parts + names && IsPath(names)
    ensures Clean(text) == Render(Resolve(true, [], parts) + names)
  {
    CleanRooted(text);
    ResolveAppend(true, [], parts, names);
    ResolveNames(true, Resolve(true, [], parts), names);
  }

  /** Joining three elements, the first of them absolute, follows the other two from there. */
  lemma {:induction false} JoinThree(a: string, b: string, names: seq<string>)
    requires HasPrefix(a, "/") && names != [] && IsPath(names)
    ensures FilepathJoin([a, b, Join(names, '/')]) == Render(Resolve(true, [], Split(a, '/') + Split(b, '/')) + names)
  {
    JoinString(a, b, Join(names, '/'));
    SplitThree(a, b, names);
    CleanThrough(a + ['/'] + (b + ['/'] + Join(names, '/')), Split(a, '/') + Split(b, '/'), names);
  }

  lemma LastComponent(p: seq<string>)
    requires IsPath(p) && p != []
    ensures SystemdUnitFromPath(Render(p)) == p[|p| - 1]
  {
    SplitRender(p);
    var parts := [""] + p;
    assert parts[|parts| - 1] == p[|p| - 1];
  }

  /** The unit of any path: what follows the last slash, or the whole path when there is none. */
  lemma UnitExact(path: string, unit: string)
    requires Free(unit, '/')
    ensures SystemdUnitFromPath(unit) == unit
    ensures SystemdUnitFromPath(path + ['/'] + unit) == unit
  {
    SplitFree(unit, '/');
    SplitConcat(path, '/', unit);
  }

  lemma PartsAreFree(a: string, b: string)
    ensures IsPath(Resolve(true, [], Split(a, '/') + Split(b, '/')))
  {
    JoinOfSplit(a, '/');
    JoinOfSplit(b, '/');
    ResolveRootedIsPath([], Split(a, '/') + Split(b, '/'));
  }

  /** The unit is recovered from the full path, for every slice and every unit name that can be a file name. */
  lemma UnitIsRecovered(slice: string, name: string)
    requires IsName(name)
    ensures SystemdUnitFromPath(GetSystemdFullPath(slice, name)) == name
  {
    var names := ExpansionEndsInName(name);
    UnitAfter("/sys/fs/cgroup", Expanded(slice), names);
  }

  lemma {:induction false} UnitAfter(root: string, mid: string, names: seq<string>)
    requires HasPrefix(root, "/") && names != [] && IsPath(names)
    ensures SystemdUnitFromPath(FilepathJoin([root, mid, Join(names, '/')])) == names[|names| - 1]
  {
    PartsAreFree(root, mid);
    JoinThree(root, mid, names);
    LastComponent(Resolve(true, [], Split(root, '/') + Split(mid, '/')) + names);
  }

  // ----- The full path -----

  /** The directories of a name: itself, unless it is a dashed slice; then the completed joins of its first parts. */
  ghost predicate ExpandsTo(name: string, dirs: seq<string>) {
    if name == "" then dirs == []
    else if HasSuffix(name, ".slice") && '-' in name then
      var parts := Split(name, '-');
      && |dirs| == |parts|
      && forall i :: 0 <= i < |dirs| ==> IsCompletion(dirs[i], Join(parts[..i + 1], '-'))
    else dirs == [name]
  }

  /** The directory is the text, with ".slice" at the end unless it is there already. */
  ghost predicate IsCompletion(dir: string, text: string) {
    if HasSuffix(text, ".slice") then dir == text else dir == text + ".slice"
  }

  lemma {:induction false} ExpansionOf(name: string) returns (dirs: seq<string>)
    requires name == "" || IsName(name)
    ensures ExpandsTo(name, dirs) && IsPath(dirs)
    ensures Expanded(name) == if dirs == [] then "" else Join(dirs, '/')
  {
    if name == "" {
      dirs := [];
      assert ["", ""][1..] == [""] && [""][1..] == [];
    } else if IsDashed(name) {
      DashedExpansion(name);
      dirs := Components(Split(name, '-'), |Split(name, '-')|);
    } else {
      JoinRelative([], name);
      dirs := [name];
      assert [] + [name] == [name];
    }
  }

  lemma ExpansionIsUnique(name: string, a: seq<string>, b: seq<string>)
    requires ExpandsTo(name, a) && ExpandsTo(name, b)
    ensures a == b
  {
  }

  lemma ResolveRelative(base: seq<string>, dirs: seq<string>)
    requires IsPath(dirs)
    ensures Resolve(true, base, Split(if dirs == [] then "" else Join(dirs, '/'), '/')) == base + dirs
  {
    if dirs == [] {
      assert Split("", '/') == [""] && [""][1..] == [];
    } else {
      CleanRelative(dirs);
      ResolveNames(true, base, dirs);
    }
  }

  lemma RootParts()
    ensures Resolve(true, [], Split("/sys/fs/cgroup", '/')) == ["sys", "fs", "cgroup"]
    ensures Render(["sys", "fs", "cgroup"]) == "/sys/fs/cgroup"
  {
    var p := ["sys", "fs", "cgroup"];
    assert p[1..] == ["fs", "cgroup"] && p[1..][1..] == ["cgroup"];
    assert Join(["cgroup"], '/') == "cgroup";
    assert Join(["fs", "cgroup"], '/') == "fs/cgroup";
    assert Join(p, '/') == "sys/fs/cgroup";
    assert "/" + "sys/fs/cgroup" == "/sys/fs/cgroup";
    assert IsName("sys") && IsName("fs") && IsName("cgroup");
    ResolveRender(true, [], p);
    assert [] + p == p;
  }

  /**
    * The full path, component by component: the mountpoint, the directories of the slice (none for an empty slice),
    * the directories of the group.
    */
  lemma {:induction false} FullPathExact(slice: string, group: string, s: seq<string>, g: seq<string>)
    requires slice == "" || IsName(slice)
    requires IsName(group) && ExpandsTo(slice, s) && ExpandsTo(group, g)
    ensures IsPath(s) && IsPath(g)
    ensures GetSystemdFullPath(slice, group) == Render(["sys", "fs", "cgroup"] + s + g)
  {
    var s' := ExpansionOf(slice);
    var g' := ExpansionOf(group);
    ExpansionIsUnique(slice, s, s');
    ExpansionIsUnique(group, g, g');
    RootParts();
    var mid, root := Expanded(slice), ["sys", "fs", "cgroup"];
    JoinThree("/sys/fs/cgroup", mid, g);
    ResolveAppend(true, [], Split("/sys/fs/cgroup", '/'), Split(mid, '/'));
    ResolveRelative(root, s);
  }
}
