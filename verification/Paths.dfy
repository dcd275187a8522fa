/**
  * Slash-separated paths: `filepath.Clean`, `Join` and `Split` on strings, and what they do to clean absolute paths,
  * seen as sequences of component names.
  */
module Paths {
  import opened Strings

  /** A name that can be a component of a clean absolute path. */
  predicate IsName(s: string) {
    s != "" && s != "." && s != ".." && Free(s, '/')
  }

  predicate IsPath(p: seq<string>) {
    forall i :: 0 <= i < |p| ==> IsName(p[i])
  }

  /** The string of a clean absolute path. */
  function Render(p: seq<string>): string {
    if p == [] then "/" else "/" + Join(p, '/')
  }

  /** Follow the parts, lexically, from base. In an unrooted path leading ".." parts are kept. */
  function Resolve(rooted: bool, base: seq<string>, parts: seq<string>): seq<string>
    decreases |parts|
  {
    if parts == [] then base
    else if parts[0] == "" || parts[0] == "." then Resolve(rooted, base, parts[1..])
    else if parts[0] == ".." then
      if base != [] && base[|base| - 1] != ".." then Resolve(rooted, base[..|base| - 1], parts[1..])
      else if rooted then Resolve(rooted, base, parts[1..])
      else Resolve(rooted, base + [".."], parts[1..])
    else Resolve(rooted, base + [parts[0]], parts[1..])
  }

  /** `filepath.Clean`. */
  function Clean(s: string): string {
    if s == "" then "."
    else if s[0] == '/' then Render(Resolve(true, [], Split(s, '/')))
    else
      var p := Resolve(false, [], Split(s, '/'));
      if p == [] then "." else Join(p, '/')
  }

  /** `filepath.Join`: leading empty elements are dropped; the rest are joined and cleaned. */
  function FilepathJoin(elements: seq<string>): string
    decreases |elements|
  {
    if elements == [] then ""
    else if elements[0] == "" then FilepathJoin(elements[1..])
    else Clean(Join(elements, '/'))
  }

  // ----- Lemmas -----

  lemma ConsConcat(head: string, rest: seq<string>, more: seq<string>)
    requires |rest| >= 1
    ensures [head] + (rest + more) == ([head] + rest) + more
    ensures [head + rest[0]] + (rest + more)[1..] == ([head + rest[0]] + rest[1..]) + more
  {
    assert (rest + more)[1..] == rest[1..] + more;
  }

  lemma {:induction false} SplitConcat(a: string, sep: char, b: string)
    ensures Split(a + [sep] + b, sep) == Split(a, sep) + Split(b, sep)
  {
    var s := a + [sep] + b;
    if a == "" {
      assert s[1..] == b;
    } else {
      assert s[1..] == a[1..] + [sep] + b && s[0] == a[0];
      SplitConcat(a[1..], sep, b);
      ConsConcat(if a[0] == sep then "" else [a[0]], Split(a[1..], sep), Split(b, sep));
    }
  }

  lemma {:induction false} ResolveAppend(rooted: bool, base: seq<string>, a: seq<string>, b: seq<string>)
    ensures Resolve(rooted, base, a + b) == Resolve(rooted, Resolve(rooted, base, a), b)
    decreases |a|
  {
    if a == [] {
      assert a + b == b;
    } else {
      assert (a + b)[1..] == a[1..] + b && (a + b)[0] == a[0];
      if a[0] == "" || a[0] == "." {
        ResolveAppend(rooted, base, a[1..], b);
      } else if a[0] == ".." {
        if base != [] && base[|base| - 1] != ".." {
          ResolveAppend(rooted, base[..|base| - 1], a[1..], b);
        } else if rooted {
          ResolveAppend(rooted, base, a[1..], b);
        } else {
          ResolveAppend(rooted, base + [".."], a[1..], b);
        }
      } else {
        ResolveAppend(rooted, base + [a[0]], a[1..], b);
      }
    }
  }

  lemma {:induction false} ResolveNames(rooted: bool, base: seq<string>, names: seq<string>)
    requires IsPath(names)
    ensures Resolve(rooted, base, names) == base + names
    decreases |names|
  {
    if names != [] {
      assert IsName(names[0]);
      ResolveNames(rooted, base + [names[0]], names[1..]);
      assert base + [names[0]] + names[1..] == base + names;
    }
  }

  lemma {:induction false} ResolveRootedIsPath(base: seq<string>, parts: seq<string>)
    requires IsPath(base) && AllFree(parts, '/')
    ensures IsPath(Resolve(true, base, parts))
    decreases |parts|
  {
    if parts != [] {
      var rest := parts[1..];
      if parts[0] == "" || parts[0] == "." {
        ResolveRootedIsPath(base, rest);
      } else if parts[0] == ".." {
        if base != [] && base[|base| - 1] != ".." {
          ResolveRootedIsPath(base[..|base| - 1], rest);
        } else {
          ResolveRootedIsPath(base, rest);
        }
      } else {
        ResolveRootedIsPath(base + [parts[0]], rest);
      }
    }
  }

  lemma PathIsFree(p: seq<string>)
    requires IsPath(p)
    ensures AllFree(p, '/')
  {
    assert forall i :: 0 <= i < |p| ==> IsName(p[i]);
  }

  lemma SplitRender(p: seq<string>)
    requires IsPath(p)
    ensures Split(Render(p), '/') == if p == [] then ["", ""] else [""] + p
  {
    PathIsFree(p);
    if p == [] {
      assert Split("", '/') == [""];
      SplitHead("", '/', "");
      assert "" + ['/'] + "" == "/";
    } else {
      SplitHead("", '/', Join(p, '/'));
      assert "" + ['/'] + Join(p, '/') == "/" + Join(p, '/');
      SplitOfJoin(p, '/');
    }
  }

  /** Following a clean absolute path from base appends its components. */
  lemma ResolveRender(rooted: bool, base: seq<string>, p: seq<string>)
    requires IsPath(p)
    ensures Resolve(rooted, base, Split(Render(p), '/')) == base + p
  {
    SplitRender(p);
    if p == [] {
      assert ["", ""][1..] == [""] && [""][1..] == [];
    } else {
      assert ([""] + p)[1..] == p;
      ResolveNames(rooted, base, p);
    }
  }

  /** An absolute path is clean exactly when it is the string of some sequence of names. */
  lemma {:induction false} CleanIff(s: string)
    requires HasPrefix(s, "/")
    ensures Clean(s) == s <==> exists p :: IsPath(p) && s == Render(p)
  {
    if Clean(s) == s {
      JoinOfSplit(s, '/');
      ResolveRootedIsPath([], Split(s, '/'));
    }
    if p :| IsPath(p) && s == Render(p) {
      ResolveRender(true, [], p);
      assert [] + p == p;
    }
  }

  /** Joining a clean absolute path and any string resolves the string's parts from that path. */
  lemma JoinResolves(p: seq<string>, s: string)
    requires IsPath(p)
    ensures FilepathJoin([Render(p), s]) == Render(Resolve(true, p, Split(s, '/')))
  {
    var text := Render(p) + ['/'] + s;
    assert [Render(p), s][1..] == [s];
    assert Join([Render(p), s], '/') == text;
    SplitConcat(Render(p), '/', s);
    ResolveAppend(true, [], Split(Render(p), '/'), Split(s, '/'));
    ResolveRender(true, [], p);
    assert [] + p == p;
  }

  /**
    * What joining does, step by step, whatever is joined: an empty step and "." stay, ".." goes up and stays at the
    * top, any other step goes down.
    */
  lemma {:induction false} JoinSteps(p: seq<string>, step: string, rest: string, q: seq<string>)
    requires IsPath(p) && Free(step, '/')
    requires step == "" || step == "." ==> q == p
    requires step == ".." ==> q == if p == [] then [] else p[..|p| - 1]
    requires IsName(step) ==> q == p + [step]
    ensures FilepathJoin([Render(p), step]) == Render(q)
    ensures FilepathJoin([Render(p), step + ['/'] + rest]) == FilepathJoin([Render(q), rest])
  {
    assert IsPath(q);
    SplitFree(step, '/');
    SplitConcat(step, '/', rest);
    assert p != [] ==> IsName(p[|p| - 1]);
    assert [step][1..] == [];
    assert Resolve(true, p, [step]) == q;
    ResolveAppend(true, p, [step], Split(rest, '/'));
    JoinResolves(p, step);
    JoinResolves(p, step + ['/'] + rest);
    JoinResolves(q, rest);
  }

  lemma JoinClean(p: seq<string>, q: seq<string>)
    requires IsPath(p) && IsPath(q)
    ensures FilepathJoin([Render(p), Render(q)]) == Render(p + q)
  {
    JoinResolves(p, Render(q));
    ResolveRender(true, p, q);
  }

  lemma JoinName(p: seq<string>, name: string)
    requires IsPath(p) && IsName(name)
    ensures FilepathJoin([Render(p), name]) == Render(p + [name])
  {
    JoinResolves(p, name);
    SplitFree(name, '/');
    ResolveNames(true, p, [name]);
  }

  /** The strings of two ancestors of the same path: the shorter one is a string prefix of the longer one. */
  lemma RenderPrefix(p: seq<string>, j: nat, k: nat)
    requires IsPath(p) && 1 <= j <= k <= |p|
    ensures Render(p[..j]) <= Render(p[..k])
    ensures j < k ==> |Render(p[..j])| < |Render(p[..k])|
  {
    if j < k {
      assert p[..k] == p[..j] + p[j..k];
      JoinAppend(p[..j], p[j..k], '/');
    }
  }
}
