/**
  * The unified hierarchy as the kernel keeps it: a cgroup may enable for its children only what its own parent has
  * enabled (Control Group v2, "Controlling Controllers", "Top-down Constraint").
  */
module KernelTree {
  import opened Directories

  /**
    * The controllers the root offers, the directories whose control file may not be written, and what each existing
    * cgroup has enabled for its children.
    */
  datatype Tree = Tree(root: Dir, available: set<string>, refused: set<Dir>, enabled: map<Dir, set<string>>)

  /** What cgroup.controllers of d lists. */
  function Offered(t: Tree, d: Dir): set<string> {
    if d == t.root then t.available
    else if d != [] && Parent(d) in t.enabled then t.enabled[Parent(d)]
    else {}
  }

  ghost predicate Constrained(t: Tree, d: Dir)
    requires d in t.enabled
  {
    t.root <= d && t.enabled[d] <= Offered(t, d) && (d != t.root ==> Parent(d) in t.enabled)
  }

  ghost predicate TopDown(t: Tree) {
    t.root in t.enabled && forall d {:trigger Constrained(t, d)} :: d in t.enabled ==> Constrained(t, d)
  }

  predicate UsedBelow(t: Tree, d: Dir, names: set<string>) {
    exists c :: c in t.enabled && c != [] && Parent(c) == d && t.enabled[c] * names != {}
  }

  /** One accepted write: names are added and removed together. */
  function Changed(t: Tree, d: Dir, plus: set<string>, minus: set<string>): Tree
    requires d in t.enabled
  {
    t.(enabled := t.enabled[d := t.enabled[d] + plus - minus])
  }

  /** The kernel never leaves the top-down constraint. */
  lemma ChangeKeepsTopDown(t: Tree, d: Dir, plus: set<string>, minus: set<string>)
    requires TopDown(t) && d in t.enabled && plus <= Offered(t, d) && !UsedBelow(t, d, minus)
    ensures TopDown(Changed(t, d, plus, minus))
  {
    var t' := Changed(t, d, plus, minus);
    forall c | c in t'.enabled
      ensures Constrained(t', c)
    {
      assert Constrained(t, c);
      if c == d {
        if d != t.root {
          assert |Parent(d)| < |d|;
        }
      } else if c != t.root && Parent(c) == d {
        assert t.enabled[c] * minus == {};
        assert forall x :: x in t.enabled[c] && x in minus ==> x in t.enabled[c] * minus;
      }
    }
  }

  datatype Toggle = Enable | Disable

  /** One write that enables or disables the names at d: all of them or, when the kernel refuses, none. */
  function ToggledAt(t: Tree, d: Dir, names: set<string>, toggle: Toggle): (Tree, bool) {
    if d !in t.enabled || d in t.refused then (t, false)
    else
      match toggle
      case Enable => if names <= Offered(t, d) then (Changed(t, d, names, {}), true) else (t, false)
      case Disable => if !UsedBelow(t, d, names) then (Changed(t, d, {}, names), true) else (t, false)
  }

  lemma ToggleKeepsTopDown(t: Tree, d: Dir, names: set<string>, toggle: Toggle)
    requires TopDown(t)
    ensures TopDown(ToggledAt(t, d, names, toggle).0)
  {
    if ToggledAt(t, d, names, toggle).1 {
      if toggle == Enable {
        ChangeKeepsTopDown(t, d, names, {});
      } else {
        ChangeKeepsTopDown(t, d, {}, names);
      }
    }
  }

  /** The k-th directory on the way from the root to p. */
  function Level(t: Tree, p: Dir, k: nat): (d: Dir)
    requires t.root <= p && |t.root| + k <= |p|
    ensures |d| == |t.root| + k
  {
    p[..|t.root| + k]
  }

  lemma LevelParent(t: Tree, p: Dir, k: nat)
    requires t.root <= p && |t.root| + k <= |p|
    ensures k == 0 ==> Level(t, p, k) == t.root
    ensures k > 0 ==> Level(t, p, k) != [] && Parent(Level(t, p, k)) == Level(t, p, k - 1) && Level(t, p, k) != t.root
  {
  }

  /** Toggling the names on the first n levels, from the root down, whether or not earlier levels refused. */
  function Rounds(t: Tree, p: Dir, names: set<string>, toggle: Toggle, n: nat): (Tree, bool)
    requires t.root <= p && |t.root| + n <= |p|
  {
    if n == 0 then (t, true)
    else ToggledAt(Rounds(t, p, names, toggle, n - 1).0, Level(t, p, n - 1), names, toggle)
  }

  lemma {:induction false} RoundsFrame(t: Tree, p: Dir, names: set<string>, toggle: Toggle, n: nat)
    requires t.root <= p && |t.root| + n <= |p|
    ensures var t' := Rounds(t, p, names, toggle, n).0;
            && t'.root == t.root && t'.available == t.available && t'.refused == t.refused
            && t'.enabled.Keys == t.enabled.Keys
    ensures TopDown(t) ==> TopDown(Rounds(t, p, names, toggle, n).0)
  {
    if n > 0 {
      RoundsFrame(t, p, names, toggle, n - 1);
      if TopDown(t) {
        ToggleKeepsTopDown(Rounds(t, p, names, toggle, n - 1).0, Level(t, p, n - 1), names, toggle);
      }
    }
  }

  // ----- Enabling -----

  /** Round k is accepted: the directory can be written, and the names were on offer there or arrived in round k - 1. */
  predicate Accepted(t: Tree, p: Dir, names: set<string>, k: nat)
    requires t.root <= p && |t.root| + k <= |p|
  {
    && Level(t, p, k) in t.enabled && Level(t, p, k) !in t.refused
    && (names <= Offered(t, Level(t, p, k)) || (k > 0 && Accepted(t, p, names, k - 1)))
  }

  /** d was written successfully in one of the first n rounds. */
  predicate Gained(t: Tree, p: Dir, names: set<string>, n: nat, d: Dir)
    requires t.root <= p && |t.root| + n <= |p|
  {
    |t.root| <= |d| < |t.root| + n && d == Level(t, p, |d| - |t.root|) && Accepted(t, p, names, |d| - |t.root|)
  }

  /** What the first n rounds leave enabled at d. */
  lemma {:induction false} RoundsExact(t: Tree, p: Dir, names: set<string>, n: nat, d: Dir)
    requires t.root <= p && |t.root| + n <= |p| && TopDown(t) && d in t.enabled
    ensures d in Rounds(t, p, names, Enable, n).0.enabled
    ensures Rounds(t, p, names, Enable, n).0.enabled[d]
         == if Gained(t, p, names, n, d) then t.enabled[d] + names else t.enabled[d]
    decreases n, 1
  {
    RoundsFrame(t, p, names, Enable, n);
    if n > 0 {
      RoundsExact(t, p, names, n - 1, d);
      RoundAccepted(t, p, names, n);
      RoundsFrame(t, p, names, Enable, n - 1);
    }
  }

  /** Round n - 1 succeeds exactly when it is accepted in the sense above. */
  lemma {:induction false} RoundAccepted(t: Tree, p: Dir, names: set<string>, n: nat)
    requires t.root <= p && 0 < n && |t.root| + n <= |p| && TopDown(t)
    ensures Rounds(t, p, names, Enable, n).1 <==> Accepted(t, p, names, n - 1)
    decreases n, 0
  {
    var d, before := Level(t, p, n - 1), Rounds(t, p, names, Enable, n - 1).0;
    RoundsFrame(t, p, names, Enable, n - 1);
    LevelParent(t, p, n - 1);
    if d in t.enabled && n > 1 {
      assert Constrained(t, d);
      RoundsExact(t, p, names, n - 1, Level(t, p, n - 2));
    }
  }

  /** From level j on, everything up to level k can be written, and level j was offered the names to begin with. */
  ghost predicate Chain(t: Tree, p: Dir, names: set<string>, j: nat, k: nat) {
    && t.root <= p && j <= k && |t.root| + k <= |p|
    && names <= Offered(t, Level(t, p, j))
    && forall i: nat {:trigger Level(t, p, i)} :: j <= i <= k ==>
         Level(t, p, i) in t.enabled && Level(t, p, i) !in t.refused
  }

  /** Level k can be reached from some level that was offered the names. */
  ghost predicate Reachable(t: Tree, p: Dir, names: set<string>, k: nat) {
    exists j: nat {:trigger Chain(t, p, names, j, k)} :: Chain(t, p, names, j, k)
  }

  lemma {:induction false} AcceptedIff(t: Tree, p: Dir, names: set<string>, k: nat)
    requires t.root <= p && |t.root| + k <= |p|
    ensures Accepted(t, p, names, k) <==> Reachable(t, p, names, k)
  {
    if k > 0 {
      AcceptedIff(t, p, names, k - 1);
    }
    if Accepted(t, p, names, k) {
      if names <= Offered(t, Level(t, p, k)) {
        assert Chain(t, p, names, k, k);
      } else {
        var j: nat :| Chain(t, p, names, j, k - 1);
        assert Chain(t, p, names, j, k);
      }
    }
    if j: nat :| Chain(t, p, names, j, k) {
      if j < k {
        assert Chain(t, p, names, j, k - 1);
      }
    }
  }

  /** What a level has enabled, every level above it has enabled. */
  lemma {:induction false} EnabledUpwards(t: Tree, p: Dir, names: set<string>, n: nat, k: nat)
    requires t.root <= p && |t.root| + n <= |p| && TopDown(t) && k <= n
    requires Level(t, p, n) in t.enabled && names <= t.enabled[Level(t, p, n)]
    ensures Level(t, p, k) in t.enabled && names <= t.enabled[Level(t, p, k)]
    decreases n
  {
    if k < n {
      LevelParent(t, p, n);
      assert Constrained(t, Level(t, p, n));
      EnabledUpwards(t, p, names, n - 1, k);
    }
  }

  predicate Has(t: Tree, d: Dir, names: set<string>) {
    d in t.enabled && names <= t.enabled[d]
  }

  /** When the last round succeeds, every level has the names. */
  lemma {:induction false} LastRoundEnablesAll(t: Tree, p: Dir, names: set<string>, n: nat, k: nat)
    requires t.root <= p && |t.root| + n <= |p| && TopDown(t) && k < n && Rounds(t, p, names, Enable, n).1
    ensures Has(Rounds(t, p, names, Enable, n).0, Level(t, p, k), names)
  {
    RoundAccepted(t, p, names, n);
    RoundsExact(t, p, names, n, Level(t, p, n - 1));
    RoundsFrame(t, p, names, Enable, n);
    var t' := Rounds(t, p, names, Enable, n).0;
    assert Level(t', p, n - 1) == Level(t, p, n - 1) && Level(t', p, k) == Level(t, p, k);
    EnabledUpwards(t', p, names, n - 1, k);
  }

  /** Round n - 1 succeeds exactly when its level can be reached. */
  lemma RoundReachable(t: Tree, p: Dir, names: set<string>, n: nat)
    requires t.root <= p && 0 < n && |t.root| + n <= |p| && TopDown(t)
    ensures Rounds(t, p, names, Enable, n).1 <==> Reachable(t, p, names, n - 1)
  {
    RoundAccepted(t, p, names, n);
    AcceptedIff(t, p, names, n - 1);
  }

  lemma RoundsOnlyAdd(t: Tree, p: Dir, names: set<string>, n: nat, d: Dir)
    requires t.root <= p && |t.root| + n <= |p| && TopDown(t) && d in t.enabled
    ensures d in Rounds(t, p, names, Enable, n).0.enabled
    ensures var now := Rounds(t, p, names, Enable, n).0.enabled[d];
            now == t.enabled[d] || (d < p && now == t.enabled[d] + names)
  {
    RoundsExact(t, p, names, n, d);
  }

  // ----- Disabling -----

  /** d gives the names up: it exists, it can be written, and no child has any of them enabled. */
  predicate Releases(t: Tree, d: Dir, names: set<string>) {
    d in t.enabled && d !in t.refused && !UsedBelow(t, d, names)
  }

  /** d is one of the first n levels, and gives the names up. */
  predicate Released(t: Tree, p: Dir, names: set<string>, n: nat, d: Dir)
    requires t.root <= p && |t.root| + n <= |p|
  {
    |t.root| <= |d| < |t.root| + n && d <= p && Releases(t, d, names)
  }

  function AfterDisabling(t: Tree, p: Dir, names: set<string>, n: nat, d: Dir): set<string>
    requires t.root <= p && |t.root| + n <= |p| && d in t.enabled
  {
    if Released(t, p, names, n, d) then t.enabled[d] - names else t.enabled[d]
  }

  /**
    * What the first n rounds of disabling leave enabled at d, read off the tree before the call: when a level is
    * written its children are still as they were.
    */
  lemma {:induction false} DisableRoundsExact(t: Tree, p: Dir, names: set<string>, n: nat, d: Dir)
    requires t.root <= p && |t.root| + n <= |p| && d in t.enabled
    ensures d in Rounds(t, p, names, Disable, n).0.enabled
    ensures Rounds(t, p, names, Disable, n).0.enabled[d] == AfterDisabling(t, p, names, n, d)
    decreases n, 1
  {
    RoundsFrame(t, p, names, Disable, n);
    if n > 0 {
      RoundsFrame(t, p, names, Disable, n - 1);
      DisableRoundsExact(t, p, names, n - 1, d);
      DisableRoundReleases(t, p, names, n);
      var last := Level(t, p, n - 1);
      assert d == last <==> d <= p && |d| == |last|;
    }
  }

  /** Round n - 1 succeeds exactly when its level gives the names up. */
  lemma {:induction false} DisableRoundReleases(t: Tree, p: Dir, names: set<string>, n: nat)
    requires t.root <= p && 0 < n && |t.root| + n <= |p|
    ensures Rounds(t, p, names, Disable, n).1 <==> Releases(t, Level(t, p, n - 1), names)
    decreases n, 0
  {
    var d, before := Level(t, p, n - 1), Rounds(t, p, names, Disable, n - 1).0;
    RoundsFrame(t, p, names, Disable, n - 1);
    forall c | c in t.enabled && c != [] && Parent(c) == d
      ensures before.enabled[c] == t.enabled[c]
    {
      DisableRoundsExact(t, p, names, n - 1, c);
    }
    assert UsedBelow(before, d, names) <==> UsedBelow(t, d, names);
  }

  /** After the first n rounds of disabling, no level has any of the names left. */
  ghost predicate AllDisabled(t: Tree, p: Dir, names: set<string>, n: nat)
    requires t.root <= p && |t.root| + n <= |p|
  {
    var now := Rounds(t, p, names, Disable, n).0.enabled;
    forall k: nat {:trigger Level(t, p, k)} :: k < n && Level(t, p, k) in now ==> now[Level(t, p, k)] * names == {}
  }

  /** No level but the root has any of the names to begin with, and the root, if it has, gives them up. */
  ghost predicate OnlyRootToDisable(t: Tree, p: Dir, names: set<string>, n: nat)
    requires t.root <= p && |t.root| + n <= |p| && t.root in t.enabled
  {
    && (forall k: nat {:trigger Level(t, p, k)} ::
          0 < k < n && Level(t, p, k) in t.enabled ==> t.enabled[Level(t, p, k)] * names == {})
    && (n > 0 ==> t.enabled[t.root] * names == {} || Releases(t, t.root, names))
  }

  /** A level below the root that has some of the names keeps its parent from giving them up. */
  lemma {:induction false} ParentKeeps(t: Tree, p: Dir, names: set<string>, n: nat, k: nat)
    requires t.root <= p && |t.root| + n <= |p| && TopDown(t) && 0 < k < n
    requires Level(t, p, k) in t.enabled && t.enabled[Level(t, p, k)] * names != {}
    ensures !AllDisabled(t, p, names, n)
  {
    var d, up := Level(t, p, k), Level(t, p, k - 1);
    LevelParent(t, p, k);
    assert Constrained(t, d) && up in t.enabled;
    assert UsedBelow(t, up, names);
    DisableRoundsExact(t, p, names, n, up);
    assert t.enabled[d] * names <= t.enabled[up] * names;
    assert Rounds(t, p, names, Disable, n).0.enabled[up] * names != {};
  }

  /** The top-down order disables every level exactly when there is nothing to disable below the root. */
  lemma {:induction false} AllDisabledIff(t: Tree, p: Dir, names: set<string>, n: nat)
    requires t.root <= p && |t.root| + n <= |p| && TopDown(t)
    ensures AllDisabled(t, p, names, n) <==> OnlyRootToDisable(t, p, names, n)
  {
    RoundsFrame(t, p, names, Disable, n);
    DisableRoundsExact(t, p, names, n, t.root);
    if AllDisabled(t, p, names, n) {
      forall k: nat {:trigger Level(t, p, k)} | 0 < k < n && Level(t, p, k) in t.enabled
        ensures t.enabled[Level(t, p, k)] * names == {}
      {
        if t.enabled[Level(t, p, k)] * names != {} {
          ParentKeeps(t, p, names, n, k);
        }
      }
      if n > 0 {
        assert Level(t, p, 0) == t.root;
      }
    }
    if OnlyRootToDisable(t, p, names, n) {
      forall k: nat {:trigger Level(t, p, k)} | k < n && Level(t, p, k) in t.enabled
        ensures Rounds(t, p, names, Disable, n).0.enabled[Level(t, p, k)] * names == {}
      {
        LevelParent(t, p, k);
        DisableRoundsExact(t, p, names, n, Level(t, p, k));
      }
    }
  }
}
