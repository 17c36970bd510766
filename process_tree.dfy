/**
 * `find_descendant` and `terminate_process_tree`: the processes below a runner's child, found
 * by repeated scans of one process snapshot, and the kills sent to the tree.
 */
module ProcessTree {
  import opened Wrappers

  /** A process as the snapshot reports it: its parent, if any, and its name. */
  datatype Proc = Proc(parent: Option<nat>, name: string)

  /** The process table after one refresh, by pid. */
  type Snapshot = map<nat, Proc>

  /** `chain` climbs from its first pid, parent by parent through the snapshot, and its last pid's parent is `root`. */
  ghost predicate IsChain(snap: Snapshot, root: nat, chain: seq<nat>)
  {
    && |chain| > 0
    && (forall i :: 0 <= i < |chain| ==> chain[i] in snap && snap[chain[i]].parent.Some?)
    && (forall i :: 0 <= i < |chain| - 1 ==> snap[chain[i]].parent.value == chain[i + 1])
    && snap[chain[|chain| - 1]].parent.value == root
  }

  /** `p` lies below `root` in the snapshot. */
  ghost predicate IsDescendant(snap: Snapshot, root: nat, p: nat)
  {
    exists chain :: IsChain(snap, root, chain) && chain[0] == p
  }

  /** Every pid of the snapshot whose parent is `root` or in `keys` is itself in `keys`. */
  ghost predicate Closed(snap: Snapshot, root: nat, keys: set<nat>)
  {
    forall p :: p in snap && snap[p].parent.Some? && (snap[p].parent.value == root || snap[p].parent.value in keys) ==> p in keys
  }

  /** A closed set holds every descendant. */
  lemma {:induction false} ClosedHoldsChain(snap: Snapshot, root: nat, keys: set<nat>, chain: seq<nat>)
    requires Closed(snap, root, keys)
    requires IsChain(snap, root, chain)
    ensures chain[0] in keys
    decreases |chain|
  {
    if |chain| > 1 {
      assert IsChain(snap, root, chain[1..]) by {
        forall i | 0 <= i < |chain[1..]| - 1 ensures snap[chain[1..][i]].parent.value == chain[1..][i + 1] {
          assert chain[1..][i] == chain[i + 1];
        }
      }
      ClosedHoldsChain(snap, root, keys, chain[1..]);
    }
  }

  /** A closed set holds every descendant of the snapshot. */
  lemma ClosedHoldsDescendants(snap: Snapshot, root: nat, keys: set<nat>)
    requires Closed(snap, root, keys)
    ensures forall p :: IsDescendant(snap, root, p) ==> p in keys
  {
    forall p | IsDescendant(snap, root, p) ensures p in keys {
      var chain :| IsChain(snap, root, chain) && chain[0] == p;
      ClosedHoldsChain(snap, root, keys, chain);
    }
  }

  /** A pid whose parent is `root` or a known descendant is a descendant, by the longer chain. */
  lemma ExtendChain(snap: Snapshot, root: nat, p: nat, tail: seq<nat>)
    requires p in snap && snap[p].parent.Some?
    requires tail == [] ==> snap[p].parent.value == root
    requires tail != [] ==> IsChain(snap, root, tail) && tail[0] == snap[p].parent.value
    ensures IsChain(snap, root, [p] + tail)
  {
    var chain := [p] + tail;
    forall i | 0 <= i < |chain| - 1 ensures snap[chain[i]].parent.value == chain[i + 1] {
      if i > 0 {
        assert chain[i] == tail[i - 1] && chain[i + 1] == tail[i];
      }
    }
  }

  /** A subset is no larger than its superset. */
  lemma {:induction false} SubsetNoLarger(a: set<nat>, b: set<nat>)
    requires a <= b
    ensures |a| <= |b|
    decreases b
  {
    if a != {} {
      var y :| y in a;
      SubsetNoLarger(a - {y}, b - {y});
    }
  }

  /** Adding a new element of `s` to a subset of `s` shrinks what is left of `s`. */
  lemma RemainderShrinks(s: set<nat>, a: set<nat>, b: set<nat>)
    requires a < b <= s
    ensures |s - b| < |s - a|
  {
    var x :| x in b && x !in a;
    SubsetNoLarger(s - b, (s - a) - {x});
  }

  /** Every pid of `m` is a descendant of `root`, recorded with its name in the snapshot. */
  ghost predicate Found(snap: Snapshot, root: nat, m: map<nat, string>)
  {
    forall p :: p in m ==> p in snap && m[p] == snap[p].name && IsDescendant(snap, root, p)
  }

  /**
   * One pass of the `find_descendant` loop: every pid of the snapshot, in some order, is added
   * with its name when it is new and its parent is the root or already found. `cycleHas` says
   * whether the pass added anything.
   */
  method ScanPass(snap: Snapshot, root: nat, children: map<nat, string>) returns (next: map<nat, string>, cycleHas: bool)
    requires Found(snap, root, children)
    ensures Found(snap, root, next)
    ensures children.Keys <= next.Keys <= snap.Keys && (cycleHas <==> next.Keys != children.Keys)
    ensures !cycleHas ==> next == children && Closed(snap, root, children.Keys)
  {
    next := children;
    cycleHas := false;
    var todo := snap.Keys;
    while todo != {}
      invariant todo <= snap.Keys
      invariant Found(snap, root, next)
      invariant children.Keys <= next.Keys && (cycleHas <==> next.Keys != children.Keys)
      invariant !cycleHas ==> next == children
      invariant forall p :: p in snap.Keys - todo && snap[p].parent.Some? && (snap[p].parent.value == root || snap[p].parent.value in children) ==> p in next
      decreases todo
    {
      var pid :| pid in todo;
      todo := todo - {pid};
      var p := snap[pid];
      if p.parent.Some? {
        var parentPid := p.parent.value;
        if pid !in next && (parentPid == root || parentPid in next) {
          ghost var tail: seq<nat> := [];
          if parentPid != root {
            tail :| IsChain(snap, root, tail) && tail[0] == parentPid;
          }
          ExtendChain(snap, root, pid, tail);
          next := next[pid := p.name];
          cycleHas := true;
        }
      }
    }
    if !cycleHas {
      assert snap.Keys - todo == snap.Keys;
      assert Closed(snap, root, children.Keys);
    }
  }

  /**
   * `find_descendant`: pass after pass over the snapshot until a pass adds nothing. Whatever
   * order the passes visit the pids in, the result is exactly the descendants of `root`, each
   * with its name in the snapshot.
   */
  method FindDescendant(snap: Snapshot, root: nat) returns (children: map<nat, string>)
    ensures forall p :: p in children <==> p in snap && IsDescendant(snap, root, p)
    ensures forall p :: p in children ==> children[p] == snap[p].name
  {
    children := map[];
    while true
      invariant Found(snap, root, children)
      decreases |snap.Keys - children.Keys|
    {
      var next, cycleHas := ScanPass(snap, root, children);
      if !cycleHas {
        break;
      }
      RemainderShrinks(snap.Keys, children.Keys, next.Keys);
      children := next;
    }
    ClosedHoldsDescendants(snap, root, children.Keys);
  }

  /** The kills `terminate_process_tree` sends, in order. */
  datatype Kill = KillRoot(runner: string, pid: nat) | KillWarning(runner: string) | KillDescendant(pid: nat)

  /** `kills` holds one `KillDescendant` per pid of `pids` and nothing else. */
  ghost predicate KillsEach(kills: seq<Kill>, pids: set<nat>)
  {
    && (forall i :: 0 <= i < |kills| ==> kills[i].KillDescendant? && kills[i].pid in pids)
    && (forall i, j :: 0 <= i < j < |kills| ==> kills[i].pid != kills[j].pid)
    && (forall p :: p in pids ==> exists i :: 0 <= i < |kills| && kills[i] == KillDescendant(p))
  }

  /** The kills before the descendants': the root's, then a warning if it could not be killed. */
  function RootKills(name: string, pid: nat, rootKillFails: bool): (ks: seq<Kill>)
    ensures |ks| >= 1 && ks[0] == KillRoot(name, pid)
    ensures rootKillFails <==> |ks| == 2
    ensures |ks| <= 2 && (|ks| == 2 ==> ks[1] == KillWarning(name))
  {
    [KillRoot(name, pid)] + (if rootKillFails then [KillWarning(name)] else [])
  }

  /** `log` is what `terminate_process_tree` sends for the child `id` of runner `name`. */
  ghost predicate TreeKilled(log: seq<Kill>, name: string, id: Option<nat>, snap: Snapshot, rootKillFails: bool)
  {
    if id.None? then log == []
    else
      && |log| >= |RootKills(name, id.value, rootKillFails)|
      && log[..|RootKills(name, id.value, rootKillFails)|] == RootKills(name, id.value, rootKillFails)
      && KillsEach(log[|RootKills(name, id.value, rootKillFails)|..], set p | p in snap && IsDescendant(snap, id.value, p))
  }

  /**
   * `terminate_process_tree` over the snapshot taken just before the kills: nothing when the
   * child has no id; otherwise the root is killed first (a failure only warns) and then every
   * descendant found in the snapshot is killed once, results ignored. The descendants are
   * visited in an unspecified order, as the source's hash map does.
   */
  method TerminateProcessTree(name: string, id: Option<nat>, snap: Snapshot, rootKillFails: bool) returns (log: seq<Kill>)
    ensures TreeKilled(log, name, id, snap, rootKillFails)
  {
    log := [];
    if id.None? {
      return;
    }
    var procPid := id.value;
    var children := FindDescendant(snap, procPid);
    log := [KillRoot(name, procPid)];
    if rootKillFails {
      log := log + [KillWarning(name)];
    }
    ghost var head := log;
    ghost var all := children.Keys;
    var kills: seq<Kill> := [];
    var todo := children.Keys;
    while todo != {}
      invariant todo <= all <= snap.Keys
      invariant forall i :: 0 <= i < |kills| ==> kills[i].KillDescendant? && kills[i].pid in all - todo
      invariant forall i, j :: 0 <= i < j < |kills| ==> kills[i].pid != kills[j].pid
      invariant forall p :: p in all - todo ==> exists i :: 0 <= i < |kills| && kills[i] == KillDescendant(p)
      decreases todo
    {
      var pid :| pid in todo;
      ghost var done := all - todo;
      todo := todo - {pid};
      if pid in snap {
        ghost var before := kills;
        kills := kills + [KillDescendant(pid)];
        forall q | q in all - todo ensures exists i :: 0 <= i < |kills| && kills[i] == KillDescendant(q) {
          if q == pid {
            assert kills[|before|] == KillDescendant(q);
          } else {
            assert q in done;
            var i :| 0 <= i < |before| && before[i] == KillDescendant(q);
            assert kills[i] == KillDescendant(q);
          }
        }
      }
    }
    assert head == RootKills(name, procPid, rootKillFails);
    log := log + kills;
    assert log[..|head|] == head && log[|head|..] == kills;
    assert all == set p | p in snap && IsDescendant(snap, procPid, p);
    assert all - todo == all;
    assert KillsEach(kills, all);
  }

  /** A root with a child, a grandchild and a great-grandchild, next to an unrelated process. */
  lemma ChainExample()
    ensures var snap := map[1 := Proc(Some(0), "a"), 2 := Proc(Some(1), "b"), 3 := Proc(Some(2), "c"), 4 := Proc(Some(9), "d")];
            forall p :: IsDescendant(snap, 0, p) <==> p in {1, 2, 3}
  {
    var snap := map[1 := Proc(Some(0), "a"), 2 := Proc(Some(1), "b"), 3 := Proc(Some(2), "c"), 4 := Proc(Some(9), "d")];
    assert IsChain(snap, 0, [1]);
    assert IsChain(snap, 0, [2, 1]);
    assert IsChain(snap, 0, [3, 2, 1]);
    var keys := {1, 2, 3};
    assert Closed(snap, 0, keys);
    forall p | IsDescendant(snap, 0, p) ensures p in keys {
      var chain :| IsChain(snap, 0, chain) && chain[0] == p;
      ClosedHoldsChain(snap, 0, keys, chain);
    }
  }
}
