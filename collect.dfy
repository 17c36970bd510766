/**
 * The first phase of `parse_awesome_toml`: every declaration, grouped ones first and then the
 * solo ones, becomes a holder pushed onto `all_runners`; Named holders are indexed by key and the
 * positions of Refed holders are remembered for the resolution phase.
 */
module Collecting {
  import opened Wrappers
  import opened Toml
  import opened Errors
  import opened Holders

  const RunnersKey: string := "runners"
  const RunnerKey: string := "runner"

  /** One declaration with its owning group (none for a solo runner). */
  datatype Decl = Decl(group: Option<string>, value: Value)

  /** The declarations of one array, in order. */
  function ItemDecls(group: Option<string>, items: seq<Value>): (ds: seq<Decl>)
    ensures |ds| == |items| && forall i :: 0 <= i < |items| ==> ds[i] == Decl(group, items[i])
  {
    if items == [] then [] else [Decl(group, items[0])] + ItemDecls(group, items[1..])
  }

  /** The declarations of group `g`; a group whose value is not an array contributes none. */
  function GroupDecls(groups: map<string, Value>, g: string): seq<Decl>
  {
    if g in groups && groups[g].Array? then ItemDecls(Some(g), groups[g].items) else []
  }

  /** The grouped declarations, visiting the groups in `order`. */
  function GroupedDecls(groups: map<string, Value>, order: seq<string>): seq<Decl>
  {
    if order == [] then [] else GroupDecls(groups, order[0]) + GroupedDecls(groups, order[1..])
  }

  /**
   * The `order` in which the TOML table of groups is iterated: each of its keys exactly once
   * (its sorted order is one such enumeration).
   */
  ghost predicate IsGroupOrder(root: map<string, Value>, order: seq<string>)
  {
    if RunnersKey in root && root[RunnersKey].Table? then
      (forall i, j :: 0 <= i < j < |order| ==> order[i] != order[j]) &&
      (forall g :: g in order <==> g in root[RunnersKey].entries)
    else order == []
  }

  function SoloDecls(root: map<string, Value>): seq<Decl>
  {
    if RunnerKey in root && root[RunnerKey].Array? then ItemDecls(None, root[RunnerKey].items) else []
  }

  /** Every declaration of the root table in visit order: `[[runners.<group>]]` first, then `[[runner]]`. */
  function Declarations(root: map<string, Value>, order: seq<string>): seq<Decl>
  {
    (if RunnersKey in root && root[RunnersKey].Table? then GroupedDecls(root[RunnersKey].entries, order) else [])
    + SoloDecls(root)
  }

  /** `all_runners`, `named_idx_by_key` and `refed_idxs`. */
  datatype Collected = Collected(all: seq<Holder>, namedIdx: map<string, nat>, refedIdxs: seq<nat>)

  /** The `process_runner_holder` closure: build the holder, index it, push it. */
  function ProcessHolder(st: Collected, d: Decl): Result<Collected, Error>
  {
    match NewHolder(d.group, d.value)
    case Err(e) => Err(e)
    case Ok(h) => Ok(PushHolder(st, h))
  }

  /** The holder indexed (or its position remembered) and pushed. */
  function PushHolder(st: Collected, h: Holder): (st': Collected)
    ensures st'.all == st.all + [h]
    ensures IsRefed(h) ==> st'.namedIdx == st.namedIdx && st'.refedIdxs == st.refedIdxs + [|st.all|]
    ensures !IsRefed(h) ==> st'.namedIdx == st.namedIdx[Key(h) := |st.all|] && st'.refedIdxs == st.refedIdxs
  {
    var idx := |st.all|;
    if IsRefed(h) then Collected(st.all + [h], st.namedIdx, st.refedIdxs + [idx])
    else Collected(st.all + [h], st.namedIdx[Key(h) := idx], st.refedIdxs)
  }

  /** The state after processing `ds` in order from `st`, or the first holder error. */
  function CollectFrom(st: Collected, ds: seq<Decl>): Result<Collected, Error>
    decreases |ds|
  {
    if ds == [] then Ok(st)
    else match ProcessHolder(st, ds[0])
      case Err(e) => Err(e)
      case Ok(st') => CollectFrom(st', ds[1..])
  }

  /** The collection phase run over `decls` from empty vectors and an empty index. */
  function CollectAll(decls: seq<Decl>): Result<Collected, Error>
  {
    CollectFrom(Collected([], map[], []), decls)
  }

  lemma {:induction false} CollectFromAppend(st: Collected, a: seq<Decl>, b: seq<Decl>)
    ensures CollectFrom(st, a + b) == match CollectFrom(st, a) case Err(e) => Err(e) case Ok(st') => CollectFrom(st', b)
    decreases |a|
  {
    if a == [] {
      assert a + b == b;
    } else {
      assert (a + b)[0] == a[0] && (a + b)[1..] == a[1..] + b;
      match ProcessHolder(st, a[0])
      case Err(e) =>
      case Ok(st') => CollectFromAppend(st', a[1..], b);
    }
  }

  /** Every key of the index names a Named holder with that key. */
  ghost predicate IndexSound(c: Collected)
  {
    forall k :: k in c.namedIdx ==>
      c.namedIdx[k] < |c.all| && c.all[c.namedIdx[k]].kind.Named? && Key(c.all[c.namedIdx[k]]) == k
  }

  /** No Named holder after the indexed one has the same key: the index keeps the last. */
  ghost predicate IndexLast(c: Collected)
  {
    forall k, j :: k in c.namedIdx && c.namedIdx[k] < j < |c.all| && c.all[j].kind.Named? ==> Key(c.all[j]) != k
  }

  /** Every Named holder's key is indexed. */
  ghost predicate IndexComplete(c: Collected)
  {
    forall i :: 0 <= i < |c.all| && c.all[i].kind.Named? ==> Key(c.all[i]) in c.namedIdx
  }

  /**
   * Every key of the index names the LAST Named holder with that key, and every Named holder's
   * key is indexed.
   */
  ghost predicate IndexExact(c: Collected)
  {
    IndexSound(c) && IndexLast(c) && IndexComplete(c)
  }

  /** `refed_idxs` lists exactly the positions of the Refed holders, in increasing order. */
  ghost predicate RefedExact(c: Collected)
  {
    && (forall j :: 0 <= j < |c.refedIdxs| ==> c.refedIdxs[j] < |c.all| && c.all[c.refedIdxs[j]].kind.Refed?)
    && (forall i :: 0 <= i < |c.all| && c.all[i].kind.Refed? ==> i in c.refedIdxs)
    && (forall j, j' :: 0 <= j < j' < |c.refedIdxs| ==> c.refedIdxs[j] < c.refedIdxs[j'])
  }

  /** One holder pushed: every index entry still names a Named holder with its key. */
  lemma PushKeepsIndexSound(st: Collected, h: Holder)
    requires IndexSound(st)
    ensures IndexSound(PushHolder(st, h))
  {
    var c := PushHolder(st, h);
    var n := |st.all|;
    assert c.all == st.all + [h];
    if h.kind.Named? {
      forall k | k in c.namedIdx
        ensures c.namedIdx[k] < |c.all| && c.all[c.namedIdx[k]].kind.Named? && Key(c.all[c.namedIdx[k]]) == k
      {
        if k != Key(h) {
          assert c.namedIdx[k] == st.namedIdx[k] < n;
          assert c.all[c.namedIdx[k]] == st.all[st.namedIdx[k]];
        }
      }
    } else {
      forall k | k in c.namedIdx ensures c.all[c.namedIdx[k]] == st.all[st.namedIdx[k]] { }
    }
  }

  /** One holder pushed: the index still keeps the last holder of each key. */
  lemma PushKeepsIndexLast(st: Collected, h: Holder)
    requires IndexSound(st) && IndexLast(st)
    ensures IndexLast(PushHolder(st, h))
  {
    var c := PushHolder(st, h);
    var n := |st.all|;
    assert c.all == st.all + [h];
    forall k, j | k in c.namedIdx && c.namedIdx[k] < j < |c.all| && c.all[j].kind.Named?
      ensures Key(c.all[j]) != k
    {
      if j < n {
        assert c.namedIdx[k] == st.namedIdx[k] && c.all[j] == st.all[j];
      }
    }
  }

  /** One holder pushed: every Named key is still indexed. */
  lemma PushKeepsIndexComplete(st: Collected, h: Holder)
    requires IndexComplete(st)
    ensures IndexComplete(PushHolder(st, h))
  {
    var c := PushHolder(st, h);
    var n := |st.all|;
    assert c.all == st.all + [h];
    forall i | 0 <= i < |c.all| && c.all[i].kind.Named? ensures Key(c.all[i]) in c.namedIdx {
      if i < n {
        assert c.all[i] == st.all[i];
      }
    }
  }

  /** One holder pushed: the index stays exact. */
  lemma PushKeepsIndexExact(st: Collected, h: Holder)
    requires IndexExact(st)
    ensures IndexExact(PushHolder(st, h))
  {
    PushKeepsIndexSound(st, h);
    PushKeepsIndexLast(st, h);
    PushKeepsIndexComplete(st, h);
  }

  /** One holder pushed: the refed list stays exact. */
  lemma PushKeepsRefedExact(st: Collected, h: Holder)
    requires RefedExact(st)
    ensures RefedExact(PushHolder(st, h))
  {
    var c := PushHolder(st, h);
    var n := |st.all|;
    assert c.all == st.all + [h];
    forall i | 0 <= i < n ensures c.all[i] == st.all[i] { }
    forall j | 0 <= j < |st.refedIdxs| ensures st.refedIdxs[j] < n { }
    if h.kind.Refed? {
      assert c.refedIdxs == st.refedIdxs + [n];
    } else {
      assert c.refedIdxs == st.refedIdxs;
    }
  }

  /** Every declaration of `ds` makes a holder. */
  ghost predicate AllMake(ds: seq<Decl>)
  {
    forall i :: 0 <= i < |ds| ==> NewHolder(ds[i].group, ds[i].value).Ok?
  }

  /** `all` is `base` followed by the holders of `ds`, one each, in order. */
  ghost predicate Pushed(all: seq<Holder>, base: seq<Holder>, ds: seq<Decl>)
    requires AllMake(ds)
  {
    |all| == |base| + |ds| && all[..|base|] == base &&
    forall i :: 0 <= i < |ds| ==> all[|base| + i] == NewHolder(ds[i].group, ds[i].value).value
  }

  /** The first declaration of `ds` that makes no holder, with its error. */
  ghost predicate FirstFailure(ds: seq<Decl>, e: Error)
  {
    exists i :: 0 <= i < |ds| && NewHolder(ds[i].group, ds[i].value) == Err(e)
                && forall j :: 0 <= j < i ==> NewHolder(ds[j].group, ds[j].value).Ok?
  }

  /** Collection succeeds exactly when every declaration makes a holder, else fails at the first that does not. */
  lemma {:induction false} CollectFromOutcome(st: Collected, ds: seq<Decl>)
    ensures CollectFrom(st, ds).Ok? <==> AllMake(ds)
    ensures CollectFrom(st, ds).Err? ==> FirstFailure(ds, CollectFrom(st, ds).error)
    decreases |ds|
  {
    if ds != [] {
      match ProcessHolder(st, ds[0])
      case Err(e) =>
        assert NewHolder(ds[0].group, ds[0].value) == Err(e);
      case Ok(st') =>
        CollectFromOutcome(st', ds[1..]);
        var r := CollectFrom(st', ds[1..]);
        forall i | 1 <= i < |ds| ensures ds[i] == ds[1..][i - 1] { }
        if r.Err? {
          var i :| 0 <= i < |ds[1..]| && NewHolder(ds[1..][i].group, ds[1..][i].value) == Err(r.error)
                   && forall j :: 0 <= j < i ==> NewHolder(ds[1..][j].group, ds[1..][j].value).Ok?;
          assert NewHolder(ds[i + 1].group, ds[i + 1].value) == Err(r.error);
        }
    }
  }

  /** The declarations after the first all make holders too. */
  lemma AllMakeTail(ds: seq<Decl>)
    requires AllMake(ds) && ds != []
    ensures AllMake(ds[1..])
  {
    forall i | 0 <= i < |ds[1..]| ensures NewHolder(ds[1..][i].group, ds[1..][i].value).Ok? {
      assert ds[1..][i] == ds[i + 1];
    }
  }

  /** Pushing the first declaration's holder, then the rest in order, pushes them all in order. */
  lemma PushedCons(all: seq<Holder>, base: seq<Holder>, ds: seq<Decl>)
    requires AllMake(ds) && ds != []
    requires AllMake(ds[1..]) && Pushed(all, base + [NewHolder(ds[0].group, ds[0].value).value], ds[1..])
    ensures Pushed(all, base, ds)
  {
    var base' := base + [NewHolder(ds[0].group, ds[0].value).value];
    assert all[..|base|] == all[..|base'|][..|base|];
    assert all[|base|] == all[..|base'|][|base|];
    forall i | 1 <= i < |ds| ensures all[|base| + i] == NewHolder(ds[i].group, ds[i].value).value {
      assert ds[1..][i - 1] == ds[i];
      assert all[|base'| + (i - 1)] == NewHolder(ds[1..][i - 1].group, ds[1..][i - 1].value).value;
    }
  }

  /** On success each holder is pushed once, in visit order. */
  lemma {:induction false} CollectFromPushed(st: Collected, ds: seq<Decl>)
    requires AllMake(ds)
    ensures CollectFrom(st, ds).Ok?
    ensures Pushed(CollectFrom(st, ds).value.all, st.all, ds)
    decreases |ds|
  {
    if ds != [] {
      var h := NewHolder(ds[0].group, ds[0].value).value;
      var st' := PushHolder(st, h);
      assert ProcessHolder(st, ds[0]) == Ok(st');
      AllMakeTail(ds);
      CollectFromPushed(st', ds[1..]);
      PushedCons(CollectFrom(st', ds[1..]).value.all, st.all, ds);
    }
  }

  /** Collection keeps the index and the refed list exact. */
  lemma {:induction false} CollectFromExact(st: Collected, ds: seq<Decl>)
    requires IndexExact(st) && RefedExact(st)
    requires CollectFrom(st, ds).Ok?
    ensures IndexExact(CollectFrom(st, ds).value) && RefedExact(CollectFrom(st, ds).value)
    decreases |ds|
  {
    if ds != [] {
      var h := NewHolder(ds[0].group, ds[0].value).value;
      PushKeepsIndexExact(st, h);
      PushKeepsRefedExact(st, h);
      CollectFromExact(PushHolder(st, h), ds[1..]);
    }
  }

  /** The whole collection phase from empty: the holders are the declarations', in visit order. */
  lemma CollectAllSpec(decls: seq<Decl>)
    ensures CollectAll(decls).Ok? <==> AllMake(decls)
    ensures CollectAll(decls).Err? ==> FirstFailure(decls, CollectAll(decls).error)
    ensures CollectAll(decls).Ok? ==>
              Pushed(CollectAll(decls).value.all, [], decls) &&
              IndexExact(CollectAll(decls).value) && RefedExact(CollectAll(decls).value)
  {
    CollectFromOutcome(Collected([], map[], []), decls);
    if AllMake(decls) {
      CollectFromPushed(Collected([], map[], []), decls);
      CollectFromExact(Collected([], map[], []), decls);
    }
  }

  /**
   * The inner loop over one array of declarations, running the `process_runner_holder` closure
   * on each: the holder is built (or the error returned), indexed, and pushed.
   */
  method ProcessRunners(st: Collected, group: Option<string>, runners: seq<Value>) returns (r: Result<Collected, Error>)
    ensures r == CollectFrom(st, ItemDecls(group, runners))
  {
    var allRunners: seq<Holder> := st.all;
    var namedIdxByKey: map<string, nat> := st.namedIdx;
    var refedIdxs: seq<nat> := st.refedIdxs;
    var i := 0;
    while i < |runners|
      invariant 0 <= i <= |runners|
      invariant CollectFrom(st, ItemDecls(group, runners)) ==
                CollectFrom(Collected(allRunners, namedIdxByKey, refedIdxs), ItemDecls(group, runners[i..]))
    {
      assert ItemDecls(group, runners[i..])[0] == Decl(group, runners[i]);
      assert ItemDecls(group, runners[i..])[1..] == ItemDecls(group, runners[i + 1..]);
      var rh := NewHolder(group, runners[i]);
      if rh.Err? {
        return Err(rh.error);
      }
      var h := rh.value;
      var idx := |allRunners|;
      if IsRefed(h) {
        refedIdxs := refedIdxs + [idx];
      } else {
        namedIdxByKey := namedIdxByKey[Key(h) := idx];
      }
      allRunners := allRunners + [h];
      i := i + 1;
    }
    r := Ok(Collected(allRunners, namedIdxByKey, refedIdxs));
  }

  /**
   * The collection loops of `parse_awesome_toml`: each group of the `runners` table (in `order`)
   * and then the `runner` array.
   */
  method CollectHolders(root: map<string, Value>, order: seq<string>) returns (r: Result<Collected, Error>)
    requires IsGroupOrder(root, order)
    ensures r == CollectAll(Declarations(root, order))
  {
    ghost var decls := Declarations(root, order);
    var st := Collected([], map[], []);
    var solo := SoloDecls(root);
    if RunnersKey in root && root[RunnersKey].Table? {
      var groups := root[RunnersKey].entries;
      assert decls == GroupedDecls(groups, order[0..]) + solo;
      var gi := 0;
      while gi < |order|
        invariant 0 <= gi <= |order|
        invariant CollectAll(decls) == CollectFrom(st, GroupedDecls(groups, order[gi..]) + solo)
      {
        var next := CollectGroup(st, groups, order[gi..], solo);
        if next.Err? {
          return next;
        }
        st := next.value;
        gi := gi + 1;
      }
      assert GroupedDecls(groups, order[gi..]) + solo == solo;
    } else {
      assert decls == solo;
    }
    assert CollectAll(decls) == CollectFrom(st, solo);
    if RunnerKey in root && root[RunnerKey].Array? {
      r := ProcessRunners(st, None, root[RunnerKey].items);
    } else {
      r := Ok(st);
    }
  }

  /** The groups in `order`: the first group's declarations, then the rest. */
  lemma GroupedStep(st: Collected, groups: map<string, Value>, order: seq<string>, solo: seq<Decl>)
    requires order != []
    ensures CollectFrom(st, GroupedDecls(groups, order) + solo) ==
              match CollectFrom(st, GroupDecls(groups, order[0]))
              case Err(e) => Err(e)
              case Ok(st') => CollectFrom(st', GroupedDecls(groups, order[1..]) + solo)
    ensures !(order[0] in groups && groups[order[0]].Array?) ==> CollectFrom(st, GroupDecls(groups, order[0])) == Ok(st)
  {
    var first := GroupDecls(groups, order[0]);
    var rest := GroupedDecls(groups, order[1..]) + solo;
    assert GroupedDecls(groups, order) + solo == first + rest;
    CollectFromAppend(st, first, rest);
  }

  /** One pass of the loop over the groups: the array of the first group in `order`, if it is one. */
  method CollectGroup(st: Collected, groups: map<string, Value>, order: seq<string>, solo: seq<Decl>)
    returns (r: Result<Collected, Error>)
    requires order != []
    ensures r.Err? ==> r == CollectFrom(st, GroupedDecls(groups, order) + solo)
    ensures r.Ok? ==> CollectFrom(st, GroupedDecls(groups, order) + solo) == CollectFrom(r.value, GroupedDecls(groups, order[1..]) + solo)
  {
    var groupName := order[0];
    GroupedStep(st, groups, order, solo);
    if groupName in groups && groups[groupName].Array? {
      r := ProcessRunners(st, Some(groupName), groups[groupName].items);
    } else {
      r := Ok(st);
    }
  }
}
