/**
 * The resolution phase of `parse_awesome_toml`: each Refed slot, in the order of `refed_idxs`,
 * is replaced in place by the merge of the Named holder its `ref` names with its own table.
 */
module Resolving {
  import opened Wrappers
  import opened Toml
  import opened Errors
  import opened Holders
  import opened Merging
  import opened Collecting

  /** One pass of the resolution loop for `refed_idx` `i`, against the current holders. */
  function ResolveOne(hs: seq<Holder>, namedIdx: map<string, nat>, i: nat): Result<seq<Holder>, Error>
  {
    if i < |hs| && hs[i].kind.Refed? && hs[i].kind.target in namedIdx && namedIdx[hs[i].kind.target] < |hs| then
      var base := hs[namedIdx[hs[i].kind.target]];
      if IsRefed(base) then Err(DoNotSupportRefToRefYet(Key(hs[i])))
      else match NewHolder(hs[i].group, Merge(base.value, hs[i].value))
        case Err(e) => Err(e)
        case Ok(nh) => Ok(hs[i := nh])
    else Ok(hs)
  }

  /** The resolution loop over `refed`, in order, stopping at the first error. */
  function ResolveFrom(hs: seq<Holder>, namedIdx: map<string, nat>, refed: seq<nat>): Result<seq<Holder>, Error>
    decreases |refed|
  {
    if refed == [] then Ok(hs)
    else match ResolveOne(hs, namedIdx, refed[0])
      case Err(e) => Err(e)
      case Ok(hs') => ResolveFrom(hs', namedIdx, refed[1..])
  }

  /**
   * Slot `i` as resolution leaves it, computed from the collected holders alone: a Refed holder
   * whose target is indexed becomes the holder of the merged table, in its own group; every
   * other holder stays as it is.
   */
  function Resolved(c: Collected, i: nat): Result<Holder, Error>
    requires i < |c.all|
  {
    var h := c.all[i];
    if h.kind.Refed? && h.kind.target in c.namedIdx && c.namedIdx[h.kind.target] < |c.all| then
      NewHolder(h.group, Merge(c.all[c.namedIdx[h.kind.target]].value, h.value))
    else Ok(h)
  }

  /** After the first `k` refed slots: those hold their resolved holder, every other slot its original. */
  ghost predicate ResolvedUpTo(c: Collected, hs: seq<Holder>, k: nat)
    requires k <= |c.refedIdxs| && RefedExact(c)
  {
    && |hs| == |c.all|
    && (forall j :: 0 <= j < k ==> Resolved(c, c.refedIdxs[j]).Ok?)
    && (forall i :: 0 <= i < |c.all| ==> hs[i] == if i in c.refedIdxs[..k] then Resolved(c, i).value else c.all[i])
  }

  /** The `k`-th refed slot and its target still hold their collected holders before step `k`. */
  lemma ResolveOneAgrees(c: Collected, hs: seq<Holder>, k: nat)
    requires IndexExact(c) && RefedExact(c)
    requires k < |c.refedIdxs| && ResolvedUpTo(c, hs, k)
    ensures ResolveOne(hs, c.namedIdx, c.refedIdxs[k]) ==
              match Resolved(c, c.refedIdxs[k])
              case Err(e) => Err(e)
              case Ok(nh) => Ok(hs[c.refedIdxs[k] := nh])
  {
    var refed := c.refedIdxs;
    var i := refed[k];
    assert i !in refed[..k] by {
      forall j | 0 <= j < k ensures refed[j] != i { }
    }
    assert hs[i] == c.all[i];
    var h := c.all[i];
    if h.kind.target in c.namedIdx {
      var b := c.namedIdx[h.kind.target];
      assert c.all[b].kind.Named?;
      assert b !in refed[..k] by {
        forall j | 0 <= j < k ensures refed[j] != b { assert c.all[refed[j]].kind.Refed?; }
      }
      assert hs[b] == c.all[b];
    } else {
      assert hs[i := h] == hs;
    }
  }

  /** Writing the `k`-th refed slot's resolved holder extends the resolved prefix by one. */
  lemma ResolvedUpToStep(c: Collected, hs: seq<Holder>, k: nat)
    requires RefedExact(c)
    requires k < |c.refedIdxs| && ResolvedUpTo(c, hs, k)
    requires Resolved(c, c.refedIdxs[k]).Ok?
    ensures ResolvedUpTo(c, hs[c.refedIdxs[k] := Resolved(c, c.refedIdxs[k]).value], k + 1)
  {
    var refed := c.refedIdxs;
    var i := refed[k];
    var hs' := hs[i := Resolved(c, i).value];
    assert refed[..k + 1] == refed[..k] + [i];
    forall x | 0 <= x < |c.all|
      ensures hs'[x] == if x in refed[..k + 1] then Resolved(c, x).value else c.all[x]
    {
      if x != i {
        assert x in refed[..k + 1] <==> x in refed[..k];
      }
    }
  }

  /** The rest of the loop from `k` on, against the per-slot definition. */
  lemma {:induction false} ResolveFromSuffix(c: Collected, hs: seq<Holder>, k: nat)
    requires IndexExact(c) && RefedExact(c)
    requires k <= |c.refedIdxs| && ResolvedUpTo(c, hs, k)
    ensures var r := ResolveFrom(hs, c.namedIdx, c.refedIdxs[k..]);
            && (r.Ok? <==> forall j :: k <= j < |c.refedIdxs| ==> Resolved(c, c.refedIdxs[j]).Ok?)
            && (r.Ok? ==> ResolvedUpTo(c, r.value, |c.refedIdxs|))
            && (r.Err? ==> exists j :: k <= j < |c.refedIdxs| && Resolved(c, c.refedIdxs[j]) == Err(r.error)
                                      && forall j' :: k <= j' < j ==> Resolved(c, c.refedIdxs[j']).Ok?)
    decreases |c.refedIdxs| - k
  {
    var refed := c.refedIdxs;
    if k < |refed| {
      assert refed[k..][0] == refed[k] && refed[k..][1..] == refed[k + 1..];
      ResolveOneAgrees(c, hs, k);
      if Resolved(c, refed[k]).Ok? {
        ResolvedUpToStep(c, hs, k);
        ResolveFromSuffix(c, hs[refed[k] := Resolved(c, refed[k]).value], k + 1);
      }
    }
  }

  /** The whole loop, in terms of positions in `refed_idxs`. */
  lemma ResolveFromStart(c: Collected)
    requires IndexExact(c) && RefedExact(c)
    ensures var r := ResolveFrom(c.all, c.namedIdx, c.refedIdxs);
            && (r.Ok? <==> forall j :: 0 <= j < |c.refedIdxs| ==> Resolved(c, c.refedIdxs[j]).Ok?)
            && (r.Ok? ==> ResolvedUpTo(c, r.value, |c.refedIdxs|))
            && (r.Err? ==> exists j :: 0 <= j < |c.refedIdxs| && Resolved(c, c.refedIdxs[j]) == Err(r.error)
                                      && forall j' :: 0 <= j' < j ==> Resolved(c, c.refedIdxs[j']).Ok?)
  {
    assert c.refedIdxs[..0] == [];
    assert ResolvedUpTo(c, c.all, 0);
    assert c.refedIdxs[0..] == c.refedIdxs;
    ResolveFromSuffix(c, c.all, 0);
  }

  /** Slots outside `refed_idxs` hold Named holders, which resolve to themselves. */
  lemma UnrefedResolveToSelf(c: Collected, i: nat)
    requires RefedExact(c)
    requires i < |c.all| && i !in c.refedIdxs
    ensures Resolved(c, i) == Ok(c.all[i])
  {
    assert !c.all[i].kind.Refed?;
  }

  /** Success of the loop, slot by slot. */
  lemma ResolveSpecOk(c: Collected)
    requires IndexExact(c) && RefedExact(c)
    ensures var r := ResolveFrom(c.all, c.namedIdx, c.refedIdxs);
            && (r.Ok? <==> forall i :: 0 <= i < |c.all| ==> Resolved(c, i).Ok?)
            && (r.Ok? ==> |r.value| == |c.all| && forall i :: 0 <= i < |c.all| ==> r.value[i] == Resolved(c, i).value)
  {
    var refed := c.refedIdxs;
    ResolveFromStart(c);
    var r := ResolveFrom(c.all, c.namedIdx, refed);
    assert refed[..|refed|] == refed;
    if r.Ok? {
      forall i | 0 <= i < |c.all| ensures Resolved(c, i).Ok? && r.value[i] == Resolved(c, i).value {
        if i in refed {
          var j :| 0 <= j < |refed| && refed[j] == i;
        } else {
          UnrefedResolveToSelf(c, i);
        }
      }
    }
  }

  /** Slots before the `j`-th refed slot resolve once the refed slots before it do. */
  lemma SlotsBeforeResolve(c: Collected, j: nat)
    requires RefedExact(c)
    requires j < |c.refedIdxs|
    requires forall j' :: 0 <= j' < j ==> Resolved(c, c.refedIdxs[j']).Ok?
    ensures forall x :: 0 <= x < c.refedIdxs[j] ==> Resolved(c, x).Ok?
  {
    var refed := c.refedIdxs;
    forall x | 0 <= x < refed[j] ensures Resolved(c, x).Ok? {
      if x in refed {
        var j' :| 0 <= j' < |refed| && refed[j'] == x;
        assert j' < j;
      } else {
        UnrefedResolveToSelf(c, x);
      }
    }
  }

  /** Failure of the loop: the first slot that does not resolve. */
  lemma ResolveSpecErr(c: Collected)
    requires IndexExact(c) && RefedExact(c)
    ensures var r := ResolveFrom(c.all, c.namedIdx, c.refedIdxs);
            r.Err? ==> exists i :: 0 <= i < |c.all| && Resolved(c, i) == Err(r.error)
                                  && forall x :: 0 <= x < i ==> Resolved(c, x).Ok?
  {
    ResolveFromStart(c);
    var r := ResolveFrom(c.all, c.namedIdx, c.refedIdxs);
    if r.Err? {
      var j :| 0 <= j < |c.refedIdxs| && Resolved(c, c.refedIdxs[j]) == Err(r.error)
               && forall j' :: 0 <= j' < j ==> Resolved(c, c.refedIdxs[j']).Ok?;
      SlotsBeforeResolve(c, j);
      var i := c.refedIdxs[j];
      assert 0 <= i < |c.all| && Resolved(c, i) == Err(r.error);
    }
  }

  /**
   * The resolution phase against the per-slot definition: it succeeds exactly when every slot
   * resolves, and then slot `i` holds `Resolved(c, i)`; otherwise it fails at the first slot that
   * does not, always with `RunnerHasNoNameOrRef` (so never with `DoNotSupportRefToRefYet`).
   */
  lemma ResolveSpec(c: Collected)
    requires IndexExact(c) && RefedExact(c)
    ensures var r := ResolveFrom(c.all, c.namedIdx, c.refedIdxs);
            && (r.Ok? <==> forall i :: 0 <= i < |c.all| ==> Resolved(c, i).Ok?)
            && (r.Ok? ==> |r.value| == |c.all| && forall i :: 0 <= i < |c.all| ==> r.value[i] == Resolved(c, i).value)
            && (r.Err? ==> exists i :: 0 <= i < |c.all| && Resolved(c, i) == Err(r.error)
                                     && forall j :: 0 <= j < i ==> Resolved(c, j).Ok?)
            && (r.Err? ==> r.error.RunnerHasNoNameOrRef?)
  {
    ResolveSpecOk(c);
    ResolveSpecErr(c);
  }

  /** A resolved slot keeps its group; a Named slot is left as it is; a ref to an unindexed key stays Refed. */
  lemma ResolvedSlot(c: Collected, i: nat)
    requires i < |c.all|
    ensures Resolved(c, i).Ok? ==> Resolved(c, i).value.group == c.all[i].group
    ensures c.all[i].kind.Named? ==> Resolved(c, i) == Ok(c.all[i])
    ensures c.all[i].kind.Refed? && c.all[i].kind.target !in c.namedIdx ==> Resolved(c, i) == Ok(c.all[i])
    ensures c.all[i].kind.Refed? && c.all[i].kind.target in c.namedIdx && c.namedIdx[c.all[i].kind.target] < |c.all| && Resolved(c, i).Ok? ==>
              Resolved(c, i).value.value == Merge(c.all[c.namedIdx[c.all[i].kind.target]].value, c.all[i].value)
  {
  }

  /**
   * The resolution loop of `parse_awesome_toml`: for each refed index, look the target key up,
   * refuse a Refed base, merge the two tables, rebuild the holder in the referencing holder's
   * group and swap it into the slot (`mem::replace`).
   */
  method ResolveRefs(c: Collected) returns (r: Result<seq<Holder>, Error>)
    ensures r == ResolveFrom(c.all, c.namedIdx, c.refedIdxs)
  {
    var allRunners := c.all;
    var k := 0;
    while k < |c.refedIdxs|
      invariant 0 <= k <= |c.refedIdxs|
      invariant ResolveFrom(c.all, c.namedIdx, c.refedIdxs) == ResolveFrom(allRunners, c.namedIdx, c.refedIdxs[k..])
    {
      var refedIdx := c.refedIdxs[k];
      assert c.refedIdxs[k..][0] == refedIdx && c.refedIdxs[k..][1..] == c.refedIdxs[k + 1..];
      var newHolderForIdx: Option<(Holder, nat)> := None;
      if refedIdx < |allRunners| {
        var refedRunner := allRunners[refedIdx];
        if refedRunner.kind.Refed? {
          var ref := refedRunner.kind.target;
          if ref in c.namedIdx && c.namedIdx[ref] < |allRunners| {
            var runnerBase := allRunners[c.namedIdx[ref]];
            if IsRefed(runnerBase) {
              return Err(DoNotSupportRefToRefYet(Key(refedRunner)));
            }
            var newValue := MergeRunnerValues(runnerBase.value, refedRunner.value);
            var newRunner := NewHolder(refedRunner.group, newValue);
            if newRunner.Err? {
              return Err(newRunner.error);
            }
            newHolderForIdx := Some((newRunner.value, refedIdx));
          }
        }
      }
      if newHolderForIdx.Some? {
        allRunners := allRunners[newHolderForIdx.value.1 := newHolderForIdx.value.0];
      }
      k := k + 1;
    }
    r := Ok(allRunners);
  }
}
