/** Removing named blocks, except pinned ones, under the GCLock. */
module RemoveBlocks {
  import opened Cids

  datatype PinStatus = PinStatus(key: Cid, pinned: bool)

  /** The answer of the pinner to a pin check. */
  datatype PinCheck = Checked(statuses: seq<PinStatus>) | CheckFailed

  datatype RemovedBlock =
    | Removed(key: Cid)
    | StillPinned(key: Cid)
    | NotStored(key: Cid)
    | StoreError(key: Cid)
    | PinCheckError

  /**
   The pinner answers about at most as many CIDs as were asked, only about
   those, and calls pinned every CID whose multihash is protected.
   */
  ghost predicate Answers(check: PinCheck, cids: seq<Cid>, shielded: set<Hash>) {
    check.Checked? ==>
      && |check.statuses| <= |cids|
      && forall st :: st in check.statuses ==> st.key in cids && (st.key.hash in shielded ==> st.pinned)
  }

  function Unpinned(statuses: seq<PinStatus>): seq<Cid> {
    if statuses == [] then []
    else
      var init, last := statuses[..|statuses| - 1], statuses[|statuses| - 1];
      if last.pinned then Unpinned(init) else Unpinned(init) + [last.key]
  }

  /** The refusals for the pinned ones, in order. */
  function Refusals(statuses: seq<PinStatus>): seq<RemovedBlock> {
    if statuses == [] then []
    else
      var init, last := statuses[..|statuses| - 1], statuses[|statuses| - 1];
      if last.pinned then Refusals(init) + [StillPinned(last.key)] else Refusals(init)
  }

  lemma {:induction false} UnpinnedHolds(statuses: seq<PinStatus>)
    ensures |Unpinned(statuses)| + |Refusals(statuses)| == |statuses|
    ensures forall o :: o in Refusals(statuses) ==> o.StillPinned?
    ensures forall c :: c in Unpinned(statuses) <==> PinStatus(c, false) in statuses
    ensures forall c :: StillPinned(c) in Refusals(statuses) <==> PinStatus(c, true) in statuses
  {
    if statuses != [] {
      UnpinnedHolds(statuses[..|statuses| - 1]);
      assert statuses == statuses[..|statuses| - 1] + [statuses[|statuses| - 1]];
    }
  }

  /** The blocks a removal may take: answered as unpinned, and the store does not fail on them. */
  function Removable(check: PinCheck, failing: set<Hash>): set<Hash> {
    if check.CheckFailed? then {}
    else set st | st in check.statuses && !st.pinned && st.key.hash !in failing :: st.key.hash
  }

  /** The result sent about one unpinned block, if any. */
  function Result(c: Cid, stored: bool, hasFails: set<Hash>, deleteFails: set<Hash>, force: bool, quiet: bool)
    : seq<RemovedBlock>
  {
    if c.hash in hasFails then [StoreError(c)]
    else if !stored && !force then [NotStored(c)]
    else if c.hash in deleteFails then [StoreError(c)]
    else if quiet then []
    else [Removed(c)]
  }

  function HashesOf(cids: seq<Cid>, failing: set<Hash>): set<Hash> {
    set c | c in cids && c.hash !in failing :: c.hash
  }

  lemma HashesOfMore(done: seq<Cid>, c: Cid, failing: set<Hash>)
    ensures HashesOf(done + [c], failing) == HashesOf(done, failing) + HashesOf([c], failing)
  {
  }

  /** The refusals sent are just these. */
  ghost predicate OnlyRefuses(out: seq<RemovedBlock>, refusals: seq<RemovedBlock>) {
    forall c :: StillPinned(c) in out <==> StillPinned(c) in refusals
  }

  /**
   What is told about the CIDs tried: each block taken from `before` is reported, unless
   reports are off; each CID that the store fails on, or whose block is not stored though
   it should be, gets its error; and nothing else is told.
   */
  ghost predicate Told(
    done: seq<Cid>, out: seq<RemovedBlock>, present: set<Hash>, before: set<Hash>,
    hasFails: set<Hash>, deleteFails: set<Hash>, force: bool, quiet: bool)
  {
    && (forall c :: Removed(c) in out ==> c in done && c.hash !in present && !quiet)
    && (forall h :: h in before && h !in present && !quiet ==> exists c :: Removed(c) in out && c.hash == h)
    && (forall c :: StoreError(c) in out ==> c in done && c.hash in hasFails + deleteFails)
    && (forall c :: NotStored(c) in out ==> c in done && c.hash !in hasFails && c.hash !in present && !force)
    && (forall c :: c in done && c.hash in hasFails ==> StoreError(c) in out)
    && (forall c :: c in done && c.hash in deleteFails && (c.hash in before || force) ==> StoreError(c) in out)
    && (forall c :: c in done && c.hash !in hasFails && c.hash !in before && !force ==> NotStored(c) in out)
  }

  lemma ToldMore(
    done: seq<Cid>, c: Cid, out: seq<RemovedBlock>, present: set<Hash>, before: set<Hash>,
    hasFails: set<Hash>, deleteFails: set<Hash>, force: bool, quiet: bool)
    requires Told(done, out, present, before, hasFails, deleteFails, force, quiet)
    requires present == before - HashesOf(done, hasFails + deleteFails)
    ensures Told(done + [c], out + Result(c, c.hash in present, hasFails, deleteFails, force, quiet),
                 present - HashesOf([c], hasFails + deleteFails), before, hasFails, deleteFails, force, quiet)
  {
    var out' := out + Result(c, c.hash in present, hasFails, deleteFails, force, quiet);
    var present' := present - HashesOf([c], hasFails + deleteFails);
    forall h | h in before && h !in present' && !quiet ensures exists d :: Removed(d) in out' && d.hash == h {
      if h !in present {
        var d :| Removed(d) in out && d.hash == h;
        assert Removed(d) in out';
      } else {
        assert Removed(c) in out';
      }
    }
    if c.hash !in hasFails + deleteFails { assert c in [c]; }
  }

  class Remover {
    var present: set<Hash>
    var output: seq<RemovedBlock>

    constructor (present: set<Hash>)
      ensures this.present == present && output == []
    {
      this.present, output := present, [];
    }

    method FilterPinned(check: PinCheck) returns (stillOkay: seq<Cid>)
      modifies this`output
      ensures check.CheckFailed? ==> stillOkay == [] && output == old(output) + [PinCheckError]
      ensures check.Checked? ==>
                stillOkay == Unpinned(check.statuses) && output == old(output) + Refusals(check.statuses)
    {
      stillOkay := [];
      if check.CheckFailed? {
        output := output + [PinCheckError];
        return;
      }
      var statuses := check.statuses;
      for i := 0 to |statuses|
        invariant stillOkay == Unpinned(statuses[..i])
        invariant output == old(output) + Refusals(statuses[..i])
      {
        assert statuses[..i + 1][..i] == statuses[..i];
        if !statuses[i].pinned {
          stillOkay := stillOkay + [statuses[i].key];
        } else {
          output := output + [StillPinned(statuses[i].key)];
        }
      }
      assert statuses[..|statuses|] == statuses;
    }

    /** Removes one block that is not pinned, with at most one result. */
    method RemoveOne(c: Cid, hasFails: set<Hash>, deleteFails: set<Hash>, force: bool, quiet: bool)
      modifies this
      ensures present == old(present) - HashesOf([c], hasFails + deleteFails)
      ensures output == old(output) + Result(c, c.hash in old(present), hasFails, deleteFails, force, quiet)
    {
      if c.hash in hasFails {
        output := output + [StoreError(c)];
      } else if c.hash !in present && !force {
        output := output + [NotStored(c)];
      } else if c.hash in deleteFails {
        output := output + [StoreError(c)];
      } else {
        present := present - {c.hash};
        if !quiet {
          output := output + [Removed(c)];
        }
      }
    }

    /** One turn of the loop over the unpinned CIDs; `done` are those tried before. */
    method TryNext(c: Cid, hasFails: set<Hash>, deleteFails: set<Hash>, force: bool, quiet: bool,
                   ghost done: seq<Cid>, ghost before: set<Hash>, ghost refusals: seq<RemovedBlock>)
      requires present == before - HashesOf(done, hasFails + deleteFails)
      requires Told(done, output, present, before, hasFails, deleteFails, force, quiet)
      requires |output| <= |refusals| + |done| && OnlyRefuses(output, refusals)
      modifies this
      ensures present == before - HashesOf(done + [c], hasFails + deleteFails)
      ensures Told(done + [c], output, present, before, hasFails, deleteFails, force, quiet)
      ensures |old(output)| <= |output| <= |refusals| + |done| + 1 && OnlyRefuses(output, refusals)
    {
      HashesOfMore(done, c, hasFails + deleteFails);
      ToldMore(done, c, output, present, before, hasFails, deleteFails, force, quiet);
      RemoveOne(c, hasFails, deleteFails, force, quiet);
    }

    /** The loop over the unpinned CIDs, with only refusals sent before it. */
    method TryAll(cids: seq<Cid>, hasFails: set<Hash>, deleteFails: set<Hash>, force: bool, quiet: bool)
      requires forall o :: o in output ==> o.StillPinned? || o.PinCheckError?
      modifies this
      ensures present == old(present) - HashesOf(cids, hasFails + deleteFails)
      ensures |old(output)| <= |output| <= |old(output)| + |cids| && OnlyRefuses(output, old(output))
      ensures cids == [] ==> output == old(output)
      ensures Told(cids, output, present, old(present), hasFails, deleteFails, force, quiet)
    {
      for i := 0 to |cids|
        invariant present == old(present) - HashesOf(cids[..i], hasFails + deleteFails)
        invariant |old(output)| <= |output| <= |old(output)| + i && OnlyRefuses(output, old(output))
        invariant i == 0 ==> output == old(output)
        invariant Told(cids[..i], output, present, old(present), hasFails, deleteFails, force, quiet)
      {
        assert cids[..i + 1] == cids[..i] + [cids[i]];
        TryNext(cids[i], hasFails, deleteFails, force, quiet, cids[..i], old(present), old(output));
      }
      assert cids[..|cids|] == cids;
    }

    /**
     Removes exactly the removable blocks; a protected block always stays, and a
     failed pin check removes nothing. At most one result is sent per CID asked
     for, so sending never blocks while the lock is held, except when the check of
     an empty list fails: the channel then has no room for its one result.
     */
    method RmBlocks(cids: seq<Cid>, check: PinCheck, hasFails: set<Hash>, deleteFails: set<Hash>,
                    force: bool, quiet: bool, ghost shielded: set<Hash>)
      requires output == [] && Answers(check, cids, shielded)
      modifies this
      ensures present == old(present) - Removable(check, hasFails + deleteFails)
      ensures old(present) * shielded <= present
      ensures |output| <= |cids| <==> !(check.CheckFailed? && cids == [])
      ensures check.CheckFailed? ==> output == [PinCheckError]
      ensures check.Checked? ==>
                && (forall c :: StillPinned(c) in output <==> PinStatus(c, true) in check.statuses)
                && Told(Unpinned(check.statuses), output, present, old(present), hasFails, deleteFails, force, quiet)
    {
      var stillOkay := FilterPinned(check);
      if check.Checked? { UnpinnedHolds(check.statuses); }
      ghost var failing := hasFails + deleteFails;
      TryAll(stillOkay, hasFails, deleteFails, force, quiet);
      RemovableFromList(check, stillOkay, failing);
    }
  }

  lemma RemovableFromList(check: PinCheck, stillOkay: seq<Cid>, failing: set<Hash>)
    requires stillOkay == if check.Checked? then Unpinned(check.statuses) else []
    ensures HashesOf(stillOkay, failing) == Removable(check, failing)
  {
    if check.Checked? {
      UnpinnedHolds(check.statuses);
      forall st | st in check.statuses && !st.pinned ensures st.key in stillOkay {
        assert st == PinStatus(st.key, false);
      }
      forall c | c in stillOkay ensures exists st :: st in check.statuses && !st.pinned && st.key == c {
        assert PinStatus(c, false) in check.statuses;
      }
    }
  }

  /** The one result about a failed check of an empty list finds no room in the channel. */
  method FailedCheckOfNothingExample() returns (capacity: nat, sent: nat)
    ensures capacity == 0 && sent == 1
  {
    var remover := new Remover({});
    var cids: seq<Cid> := [];
    remover.RmBlocks(cids, CheckFailed, {}, {}, false, false, {});
    capacity, sent := |cids|, |remover.output|;
  }
}
