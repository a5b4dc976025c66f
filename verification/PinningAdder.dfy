/** Storing nodes and then pinning each of them, under the PinLock. */
module PinningAdder {
  import opened Cids
  import opened Sequences

  /** The blocks of the first `n` nodes. */
  function BlocksOf(nodes: seq<Cid>, n: nat): set<Hash>
    requires n <= |nodes|
  {
    set i | 0 <= i < n :: nodes[i].hash
  }

  /** The first `n` nodes. */
  function NodesOf(nodes: seq<Cid>, n: nat): set<Cid>
    requires n <= |nodes|
  {
    set i | 0 <= i < n :: nodes[i]
  }

  class PinningAdder {
    var present: set<Hash>
    var recursive: set<Cid>

    constructor ()
      ensures present == {} && recursive == {}
    {
      present, recursive := {}, {};
    }

    /**
     Asks for one recursive pin per distinct node, in order, until the request for
     a CID in `failing` is refused. `asked` are the requests made; `pinned` nodes of
     the list are then pinned.
     */
    method PinAll(nodes: seq<Cid>, failing: set<Cid>) returns (ok: bool, asked: seq<Cid>, ghost pinned: nat)
      modifies this`recursive
      ensures asked <= FirstOccurrences(nodes)
      ensures ok <==> forall c :: c in nodes ==> c !in failing
      ensures ok ==> asked == FirstOccurrences(nodes) && pinned == |nodes|
      ensures pinned <= |nodes| && recursive == old(recursive) + NodesOf(nodes, pinned)
      ensures NodesOf(nodes, pinned) == set c | c in asked && c !in failing
    {
      asked := [];
      var cids: set<Cid> := {};
      for i := 0 to |nodes|
        invariant asked == FirstOccurrences(nodes[..i])
        invariant cids == NodesOf(nodes, i)
        invariant forall c :: c in cids <==> c in asked
        invariant recursive == old(recursive) + cids
        invariant cids !! failing
      {
        var c := nodes[i];
        FirstOccurrencesStep(nodes, i);
        assert NodesOf(nodes, i + 1) == NodesOf(nodes, i) + {c};
        pinned := i;
        if c !in cids {
          cids := cids + {c};
          asked := asked + [c];
          if c in failing {
            FirstOccurrencesPrefix(nodes, i + 1);
            assert c in nodes;
            return false, asked, i;
          }
          recursive := recursive + {c};
        }
      }
      assert nodes[..|nodes|] == nodes;
      pinned := |nodes|;
      ok := true;
    }

    /**
     Stores all nodes, or only the first `stored` of them before an error, and
     then pins them. No pin is asked for before every block is stored.
     */
    method AddMany(nodes: seq<Cid>, stored: nat, failing: set<Cid>, flushes: bool)
      returns (ok: bool, asked: seq<Cid>, ghost pinned: nat)
      requires stored <= |nodes|
      modifies this
      ensures present == old(present) + BlocksOf(nodes, stored)
      ensures asked != [] ==> stored == |nodes|
      ensures asked <= FirstOccurrences(nodes)
      ensures ok <==> stored == |nodes| && flushes && forall c :: c in nodes ==> c !in failing
      ensures ok ==> asked == FirstOccurrences(nodes) && pinned == |nodes|
      ensures pinned <= |nodes| && recursive == old(recursive) + NodesOf(nodes, pinned)
      ensures NodesOf(nodes, pinned) == set c | c in asked && c !in failing
    {
      ok, asked, pinned := false, [], 0;
      present := present + set i | 0 <= i < stored :: nodes[i].hash;
      if stored < |nodes| {
        return;
      }
      ok, asked, pinned := PinAll(nodes, failing);
      ok := ok && flushes;
    }
  }
}
