/**
 The registry of forwarded streams: an id per stream, a count of streams per
 peer, and a connection tag on every peer that has one. Two copier goroutines
 per stream, and anyone at any time, may deregister it.
 */
module StreamRegistry {

  type Peer = nat
  type Id = nat

  /** `streams` gives each registered stream's peer. */
  datatype Registry = Registry(streams: map<Id, Peer>, conns: map<Peer, nat>, tagged: set<Peer>, nextId: Id)

  const UINT64: nat := 0x1_0000_0000_0000_0000

  const EMPTY := Registry(map[], map[], {}, 0)

  function Conns(r: Registry, p: Peer): nat {
    if p in r.conns then r.conns[p] else 0
  }

  /** Ids are 64-bit numbers, and the next one wraps around. */
  function Registered(r: Registry, p: Peer): Registry {
    Registry(r.streams[r.nextId := p], r.conns[p := Conns(r, p) + 1], r.tagged + {p}, (r.nextId + 1) % UINT64)
  }

  function Deregistered(r: Registry, id: Id): Registry {
    if id !in r.streams then r
    else
      var p := r.streams[id];
      var n := Conns(r, p) - 1;
      if n < 1 then r.(streams := r.streams - {id}, conns := r.conns - {p}, tagged := r.tagged - {p})
      else r.(streams := r.streams - {id}, conns := r.conns[p := n])
  }

  ghost function StreamsOf(r: Registry, p: Peer): set<Id> {
    set id | id in r.streams && r.streams[id] == p
  }

  /**
   The count of a peer is the number of its streams and `extra`; it has one, and a tag,
   exactly while the count is positive.
   */
  ghost predicate Counts(r: Registry, p: Peer, extra: nat) {
    && Conns(r, p) == |StreamsOf(r, p)| + extra
    && (p in r.conns <==> Conns(r, p) > 0)
    && (p in r.tagged <==> Conns(r, p) > 0)
  }

  ghost predicate Consistent(r: Registry) {
    forall p: Peer :: Counts(r, p, 0)
  }

  /** The next id is still that of a stream of `p`, which registering forgets. */
  predicate Overwrites(r: Registry, p: Peer) {
    r.nextId in r.streams && r.streams[r.nextId] == p
  }

  lemma StreamsAfterRegister(r: Registry, p: Peer, q: Peer)
    ensures StreamsOf(Registered(r, p), q)
         == if q == p then StreamsOf(r, q) + {r.nextId} else StreamsOf(r, q) - {r.nextId}
  {
  }

  /** Registering a stream of `p` leaves one count too many for the peer of a stream it overwrites. */
  lemma RegisterCounts(r: Registry, p: Peer, q: Peer, extra: nat)
    requires Counts(r, q, extra)
    ensures Counts(Registered(r, p), q, extra + if Overwrites(r, q) then 1 else 0)
  {
    StreamsAfterRegister(r, p, q);
    var before := StreamsOf(r, q);
    assert Overwrites(r, q) <==> r.nextId in before;
    if q == p && r.nextId in before {
      assert before + {r.nextId} == before;
    } else if q != p && r.nextId !in before {
      assert before - {r.nextId} == before;
    }
  }

  /** Registering keeps the registry consistent exactly when the next id is free. */
  lemma RegisterKeeps(r: Registry, p: Peer)
    requires Consistent(r)
    ensures Consistent(Registered(r, p)) <==> r.nextId !in r.streams
  {
    if r.nextId in r.streams {
      var q := r.streams[r.nextId];
      assert Counts(r, q, 0) && Overwrites(r, q);
      RegisterCounts(r, p, q, 0);
      assert !Counts(Registered(r, p), q, 0);
    } else {
      forall q: Peer ensures Counts(Registered(r, p), q, 0) {
        assert Counts(r, q, 0);
        RegisterCounts(r, p, q, 0);
      }
    }
  }

  /** Deregistering any id keeps every count as right or wrong as it was. */
  lemma DeregisterKeeps(r: Registry, id: Id, q: Peer, extra: nat)
    requires Counts(r, q, extra)
    ensures Counts(Deregistered(r, id), q, extra)
  {
    var r' := Deregistered(r, id);
    if id in StreamsOf(r, q) {
      assert StreamsOf(r', q) == StreamsOf(r, q) - {id};
    } else {
      assert StreamsOf(r', q) == StreamsOf(r, q);
    }
  }

  lemma EmptyIsConsistent()
    ensures Consistent(EMPTY)
  {
    forall p: Peer ensures Counts(EMPTY, p, 0) {
      assert StreamsOf(EMPTY, p) == {};
    }
  }

  /* ----- Interleavings ----- */

  datatype Copier = ToLocal | ToRemote

  const BOTH := {ToLocal, ToRemote}

  /**
   The registry, together with the streams ever registered, by their number: the
   copiers still running for each, and which of them had an id last.
   */
  datatype State = State(reg: Registry, running: seq<set<Copier>>, owner: map<Id, nat>)

  const INITIAL := State(EMPTY, [], map[])

  /** Streams get their ids by their numbers, around and around. */
  function IdOf(n: nat): Id {
    n % UINT64
  }

  /** Stream number `n` is in the registry. */
  predicate Live(s: State, n: nat) {
    IdOf(n) in s.reg.streams && IdOf(n) in s.owner && s.owner[IdOf(n)] == n
  }

  datatype Action = Register(p: Peer) | CopierEnds(n: nat, copier: Copier) | ResetByHand(n: nat)

  /** One atomic step. A stream is deregistered by its id, whoever has that id now. */
  ghost predicate Step(s: State, a: Action, s': State) {
    match a
    case Register(p) =>
      s' == State(Registered(s.reg, p), s.running + [BOTH], s.owner[s.reg.nextId := |s.running|])
    case CopierEnds(n, copier) =>
      && n < |s.running| && copier in s.running[n]
      && s' == s.(reg := Deregistered(s.reg, IdOf(n)), running := s.running[n := s.running[n] - {copier}])
    case ResetByHand(n) =>
      n < |s.running| && s' == s.(reg := Deregistered(s.reg, IdOf(n)))
  }

  /** A registered stream has both copiers, and is the last of those that were given its id. */
  ghost predicate OwnerOk(s: State, id: Id) {
    && id in s.owner && s.owner[id] < |s.running| && IdOf(s.owner[id]) == id
    && |s.running| <= s.owner[id] + UINT64
    && s.running[s.owner[id]] == BOTH
  }

  ghost predicate Inv(s: State) {
    && s.reg.nextId == IdOf(|s.running|)
    && forall id :: id in s.reg.streams ==> OwnerOk(s, id)
  }

  /** Only every 2^64-th stream gets the same id. */
  lemma IdsComeRound(n: nat, m: nat)
    requires IdOf(n) == IdOf(m) && n < m
    ensures n + UINT64 <= m
  {
    var a, b := n / UINT64, m / UINT64;
    assert m - n == (b - a) * UINT64;
  }

  lemma NotYetRound(n: nat, m: nat)
    requires n < m <= n + UINT64 && IdOf(n) != IdOf(m)
    ensures m + 1 <= n + UINT64
  {
    assert IdOf(n + UINT64) == IdOf(n);
  }

  lemma NextIdIsNumbered(n: nat)
    ensures (IdOf(n) + 1) % UINT64 == IdOf(n + 1)
  {
  }

  lemma RegisterKeepsOwner(s: State, p: Peer, s': State, id: Id)
    requires Inv(s) && Step(s, Register(p), s') && id in s'.reg.streams
    ensures OwnerOk(s', id)
  {
    if id != s.reg.nextId {
      assert OwnerOk(s, id);
      NotYetRound(s.owner[id], |s.running|);
    }
  }

  lemma DeregisterKeepsOwner(s: State, a: Action, s': State, id: Id)
    requires Inv(s) && Step(s, a, s') && !a.Register? && id in s'.reg.streams
    ensures OwnerOk(s', id)
  {
    assert OwnerOk(s, id);
  }

  lemma StepKeepsInv(s: State, a: Action, s': State)
    requires Inv(s) && Step(s, a, s')
    ensures Inv(s')
  {
    NextIdIsNumbered(|s.running|);
    forall id | id in s'.reg.streams ensures OwnerOk(s', id) {
      match a {
        case Register(p) => RegisterKeepsOwner(s, p, s', id);
        case _ => DeregisterKeepsOwner(s, a, s', id);
      }
    }
  }

  ghost predicate IsRun(run: seq<State>, steps: seq<Action>) {
    && |run| == |steps| + 1
    && run[0] == INITIAL
    && forall i :: 0 <= i < |steps| ==> Step(run[i], steps[i], run[i + 1])
  }

  lemma {:induction false} RunInv(run: seq<State>, steps: seq<Action>, i: nat)
    requires IsRun(run, steps) && i < |run|
    ensures Inv(run[i])
  {
    if i > 0 {
      RunInv(run, steps, i - 1);
      StepKeepsInv(run[i - 1], steps[i - 1], run[i]);
    }
  }

  /** How many registered streams of `p` the first `i` steps have overwritten. */
  ghost function Overwritten(run: seq<State>, steps: seq<Action>, i: nat, p: Peer): nat
    requires i <= |steps| && i < |run|
  {
    if i == 0 then 0
    else
      Overwritten(run, steps, i - 1, p)
      + if steps[i - 1].Register? && Overwrites(run[i - 1].reg, p) then 1 else 0
  }

  /**
   In every run, at every moment: a peer's count is the number of its registered
   streams and of those that were overwritten, and the peer is tagged exactly while
   that is positive. Nothing that happens later mends a count.
   */
  lemma {:induction false} CountsAndTags(run: seq<State>, steps: seq<Action>, i: nat, p: Peer)
    requires IsRun(run, steps) && i < |run|
    ensures Counts(run[i].reg, p, Overwritten(run, steps, i, p))
  {
    if i == 0 {
      EmptyIsConsistent();
    } else {
      CountsAndTags(run, steps, i - 1, p);
      assert Step(run[i - 1], steps[i - 1], run[i]);
      var extra := Overwritten(run, steps, i - 1, p);
      match steps[i - 1] {
        case Register(q) => RegisterCounts(run[i - 1].reg, q, p, extra);
        case CopierEnds(n, _) => DeregisterKeeps(run[i - 1].reg, IdOf(n), p, extra);
        case ResetByHand(n) => DeregisterKeeps(run[i - 1].reg, IdOf(n), p, extra);
      }
    }
  }

  /** Nothing is overwritten before 2^64 streams were registered. */
  lemma {:induction false} NothingOverwritten(run: seq<State>, steps: seq<Action>, i: nat, p: Peer)
    requires IsRun(run, steps) && i < |run| && |run[i].running| <= 0x1_0000_0000_0000_0000
    ensures Overwritten(run, steps, i, p) == 0
  {
    if i > 0 {
      assert Step(run[i - 1], steps[i - 1], run[i]);
      NothingOverwritten(run, steps, i - 1, p);
      RunInv(run, steps, i - 1);
      var s := run[i - 1];
      if steps[i - 1].Register? && s.reg.nextId in s.reg.streams {
        assert OwnerOk(s, s.reg.nextId);
        IdsComeRound(s.owner[s.reg.nextId], |s.running|);
        assert false;
      }
    }
  }

  /** Registered streams keep their number; one that is not registered never is again. */
  lemma {:induction false} GoneForGood(run: seq<State>, steps: seq<Action>, i: nat, j: nat, n: nat)
    requires IsRun(run, steps) && i <= j < |run| && n < |run[i].running|
    ensures n < |run[j].running|
    ensures Live(run[j], n) ==> Live(run[i], n) && run[j].reg.streams[IdOf(n)] == run[i].reg.streams[IdOf(n)]
  {
    if i < j {
      GoneForGood(run, steps, i, j - 1, n);
      assert Step(run[j - 1], steps[j - 1], run[j]);
      RunInv(run, steps, j - 1);
    }
  }

  /**
   An id keeps its stream or is gone for good, until 2^64 streams later it is given
   to another.
   */
  lemma IdsAreNotReused(run: seq<State>, steps: seq<Action>, i: nat, j: nat, n: nat)
    requires IsRun(run, steps) && i <= j < |run| && n < |run[i].running|
    requires |run[j].running| <= n + 0x1_0000_0000_0000_0000
    ensures var id := IdOf(n);
            id in run[j].reg.streams ==>
              id in run[i].reg.streams && run[j].reg.streams[id] == run[i].reg.streams[id]
  {
    RunInv(run, steps, j);
    var id := IdOf(n);
    if id in run[j].reg.streams {
      GoneForGood(run, steps, i, j, n);
      assert OwnerOk(run[j], id);
      var m := run[j].owner[id];
      if n < m {
        IdsComeRound(n, m);
      } else if m < n {
        IdsComeRound(m, n);
      }
    }
  }

  /** The step from `run[i]` takes stream number `n` out of the registry. */
  ghost predicate Removes(run: seq<State>, i: nat, n: nat)
    requires i + 1 < |run|
  {
    Live(run[i], n) && !Live(run[i + 1], n)
  }

  lemma LiveIsNumbered(s: State, n: nat)
    requires Inv(s) && Live(s, n)
    ensures n < |s.running|
  {
    assert OwnerOk(s, IdOf(n));
  }

  /** However often a stream is closed, it is deregistered at most once. */
  lemma DeregisteredOnce(run: seq<State>, steps: seq<Action>, i: nat, j: nat, n: nat)
    requires IsRun(run, steps) && i + 1 < |run| && j + 1 < |run|
    requires Removes(run, i, n) && Removes(run, j, n)
    ensures i == j
  {
    var first, second := if i < j then i else j, if i < j then j else i;
    if first < second {
      RunInv(run, steps, first);
      LiveIsNumbered(run[first], n);
      GoneForGood(run, steps, first, first + 1, n);
      GoneForGood(run, steps, first + 1, second, n);
      assert false;
    }
  }

  /**
   Once one copier of every stream has ended no stream is left, and no count or tag
   either but for the peers of which a stream was overwritten.
   */
  lemma NothingLeaks(run: seq<State>, steps: seq<Action>, i: nat, p: Peer)
    requires IsRun(run, steps) && i < |run|
    requires forall n :: 0 <= n < |run[i].running| ==> run[i].running[n] != BOTH
    ensures run[i].reg.streams == map[]
    ensures Conns(run[i].reg, p) == Overwritten(run, steps, i, p)
    ensures p in run[i].reg.conns || p in run[i].reg.tagged <==> Overwritten(run, steps, i, p) > 0
  {
    RunInv(run, steps, i);
    var s := run[i];
    assert forall id :: id in s.reg.streams ==> OwnerOk(s, id);
    assert s.reg.streams == map[];
    CountsAndTags(run, steps, i, p);
    assert StreamsOf(s.reg, p) == {};
  }

  /** An old stream whose id came round again closes the new one that has it. */
  lemma LateCloseExample(s: State, p: Peer, copier: Copier) returns (s': State)
    requires Inv(s) && |s.running| == 0x1_0000_0000_0000_0000 && 0 !in s.reg.streams && s.running[0] == {copier}
    ensures Step(s, Register(p), s') && Live(s', UINT64)
    ensures forall s'' :: Step(s', CopierEnds(0, copier), s'') ==> !Live(s'', UINT64) && s''.running[UINT64] == BOTH
  {
    s' := State(Registered(s.reg, p), s.running + [BOTH], s.owner[s.reg.nextId := |s.running|]);
  }

  /* ----- The registry object ----- */

  class Stream {
    var id: Id
    const peer: Peer

    constructor (peer: Peer)
      ensures this.peer == peer
    {
      this.peer := peer;
      id := 0;
    }
  }

  class StreamRegistry {
    var streams: map<Id, Stream>
    var conns: map<Peer, nat>
    var tagged: set<Peer>
    var nextId: Id

    constructor ()
      ensures State() == EMPTY && Consistent(State())
    {
      streams, conns, tagged, nextId := map[], map[], {}, 0;
      new;
      assert State().streams == map[];
      EmptyIsConsistent();
    }

    ghost function State(): Registry
      reads this
    {
      Registry(map id | id in streams :: streams[id].peer, conns, tagged, nextId)
    }

    method Register(s: Stream)
      modifies this, s`id
      ensures State() == Registered(old(State()), s.peer)
      ensures s.id == old(nextId) && streams == old(streams)[s.id := s]
    {
      ghost var before := State();
      tagged := tagged + {s.peer};
      conns := conns[s.peer := (if s.peer in conns then conns[s.peer] else 0) + 1];
      s.id := nextId;
      streams := streams[nextId := s];
      nextId := (nextId + 1) % UINT64;
      assert State().streams == before.streams[s.id := s.peer];
    }

    method Deregister(id: Id)
      modifies this
      ensures State() == Deregistered(old(State()), id)
      ensures streams == old(streams) - {id}
    {
      if id !in streams {
        assert streams == streams - {id};
        return;
      }
      var p := streams[id].peer;
      var n: int := if p in conns then conns[p] else 0;
      n := n - 1;
      if n < 1 {
        conns := conns - {p};
        tagged := tagged - {p};
      } else {
        conns := conns[p := n];
      }
      streams := streams - {id};
      assert State().streams == old(State()).streams - {id};
    }
  }
}
