/**
 Pinning adds, pin removals, collections and block removals running
 concurrently, each an interleaving of atomic steps. Adds and pin edits hold the
 shared PinLock; collections and block removals hold the exclusive GCLock.
 Blocks may also be stored without any lock at any time.
 */
module GcProtocol {
  import opened Cids
  import opened DagStore
  import LinkPaths
  import opened Marking
  import PinningAdder
  import RemoveBlocks

  type Tid = nat

  datatype Thread =
    | Adding(nodes: seq<Cid>, stored: nat)
    | Pinning(nodes: seq<Cid>, pinned: nat)
    | Flushing(nodes: seq<Cid>)
    | EditingPins
    | WalkingPins(pending: set<Cid>, marked: set<Cid>, failed: bool)
    | MarkingRest(marked: set<Cid>, failed: bool)
    | Sweeping(marked: set<Cid>)
    | Checking
    | Removing(todo: seq<Cid>)

  predicate Shared(t: Thread) {
    t.Adding? || t.Pinning? || t.Flushing? || t.EditingPins?
  }

  datatype Writer = NoWriter | Held(holder: Tid)

  /**
   `unpinned` remembers every CID whose recursive pin was ever removed;
   `threads` are the threads that hold a lock.
   */
  datatype State = State(
    present: set<Hash>,
    recursive: set<Cid>,
    direct: set<Cid>,
    unpinned: set<Cid>,
    readers: set<Tid>,
    writer: Writer,
    threads: map<Tid, Thread>)

  /** What blocks decode to, wherever they are, and the hashes the collector rejects. */
  datatype World = World(decode: map<Cid, seq<Cid>>, insecure: set<Hash>)

  /** The store in which every block is present. */
  ghost function Content(w: World): Store {
    Store(w.decode, w.insecure, set k | k in w.decode :: k.hash)
  }

  function Local(w: World, s: State): Store {
    Store(w.decode, w.insecure, s.present)
  }

  function Pinned(s: State): set<Cid> {
    set c | c in s.recursive :: ToCidV1(c)
  }

  /** The nodes under the recursive pins, stored or not, and the direct pins. */
  ghost function Protected(w: World, s: State): set<Cid> {
    Closure(Content(w), Pinned(s)) + set c | c in s.direct :: ToCidV1(c)
  }

  datatype Action =
    | LockToAdd(nodes: seq<Cid>)
    | StoreNode
    | StartPinning
    | PinNode
    | StartFlush
    | LockToEdit
    | PinRecursively(c: Cid)
    | PinDirect(c: Cid)
    | Unpin(c: Cid)
    | ReleasePinLock
    | LockToCollect
    | VisitNode(c: Cid)
    | EndWalk
    | MarkMore(more: set<Cid>)
    | StartSweep
    | SweepBlock(h: Hash)
    | LockToRemove
    | CheckPins(todo: seq<Cid>)
    | RemoveNext(deletes: bool)
    | ReleaseGCLock
    | StoreUnlocked(h: Hash)

  ghost predicate TakesPinLock(s: State, t: Tid, first: Thread, s': State) {
    && t !in s.threads && s.writer == NoWriter
    && s' == s.(readers := s.readers + {t}, threads := s.threads[t := first])
  }

  ghost predicate TakesGCLock(s: State, t: Tid, first: Thread, s': State) {
    && t !in s.threads && s.writer == NoWriter && s.readers == {}
    && s' == s.(writer := Held(t), threads := s.threads[t := first])
  }

  function Goes(s: State, t: Tid, th: Thread): State {
    s.(threads := s.threads[t := th])
  }

  /** A node the strict walk has just visited: its children wait, or an error is noted. */
  ghost function Visited(w: World, s: State, th: Thread, c: Cid): Thread
    requires th.WalkingPins?
  {
    if c in th.marked then th.(pending := th.pending - {c})
    else if Readable(Local(w, s), Strict, c) then
      WalkingPins(th.pending - {c} + Next(Local(w, s), c), th.marked + {c}, th.failed)
    else WalkingPins(th.pending - {c}, th.marked + {c}, true)
  }

  /**
   The pin check reports every CID whose multihash is that of a protected
   node as pinned, so none of those is left to remove.
   */
  ghost predicate PassesCheck(w: World, s: State, todo: seq<Cid>) {
    forall c :: c in todo ==> c.hash !in MarkedHashes(Protected(w, s))
  }

  ghost predicate ThreadStep(w: World, s: State, t: Tid, th: Thread, a: Action, s': State) {
    match a
    case StoreNode =>
      && th.Adding? && th.stored < |th.nodes|
      && s' == Goes(s, t, th.(stored := th.stored + 1)).(present := s.present + {th.nodes[th.stored].hash})
    case StartPinning =>
      th.Adding? && th.stored == |th.nodes| && s' == Goes(s, t, Pinning(th.nodes, 0))
    case PinNode =>
      && th.Pinning? && th.pinned < |th.nodes|
      && s' == Goes(s, t, th.(pinned := th.pinned + 1)).(recursive := s.recursive + {th.nodes[th.pinned]})
    case StartFlush =>
      th.Pinning? && th.pinned == |th.nodes| && s' == Goes(s, t, Flushing(th.nodes))
    case PinRecursively(c) =>
      th.EditingPins? && s' == s.(recursive := s.recursive + {c})
    case PinDirect(c) =>
      th.EditingPins? && s' == s.(direct := s.direct + {c})
    case Unpin(c) =>
      && th.EditingPins?
      && s' == s.(recursive := s.recursive - {c}, direct := s.direct - {c}, unpinned := s.unpinned + {c})
    case ReleasePinLock =>
      Shared(th) && s' == s.(readers := s.readers - {t}, threads := s.threads - {t})
    case VisitNode(c) =>
      th.WalkingPins? && c in th.pending && s' == Goes(s, t, Visited(w, s, th, c))
    case EndWalk =>
      th.WalkingPins? && th.pending == {} && s' == Goes(s, t, MarkingRest(th.marked, th.failed))
    case MarkMore(more) =>
      th.MarkingRest? && s' == Goes(s, t, MarkingRest(th.marked + more, th.failed))
    case StartSweep =>
      && th.MarkingRest? && !th.failed
      && s' == Goes(s, t, Sweeping(th.marked + set c | c in s.direct :: ToCidV1(c)))
    case SweepBlock(h) =>
      th.Sweeping? && h !in MarkedHashes(th.marked) && s' == s.(present := s.present - {h})
    case CheckPins(todo) =>
      th.Checking? && PassesCheck(w, s, todo) && s' == Goes(s, t, Removing(todo))
    case RemoveNext(deletes) =>
      && th.Removing? && th.todo != []
      && var gone := if deletes then {th.todo[0].hash} else {};
         s' == Goes(s, t, Removing(th.todo[1..])).(present := s.present - gone)
    case ReleaseGCLock =>
      !Shared(th) && s' == s.(writer := NoWriter, threads := s.threads - {t})
    case _ => false
  }

  /** One atomic step of thread `t`. A holder may release at any point: every error path does. */
  ghost predicate Step(w: World, s: State, t: Tid, a: Action, s': State) {
    match a
    case LockToAdd(nodes) => TakesPinLock(s, t, Adding(nodes, 0), s')
    case LockToEdit => TakesPinLock(s, t, EditingPins, s')
    case LockToCollect => TakesGCLock(s, t, WalkingPins(Pinned(s), {}, false), s')
    case LockToRemove => TakesGCLock(s, t, Checking, s')
    case StoreUnlocked(h) => s' == s.(present := s.present + {h})
    case _ => t in s.threads && ThreadStep(w, s, t, s.threads[t], a, s')
  }

  ghost predicate Init(s: State) {
    s.readers == {} && s.writer == NoWriter && s.threads == map[]
  }

  /** The blocks an add has stored are still there, and what it pinned is pinned or was unpinned since. */
  ghost predicate AddIntact(s: State, nodes: seq<Cid>, stored: nat, pinned: nat) {
    && stored <= |nodes| && pinned <= |nodes|
    && (forall i :: 0 <= i < stored ==> nodes[i].hash in s.present)
    && (forall i :: 0 <= i < pinned ==> nodes[i] in s.recursive + s.unpinned)
  }

  ghost predicate ThreadOk(w: World, s: State, th: Thread) {
    match th
    case Adding(nodes, n) => AddIntact(s, nodes, n, 0)
    case Pinning(nodes, n) => AddIntact(s, nodes, |nodes|, n)
    case Flushing(nodes) => AddIntact(s, nodes, |nodes|, |nodes|)
    case EditingPins => true
    case WalkingPins(pending, marked, failed) =>
      failed || (Pinned(s) <= marked + pending && ClosedUnder(Content(w), marked, marked + pending))
    case MarkingRest(marked, failed) => failed || Closure(Content(w), Pinned(s)) <= marked
    case Sweeping(marked) => Protected(w, s) <= marked
    case Checking => true
    case Removing(todo) => PassesCheck(w, s, todo)
  }

  /** A thread holds the lock its stage calls for. */
  ghost predicate LockOk(s: State, t: Tid) {
    && (t in s.readers <==> t in s.threads && Shared(s.threads[t]))
    && (s.writer == Held(t) <==> t in s.threads && !Shared(s.threads[t]))
  }

  ghost predicate LocksOk(s: State) {
    && (s.writer.Held? ==> s.readers == {})
    && (forall t: Tid :: LockOk(s, t))
  }

  ghost predicate Inv(w: World, s: State) {
    && LocksOk(s)
    && forall t :: t in s.threads ==> ThreadOk(w, s, s.threads[t])
  }

  /** A link that can be read locally is a link of the content. */
  lemma ReadableIsContent(w: World, s: State, c: Cid)
    requires Readable(Local(w, s), Strict, c)
    ensures Next(Local(w, s), c) == Next(Content(w), c)
  {
  }

  lemma VisitKeepsOk(w: World, s: State, th: Thread, c: Cid)
    requires th.WalkingPins? && c in th.pending && ThreadOk(w, s, th)
    ensures ThreadOk(w, s, Visited(w, s, th, c))
  {
  }

  /** Whatever the stepping thread does, what it knows of the state stays right. */
  lemma StepperOk(w: World, s: State, t: Tid, a: Action, s': State)
    requires Inv(w, s) && Step(w, s, t, a, s') && t in s'.threads
    ensures ThreadOk(w, s', s'.threads[t])
  {
    match a {
      case VisitNode(c) => VisitKeepsOk(w, s, s.threads[t], c);
      case EndWalk =>
        if !s.threads[t].failed {
          ReachedWithin(Content(w), Pinned(s), {}, s.threads[t].marked);
        }
      case _ =>
    }
  }

  lemma LocksKept(w: World, s: State, t: Tid, a: Action, s': State)
    requires LocksOk(s) && Step(w, s, t, a, s')
    ensures LocksOk(s')
  {
    assert LockOk(s, t);
    forall u: Tid ensures LockOk(s', u) {
      assert LockOk(s, u);
    }
  }

  /** A thread that does not step is not disturbed by one that does. */
  lemma OthersOk(w: World, s: State, t: Tid, a: Action, s': State, u: Tid)
    requires Inv(w, s) && Step(w, s, t, a, s') && u in s'.threads && u != t
    ensures ThreadOk(w, s', s'.threads[u])
  {
    assert LockOk(s, u) && LockOk(s, t);
  }

  lemma ThreadOkKept(w: World, s: State, t: Tid, a: Action, s': State, u: Tid)
    requires Inv(w, s) && Step(w, s, t, a, s') && u in s'.threads
    ensures ThreadOk(w, s', s'.threads[u])
  {
    if u == t {
      StepperOk(w, s, t, a, s');
    } else {
      OthersOk(w, s, t, a, s', u);
    }
  }

  lemma InvKept(w: World, s: State, t: Tid, a: Action, s': State)
    requires Inv(w, s) && Step(w, s, t, a, s')
    ensures Inv(w, s')
  {
    LocksKept(w, s, t, a, s');
    forall u | u in s'.threads ensures ThreadOk(w, s', s'.threads[u]) {
      ThreadOkKept(w, s, t, a, s', u);
    }
  }

  /** A recursive pin comes only by an add or an edit that asks for it, and goes exactly when it is unpinned. */
  lemma PinsChangeByRequest(w: World, s: State, t: Tid, a: Action, s': State, c: Cid)
    requires Step(w, s, t, a, s')
    ensures c in s.recursive && c !in s'.recursive <==> c in s.recursive && a == Unpin(c)
    ensures c in s.direct && c !in s'.direct <==> c in s.direct && a == Unpin(c)
    ensures a == PinRecursively(c) ==> c in s'.recursive
    ensures a == PinDirect(c) ==> c in s'.direct
    ensures c in s'.recursive - s.recursive ==>
              || a == PinRecursively(c)
              || (a == PinNode && t in s.threads && s.threads[t].Pinning? && c in s.threads[t].nodes)
    ensures c in s'.direct - s.direct ==> a == PinDirect(c)
  {
  }

  /** No step deletes a block of a protected node. */
  lemma StepSpares(w: World, s: State, t: Tid, a: Action, s': State, h: Hash)
    requires Inv(w, s) && Step(w, s, t, a, s')
    requires h in s.present && h in MarkedHashes(Protected(w, s))
    ensures h in s'.present
  {
  }

  lemma PinnedBlockSurvivesStep(w: World, s: State, t: Tid, a: Action, s': State, pin: Cid, c: Cid)
    requires Inv(w, s) && Step(w, s, t, a, s')
    requires pin in s.recursive && c in Closure(Content(w), {ToCidV1(pin)}) && c.hash in s.present
    ensures c.hash in s'.present
  {
    ClosureMonotone(Content(w), {ToCidV1(pin)}, Pinned(s));
    assert c.hash in MarkedHashes(Protected(w, s));
    StepSpares(w, s, t, a, s', c.hash);
  }

  lemma DirectBlockSurvivesStep(w: World, s: State, t: Tid, a: Action, s': State, pin: Cid)
    requires Inv(w, s) && Step(w, s, t, a, s') && pin in s.direct && pin.hash in s.present
    ensures pin.hash in s'.present
  {
    assert ToCidV1(pin) in Protected(w, s) && ToCidV1(pin).hash == pin.hash;
    StepSpares(w, s, t, a, s', pin.hash);
  }

  /** A run: a state before each step and one after the last. */
  ghost predicate IsRun(w: World, run: seq<State>, steps: seq<(Tid, Action)>) {
    && |run| == |steps| + 1
    && Init(run[0])
    && forall i: nat :: i < |steps| ==> StepAt(w, run, steps, i)
  }

  ghost predicate StepAt(w: World, run: seq<State>, steps: seq<(Tid, Action)>, i: nat)
    requires i < |steps| < |run|
  {
    Step(w, run[i], steps[i].0, steps[i].1, run[i + 1])
  }

  lemma {:induction false} RunInv(w: World, run: seq<State>, steps: seq<(Tid, Action)>, i: nat)
    requires IsRun(w, run, steps) && i < |run|
    ensures Inv(w, run[i])
  {
    if i > 0 {
      RunInv(w, run, steps, i - 1);
      assert StepAt(w, run, steps, i - 1);
      InvKept(w, run[i - 1], steps[i - 1].0, steps[i - 1].1, run[i]);
    }
  }

  /**
   In every run, a stored block below a recursive pin stays stored for as long
   as the pin exists, whatever adders, collectors and removers do meanwhile.
   */
  lemma {:induction false} PinnedBlocksSurvive(
    w: World, run: seq<State>, steps: seq<(Tid, Action)>, i: nat, j: nat, pin: Cid, c: Cid)
    requires IsRun(w, run, steps) && i <= j < |run|
    requires forall k :: i <= k <= j ==> pin in run[k].recursive
    requires c in Closure(Content(w), {ToCidV1(pin)})
    requires c.hash in run[i].present
    ensures c.hash in run[j].present
  {
    if i < j {
      PinnedBlocksSurvive(w, run, steps, i, j - 1, pin, c);
      RunInv(w, run, steps, j - 1);
      assert StepAt(w, run, steps, j - 1);
      PinnedBlockSurvivesStep(w, run[j - 1], steps[j - 1].0, steps[j - 1].1, run[j], pin, c);
    }
  }

  /** A chain of links, wherever its blocks are, stays in the content below its start. */
  lemma ChainIsContent(w: World, p: seq<Cid>)
    requires LinkPaths.IsChain(w.decode, p)
    ensures ToCidV1(p[|p| - 1]) in Closure(Content(w), {ToCidV1(p[0])})
  {
    forall i | 0 <= i < |p| - 1 ensures p[i].hash in Content(w).present {
      assert p[i + 1] in LinkPaths.BlockLinks(w.decode, p[i]);
    }
    LinkPaths.ChainIsReached(Content(w), {p[0]}, p);
    assert LinkPaths.Normal({p[0]}) == {ToCidV1(p[0])};
  }

  /**
   The same told by links: a stored block at the end of a chain of links that starts
   at a pin, of either version, stays stored for as long as the pin exists.
   */
  lemma LinkedBlocksSurvive(
    w: World, run: seq<State>, steps: seq<(Tid, Action)>, i: nat, j: nat, p: seq<Cid>)
    requires IsRun(w, run, steps) && i <= j < |run|
    requires LinkPaths.IsChain(w.decode, p)
    requires forall k :: i <= k <= j ==> p[0] in run[k].recursive
    requires p[|p| - 1].hash in run[i].present
    ensures p[|p| - 1].hash in run[j].present
  {
    ChainIsContent(w, p);
    PinnedBlocksSurvive(w, run, steps, i, j, p[0], ToCidV1(p[|p| - 1]));
  }

  /** The same for a block that is pinned directly. */
  lemma {:induction false} DirectlyPinnedBlockSurvives(
    w: World, run: seq<State>, steps: seq<(Tid, Action)>, i: nat, j: nat, pin: Cid)
    requires IsRun(w, run, steps) && i <= j < |run|
    requires forall k :: i <= k <= j ==> pin in run[k].direct
    requires pin.hash in run[i].present
    ensures pin.hash in run[j].present
  {
    if i < j {
      DirectlyPinnedBlockSurvives(w, run, steps, i, j - 1, pin);
      RunInv(w, run, steps, j - 1);
      assert StepAt(w, run, steps, j - 1);
      DirectBlockSurvivesStep(w, run[j - 1], steps[j - 1].0, steps[j - 1].1, run[j], pin);
    }
  }

  /**
   No collection falls between a block's add and its pin: while an add holds its
   lock no thread holds the GCLock, every block it stored is still stored, and
   when it flushes every node is stored and pinned, unless someone unpinned it.
   */
  lemma AddIsNotInterrupted(w: World, run: seq<State>, steps: seq<(Tid, Action)>, i: nat, t: Tid)
    requires IsRun(w, run, steps) && i < |run| && t in run[i].threads
    ensures Shared(run[i].threads[t]) ==>
              run[i].writer == NoWriter && forall u :: u in run[i].threads ==> Shared(run[i].threads[u])
    ensures run[i].threads[t].Adding? ==>
              var th := run[i].threads[t];
              th.stored <= |th.nodes| && forall n :: 0 <= n < th.stored ==> th.nodes[n].hash in run[i].present
    ensures run[i].threads[t].Pinning? ==>
              forall c :: c in run[i].threads[t].nodes ==> c.hash in run[i].present
    ensures run[i].threads[t].Flushing? ==>
              forall c :: c in run[i].threads[t].nodes ==>
                c.hash in run[i].present && c in run[i].recursive + run[i].unpinned
  {
    RunInv(w, run, steps, i);
    assert LockOk(run[i], t);
    if Shared(run[i].threads[t]) {
      assert forall u :: u in run[i].threads ==> LockOk(run[i], u);
    }
  }

  /** A strict walk without errors follows the whole content below its roots, not only what is stored. */
  lemma StrictClosureIsContentClosure(w: World, s: State, pins: seq<StreamedPin>)
    requires PhaseClean(Local(w, s), Strict, pins, {})
    ensures Closure(Local(w, s), Keys(pins)) == Closure(Content(w), Keys(pins))
  {
    forall c | c in Closure(Local(w, s), Keys(pins)) ensures Next(Local(w, s), c) == Next(Content(w), c) {
      ReadableIsContent(w, s, c);
    }
    ReachedAgree(Local(w, s), Content(w), Keys(pins), {});
  }

  /**
   What the collector marks when marking meets no error is enough for the sweep
   of this protocol: it covers the whole content below the recursive pins, and the direct pins.
   */
  lemma MarkedSetProtects(w: World, s: State, r: Roots)
    requires Markable(Local(w, s), r)
    requires Keys(r.recursive) == Pinned(s) && Keys(r.direct) == set c | c in s.direct :: ToCidV1(c)
    ensures Protected(w, s) <= MarkedSet(Local(w, s), r)
  {
    StrictClosureIsContentClosure(w, s, r.recursive);
  }

  /** What a pin check leaves to remove passes the check of this protocol. */
  lemma PinCheckProtects(w: World, s: State, check: RemoveBlocks.PinCheck, cids: seq<Cid>)
    requires check.Checked? && RemoveBlocks.Answers(check, cids, MarkedHashes(Protected(w, s)))
    ensures PassesCheck(w, s, RemoveBlocks.Unpinned(check.statuses))
  {
    RemoveBlocks.UnpinnedHolds(check.statuses);
  }

  /** Steps of one thread, from `run[0]` on. */
  ghost predicate IsThreadRun(w: World, t: Tid, run: seq<State>, steps: seq<(Tid, Action)>) {
    && |run| == |steps| + 1
    && (forall i: nat :: i < |steps| ==> StepAt(w, run, steps, i))
    && (forall i :: 0 <= i < |steps| ==> steps[i].0 == t)
  }

  lemma ThreadRunExtends(w: World, t: Tid, run: seq<State>, steps: seq<(Tid, Action)>, a: Action, s': State)
    requires IsThreadRun(w, t, run, steps) && Step(w, run[|steps|], t, a, s')
    ensures IsThreadRun(w, t, run + [s'], steps + [(t, a)])
  {
    var run', steps' := run + [s'], steps + [(t, a)];
    forall i: nat | i < |steps'| ensures StepAt(w, run', steps', i) {
      if i < |steps| { assert StepAt(w, run, steps, i); }
    }
  }

  /** Storing the first `n` nodes is `n` steps of an adding thread. */
  lemma {:induction false} StoringIsARun(w: World, s: State, t: Tid, nodes: seq<Cid>, n: nat)
    returns (run: seq<State>, steps: seq<(Tid, Action)>)
    requires t in s.threads && s.threads[t] == Adding(nodes, 0) && n <= |nodes|
    ensures IsThreadRun(w, t, run, steps) && run[0] == s
    ensures run[|steps|] == Goes(s, t, Adding(nodes, n)).(present := s.present + PinningAdder.BlocksOf(nodes, n))
  {
    if n == 0 {
      run, steps := [s], [];
      assert Goes(s, t, Adding(nodes, 0)).(present := s.present + PinningAdder.BlocksOf(nodes, 0)) == s;
    } else {
      run, steps := StoringIsARun(w, s, t, nodes, n - 1);
      var s' := Goes(s, t, Adding(nodes, n)).(present := s.present + PinningAdder.BlocksOf(nodes, n));
      assert PinningAdder.BlocksOf(nodes, n) == PinningAdder.BlocksOf(nodes, n - 1) + {nodes[n - 1].hash};
      assert Goes(run[|steps|], t, Adding(nodes, n)).threads == s'.threads;
      ThreadRunExtends(w, t, run, steps, StoreNode, s');
      run, steps := run + [s'], steps + [(t, StoreNode)];
    }
  }

  /**
   What an add of many nodes does to the store and to the pins, up to any error, is
   what an adding thread of this protocol does in a run of its own steps.
   */
  lemma {:induction false} AddManyIsARun(w: World, s: State, t: Tid, nodes: seq<Cid>, pinned: nat)
    returns (run: seq<State>, steps: seq<(Tid, Action)>)
    requires t in s.threads && s.threads[t] == Adding(nodes, 0) && pinned <= |nodes|
    ensures IsThreadRun(w, t, run, steps) && run[0] == s
    ensures run[|steps|] == Goes(s, t, Pinning(nodes, pinned)).(
                              present := s.present + PinningAdder.BlocksOf(nodes, |nodes|),
                              recursive := s.recursive + PinningAdder.NodesOf(nodes, pinned))
  {
    var present := s.present + PinningAdder.BlocksOf(nodes, |nodes|);
    var recursive := s.recursive + PinningAdder.NodesOf(nodes, pinned);
    var s' := Goes(s, t, Pinning(nodes, pinned)).(present := present, recursive := recursive);
    if pinned == 0 {
      run, steps := StoringIsARun(w, s, t, nodes, |nodes|);
      assert Goes(run[|steps|], t, Pinning(nodes, 0)) == s';
      ThreadRunExtends(w, t, run, steps, StartPinning, s');
      run, steps := run + [s'], steps + [(t, StartPinning)];
    } else {
      run, steps := AddManyIsARun(w, s, t, nodes, pinned - 1);
      assert PinningAdder.NodesOf(nodes, pinned) == PinningAdder.NodesOf(nodes, pinned - 1) + {nodes[pinned - 1]};
      assert Goes(run[|steps|], t, Pinning(nodes, pinned)).threads == s'.threads;
      ThreadRunExtends(w, t, run, steps, PinNode, s');
      run, steps := run + [s'], steps + [(t, PinNode)];
    }
  }
  /** Deleting unmarked blocks, as the sweep of a collection does, is a run of a sweeping thread. */
  lemma {:induction false} SweepIsARun(w: World, s: State, t: Tid, marked: set<Cid>, gone: seq<Hash>)
    returns (run: seq<State>, steps: seq<(Tid, Action)>)
    requires t in s.threads && s.threads[t] == Sweeping(marked)
    requires forall h :: h in gone ==> h !in MarkedHashes(marked)
    ensures IsThreadRun(w, t, run, steps) && run[0] == s
    ensures run[|steps|] == s.(present := s.present - set h | h in gone)
    decreases |gone|
  {
    if gone == [] {
      run, steps := [s], [];
      assert s.(present := s.present - {}) == s;
    } else {
      var init, h := gone[..|gone| - 1], gone[|gone| - 1];
      assert gone == init + [h];
      run, steps := SweepIsARun(w, s, t, marked, init);
      var s' := s.(present := s.present - set h | h in gone);
      assert s'.present == run[|steps|].present - {h};
      ThreadRunExtends(w, t, run, steps, SweepBlock(h), s');
      run, steps := run + [s'], steps + [(t, SweepBlock(h))];
    }
  }

  /** Removing blocks from the list that passed the pin check is a run of a removing thread. */
  lemma {:induction false} RemovalIsARun(w: World, s: State, t: Tid, todo: seq<Cid>, failing: set<Hash>, n: nat)
    returns (run: seq<State>, steps: seq<(Tid, Action)>)
    requires t in s.threads && s.threads[t] == Removing(todo) && n <= |todo|
    ensures IsThreadRun(w, t, run, steps) && run[0] == s
    ensures run[|steps|] == Goes(s, t, Removing(todo[n..])).(
                              present := s.present - RemoveBlocks.HashesOf(todo[..n], failing))
  {
    if n == 0 {
      run, steps := [s], [];
      assert todo[0..] == todo && Goes(s, t, Removing(todo)).threads == s.threads;
      assert s.present - RemoveBlocks.HashesOf(todo[..0], failing) == s.present;
    } else {
      run, steps := RemovalIsARun(w, s, t, todo, failing, n - 1);
      var c, rest := todo[n - 1], todo[n..];
      var s' := Goes(s, t, Removing(rest)).(present := s.present - RemoveBlocks.HashesOf(todo[..n], failing));
      var a := RemoveNext(c.hash !in failing);
      assert todo[..n] == todo[..n - 1] + [c];
      assert todo[n - 1..][1..] == rest && todo[n - 1..][0] == c;
      assert Goes(run[|steps|], t, Removing(rest)).threads == s'.threads;
      assert s'.present == run[|steps|].present - if c.hash !in failing then {c.hash} else {};
      ThreadRunExtends(w, t, run, steps, a, s');
      run, steps := run + [s'], steps + [(t, a)];
    }
  }
}
