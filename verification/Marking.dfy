/**
 What the mark phase of garbage collection is to compute: one set, filled by
 four phases that all skip what the set already holds.
 */
module Marking {
  import opened Cids
  import opened DagStore

  /** Best-effort walks tolerate links into blocks that are not stored. */
  datatype Mode = Strict | BestEffort

  /** One item of a pin stream: a pinned CID, or the error that ended the stream. */
  datatype StreamedPin = Pin(key: Cid) | StreamError

  datatype Roots = Roots(
    recursive: seq<StreamedPin>,
    bestEffort: seq<Cid>,
    direct: seq<StreamedPin>,
    internals: seq<StreamedPin>)

  function Keys(pins: seq<StreamedPin>): set<Cid> {
    set p | p in pins && p.Pin? :: ToCidV1(p.key)
  }

  predicate NoStreamError(pins: seq<StreamedPin>) {
    forall p :: p in pins ==> p.Pin?
  }

  function AsPins(cids: seq<Cid>): seq<StreamedPin> {
    seq(|cids|, i requires 0 <= i < |cids| => Pin(cids[i]))
  }

  /** Visiting `c` raises no error: its hash is allowed and its links can be read. */
  predicate Readable(s: Store, mode: Mode, c: Cid) {
    && c.hash !in s.insecure
    && match GetLinks(s, c)
       case Links(_) => true
       case NotFound => mode == BestEffort
       case Failed => false
  }

  /** A phase that starts from `roots` with `base` already marked meets no error. */
  ghost predicate PhaseClean(s: Store, mode: Mode, roots: seq<StreamedPin>, base: set<Cid>) {
    && NoStreamError(roots)
    && forall c :: c in Reached(s, Keys(roots), base) ==> Readable(s, mode, c)
  }

  ghost function AfterRecursive(s: Store, r: Roots): set<Cid> {
    Closure(s, Keys(r.recursive))
  }

  ghost function AfterBestEffort(s: Store, r: Roots): set<Cid> {
    AfterRecursive(s, r) + Reached(s, Keys(AsPins(r.bestEffort)), AfterRecursive(s, r))
  }

  ghost function AfterDirect(s: Store, r: Roots): set<Cid> {
    AfterBestEffort(s, r) + Keys(r.direct)
  }

  ghost function MarkedSet(s: Store, r: Roots): set<Cid> {
    AfterDirect(s, r) + Reached(s, Keys(r.internals), AfterDirect(s, r))
  }

  /** Neither of the first two phases meets an error. */
  ghost predicate WalkedClean(s: Store, r: Roots) {
    && PhaseClean(s, Strict, r.recursive, {})
    && PhaseClean(s, BestEffort, AsPins(r.bestEffort), AfterRecursive(s, r))
  }

  /** No phase meets an error. */
  ghost predicate Markable(s: Store, r: Roots) {
    && WalkedClean(s, r)
    && NoStreamError(r.direct)
    && PhaseClean(s, Strict, r.internals, AfterDirect(s, r))
  }

  /** The roots whose whole closure is surely marked. */
  ghost function WalkedRoots(r: Roots): set<Cid> {
    Keys(r.recursive) + Keys(AsPins(r.bestEffort))
  }

  /** Recursive pins and best-effort roots share the set without losing anything. */
  lemma SharedSetIsOneClosure(s: Store, r: Roots)
    ensures AfterBestEffort(s, r) == Closure(s, WalkedRoots(r))
    ensures ClosedUnder(s, AfterBestEffort(s, r), AfterBestEffort(s, r))
  {
    ReachedClosed(s, Keys(r.recursive), {});
    ClosedBaseLosesNothing(s, Keys(AsPins(r.bestEffort)), AfterRecursive(s, r));
    ClosureUnion(s, Keys(r.recursive), Keys(AsPins(r.bestEffort)));
    ReachedClosed(s, WalkedRoots(r), {});
  }

  /** The set the documentation of GC asks for. */
  ghost function DocumentedSet(s: Store, r: Roots): set<Cid> {
    Closure(s, WalkedRoots(r) + Keys(r.internals)) + Keys(r.direct)
  }

  /**
   `d` is a direct pin below an internal pin, and its child `ch` is neither
   below a walked root, nor a direct pin, nor below an internal pin along a walk
   that stays clear of those. Direct pins are marked before internal pins are
   walked, so the walk stops at `d`.
   */
  ghost predicate Masks(s: Store, r: Roots, d: Cid, ch: Cid) {
    var stop := Closure(s, WalkedRoots(r)) + Keys(r.direct);
    && d in Keys(r.direct) && d in Closure(s, Keys(r.internals))
    && ch in Next(s, d)
    && ch !in stop
    && !ReachesAvoiding(s, Keys(r.internals), stop, ch)
  }

  /** Marking computes the documented set exactly when no direct pin masks a child. */
  lemma MarkedAsDocumentedIffUnmasked(s: Store, r: Roots)
    ensures MarkedSet(s, r) <= DocumentedSet(s, r)
    ensures MarkedSet(s, r) == DocumentedSet(s, r) <==> forall d, ch :: !Masks(s, r, d, ch)
  {
    var internals, stop := Keys(r.internals), AfterDirect(s, r);
    SharedSetIsOneClosure(s, r);
    ClosureUnion(s, WalkedRoots(r), internals);
    ReachedInClosure(s, internals, stop);
    forall d, ch | Masks(s, r, d, ch) ensures ch in DocumentedSet(s, r) && ch !in MarkedSet(s, r) {
      StepReached(s, internals, {}, d, ch);
      ReachedIff(s, internals, stop, ch);
    }
    if forall d, ch :: !Masks(s, r, d, ch) {
      UnmaskedIsComplete(s, r);
    }
  }

  lemma UnmaskedIsComplete(s: Store, r: Roots)
    requires forall d, ch :: !Masks(s, r, d, ch)
    ensures Closure(s, Keys(r.internals)) <= MarkedSet(s, r)
  {
    var internals, stop, marked := Keys(r.internals), AfterDirect(s, r), MarkedSet(s, r);
    SharedSetIsOneClosure(s, r);
    forall i | i in internals ensures i in marked {
      if i !in stop { RootReached(s, internals, stop, i); }
    }
    var inner := marked * Closure(s, internals);
    forall c, d | c in inner && d in Next(s, c) ensures d in inner {
      StepReached(s, internals, {}, c, d);
      if c in Reached(s, internals, stop) {
        ReachedClosed(s, internals, stop);
      } else if c in Keys(r.direct) {
        assert !Masks(s, r, c, d);
        ReachedIff(s, internals, stop, d);
      }
    }
    forall i | i in internals ensures i in inner { RootReached(s, internals, {}, i); }
    ReachedWithin(s, internals, {}, inner);
  }

  /** It is enough that no direct pin outside the walked closure lies below an internal pin. */
  lemma UnmaskedWhenDirectPinsAreApart(s: Store, r: Roots)
    requires Keys(r.direct) * Closure(s, Keys(r.internals)) <= Closure(s, WalkedRoots(r))
    ensures MarkedSet(s, r) == DocumentedSet(s, r)
  {
    forall d, ch ensures !Masks(s, r, d, ch) {
      if Masks(s, r, d, ch) {
        StepReached(s, WalkedRoots(r), {}, d, ch);
        assert false;
      }
    }
    MarkedAsDocumentedIffUnmasked(s, r);
  }

  /** A direct pin between an internal pin and a stored block leaves the block unmarked. */
  lemma DirectPinMasksExample() returns (s: Store, r: Roots)
    ensures Markable(s, r)
    ensures V1(RAW, 3) in DocumentedSet(s, r)
    ensures V1(RAW, 3) !in MarkedSet(s, r)
  {
    var top, mid, leaf := V1(DAG_PB, 1), V1(DAG_PB, 2), V1(RAW, 3);
    s := Store(map[top := [mid], mid := [leaf]], {}, {1, 2, 3});
    r := Roots([], [], [Pin(mid)], [Pin(top)]);
    assert r.direct[0] in r.direct && r.internals[0] in r.internals;
    assert Keys(r.direct) == {mid} && Keys(r.internals) == {top};
    assert Keys(r.recursive) == {} && Keys(AsPins(r.bestEffort)) == {};
    assert AfterDirect(s, r) == {mid};
    assert Next(s, top) == {mid} by { assert mid in s.decode[top]; }
    assert Next(s, mid) == {leaf} by { assert leaf in s.decode[mid]; }
    ReachedWithin(s, {top}, {mid}, {top, mid});
    RootReached(s, {top}, {}, top);
    StepReached(s, {top}, {}, top, mid);
    StepReached(s, {top}, {}, mid, leaf);
    ClosureMonotone(s, {top}, WalkedRoots(r) + {top});
    forall c | c in Reached(s, {top}, {mid}) ensures c == top {
      var p :| Connects(s, p, {top}, {mid}, c);
      assert p[|p| - 1] !in {mid};
    }
  }

  /** `c` enters the set before the internal pins without a strict walk reading it. */
  ghost predicate TolerantlyMarked(s: Store, r: Roots, c: Cid) {
    && c in Closure(s, WalkedRoots(r)) + Keys(r.direct)
    && c !in Closure(s, Keys(r.recursive))
  }

  /**
   When marking meets no error and no direct pin masks a child, the DAGs under the
   internal pins are known to be complete exactly when the nodes marked earlier by
   a tolerant phase (best-effort walk or direct pin) are readable: those are skipped
   by the strict walk, which would have reported them.
   */
  lemma InternalDagsCompleteIff(s: Store, r: Roots)
    requires Markable(s, r)
    requires forall d, ch :: !Masks(s, r, d, ch)
    ensures (forall c :: c in Closure(s, Keys(r.internals)) ==> Readable(s, Strict, c))
       <==> (forall c :: c in Closure(s, Keys(r.internals)) && TolerantlyMarked(s, r, c) ==> Readable(s, Strict, c))
  {
    UnmaskedIsComplete(s, r);
    SharedSetIsOneClosure(s, r);
  }

  /** The hashes that the sweep spares. */
  ghost function MarkedHashes(marked: set<Cid>): set<Hash> {
    set c | c in marked :: c.hash
  }

  ghost function Swept(s: Store, r: Roots): Store {
    s.(present := s.present * MarkedHashes(MarkedSet(s, r)))
  }

  /**
   Collecting twice is collecting once: after a sweep marking still meets no
   error and marks the same set, so a second run removes nothing.
   */
  lemma SweepKeepsMarks(s: Store, r: Roots)
    requires Markable(s, r)
    ensures Markable(Swept(s, r), r)
    ensures MarkedSet(Swept(s, r), r) == MarkedSet(s, r)
    ensures Swept(Swept(s, r), r) == Swept(s, r)
  {
    var t, marked := Swept(s, r), MarkedSet(s, r);
    forall c | c in marked ensures GetLinks(s, c) == GetLinks(t, c) {
      assert c.hash in MarkedHashes(marked);
      assert ToCidV1(c).hash == c.hash;
    }
    forall c | c in marked ensures Next(s, c) == Next(t, c) {}
    ReachedAgree(s, t, Keys(r.recursive), {});
    assert AfterRecursive(s, r) == AfterRecursive(t, r);
    ReachedAgree(s, t, Keys(AsPins(r.bestEffort)), AfterRecursive(s, r));
    assert AfterDirect(s, r) == AfterDirect(t, r);
    ReachedAgree(s, t, Keys(r.internals), AfterDirect(s, r));
  }
}
