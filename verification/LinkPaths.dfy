/**
 What is kept and what fails, told by the links of the blocks themselves: by
 version and codec of each CID, without any normal form of CIDs.
 */
module LinkPaths {
  import opened Cids
  import opened DagStore
  import opened Marking

  /** The links of the block that `c` names: as dag-pb for a version-0 CID, none for a raw one. */
  function BlockLinks(decode: map<Cid, seq<Cid>>, c: Cid): seq<Cid> {
    match c
    case V0(h) => if V1(0x70, h) in decode then decode[V1(0x70, h)] else []
    case V1(codec, h) => if codec != 0x55 && c in decode then decode[c] else []
  }

  /** The block that `c` names can be decoded, or need not be. */
  predicate Decodes(decode: map<Cid, seq<Cid>>, c: Cid) {
    match c
    case V0(h) => V1(0x70, h) in decode
    case V1(codec, h) => codec == 0x55 || c in decode
  }

  /** Each CID of `p` is linked from the block named before it. */
  ghost predicate IsChain(decode: map<Cid, seq<Cid>>, p: seq<Cid>) {
    && |p| > 0
    && forall i, j {:trigger p[i], p[j]} :: 0 <= i && j == i + 1 && j < |p| ==> p[j] in BlockLinks(decode, p[i])
  }

  /** A chain through stored blocks; the last one need not be stored. */
  ghost predicate IsStoredChain(s: Store, p: seq<Cid>) {
    IsChain(s.decode, p) && forall i :: 0 <= i < |p| - 1 ==> p[i].hash in s.present
  }

  /** A chain of stored blocks leads from one of the roots to `c`. */
  ghost predicate LeadsTo(s: Store, roots: set<Cid>, p: seq<Cid>, c: Cid) {
    IsStoredChain(s, p) && p[0] in roots && p[|p| - 1] == c
  }

  ghost predicate Linked(s: Store, roots: set<Cid>, c: Cid) {
    exists p :: LeadsTo(s, roots, p, c)
  }

  /** The CIDs pinned, as they are written. */
  function PinnedCids(pins: seq<StreamedPin>): set<Cid> {
    set p | p in pins && p.Pin? :: p.key
  }

  function ListedCids(cids: seq<Cid>): set<Cid> {
    set c | c in cids
  }

  /** Reading one node: its children are the links of its block, if that is stored. */
  lemma NextByLinks(s: Store, c: Cid)
    ensures forall l :: l in BlockLinks(s.decode, c) && c.hash in s.present ==> ToCidV1(l) in Next(s, ToCidV1(c))
    ensures forall d :: d in Next(s, ToCidV1(c)) ==>
              c.hash in s.present && exists l :: l in BlockLinks(s.decode, c) && ToCidV1(l) == d
  {
  }

  ghost function Normal(roots: set<Cid>): set<Cid> {
    set c | c in roots :: ToCidV1(c)
  }

  /** What a chain leads to is reached. */
  lemma {:induction false} ChainIsReached(s: Store, roots: set<Cid>, p: seq<Cid>)
    requires IsStoredChain(s, p) && p[0] in roots
    ensures ToCidV1(p[|p| - 1]) in Closure(s, Normal(roots))
    decreases |p|
  {
    var last := |p| - 1;
    if last == 0 {
      RootReached(s, Normal(roots), {}, ToCidV1(p[0]));
    } else {
      ChainIsReached(s, roots, p[..last]);
      assert p[last] in BlockLinks(s.decode, p[last - 1]);
      NextByLinks(s, p[last - 1]);
      StepReached(s, Normal(roots), {}, ToCidV1(p[last - 1]), ToCidV1(p[last]));
    }
  }

  /** What is reached is at the end of a chain. */
  lemma {:induction false} WalkIsChain(s: Store, roots: set<Cid>, q: seq<Cid>) returns (p: seq<Cid>)
    requires IsWalk(s, q) && q[0] in Normal(roots)
    ensures IsStoredChain(s, p) && p[0] in roots && ToCidV1(p[|p| - 1]) == q[|q| - 1]
    decreases |q|
  {
    var last := |q| - 1;
    if last == 0 {
      var c :| c in roots && ToCidV1(c) == q[0];
      p := [c];
    } else {
      var front := WalkIsChain(s, roots, q[..last]);
      var c := front[|front| - 1];
      assert q[last] in Next(s, q[last - 1]);
      NextByLinks(s, c);
      var l :| l in BlockLinks(s.decode, c) && ToCidV1(l) == q[last];
      p := front + [l];
    }
  }

  /** A closure holds exactly the CIDs that chains lead to. */
  lemma ClosureByLinks(s: Store, roots: set<Cid>)
    ensures forall c :: Linked(s, roots, c) ==> ToCidV1(c) in Closure(s, Normal(roots))
    ensures forall d :: d in Closure(s, Normal(roots)) ==> exists c :: Linked(s, roots, c) && ToCidV1(c) == d
  {
    forall c | Linked(s, roots, c) ensures ToCidV1(c) in Closure(s, Normal(roots)) {
      var p :| LeadsTo(s, roots, p, c);
      ChainIsReached(s, roots, p);
    }
    forall d | d in Closure(s, Normal(roots)) ensures exists c :: Linked(s, roots, c) && ToCidV1(c) == d {
      var q :| Connects(s, q, Normal(roots), {}, d);
      var p := WalkIsChain(s, roots, q);
      assert LeadsTo(s, roots, p, p[|p| - 1]);
    }
  }

  /* ----- What is marked ----- */

  /** `h` is the multihash of a node that is linked below the roots. */
  ghost predicate HashLinked(s: Store, roots: set<Cid>, h: Hash) {
    exists c :: Linked(s, roots, c) && c.hash == h
  }

  ghost predicate PinnedHash(pins: seq<StreamedPin>, h: Hash) {
    exists c :: Pin(c) in pins && c.hash == h
  }

  ghost function WalkedCids(r: Roots): set<Cid> {
    PinnedCids(r.recursive) + ListedCids(r.bestEffort)
  }

  /** The block is surely kept: linked below a recursive pin or best-effort root, or itself pinned. */
  ghost predicate Wanted(s: Store, r: Roots, h: Hash) {
    HashLinked(s, WalkedCids(r), h) || PinnedHash(r.direct, h) || PinnedHash(r.internals, h)
  }

  /** There is any reason to keep the block. */
  ghost predicate Claimed(s: Store, r: Roots, h: Hash) {
    Wanted(s, r, h) || HashLinked(s, PinnedCids(r.internals), h)
  }

  lemma KeysAreNormal(pins: seq<StreamedPin>)
    ensures Keys(pins) == Normal(PinnedCids(pins))
  {
    forall p | p in pins && p.Pin? ensures ToCidV1(p.key) in Normal(PinnedCids(pins)) {
      assert p.key in PinnedCids(pins);
    }
    forall c | c in PinnedCids(pins) ensures ToCidV1(c) in Keys(pins) {
      var p :| p in pins && p.Pin? && p.key == c;
    }
  }

  lemma ListedAreNormal(cids: seq<Cid>)
    ensures Keys(AsPins(cids)) == Normal(ListedCids(cids))
  {
    forall c | c in cids ensures Pin(c) in AsPins(cids) {
      var i :| 0 <= i < |cids| && cids[i] == c;
      assert AsPins(cids)[i] == Pin(c);
    }
  }

  lemma WalkedAreNormal(r: Roots)
    ensures WalkedRoots(r) == Normal(WalkedCids(r))
  {
    KeysAreNormal(r.recursive);
    ListedAreNormal(r.bestEffort);
    assert Normal(WalkedCids(r)) == Normal(PinnedCids(r.recursive)) + Normal(ListedCids(r.bestEffort));
  }

  /** A closure has exactly the multihashes that chains lead to. */
  lemma HashesByLinks(s: Store, roots: set<Cid>, h: Hash)
    ensures h in MarkedHashes(Closure(s, Normal(roots))) <==> HashLinked(s, roots, h)
  {
    ClosureByLinks(s, roots);
    if h in MarkedHashes(Closure(s, Normal(roots))) {
      var d :| d in Closure(s, Normal(roots)) && d.hash == h;
      var c :| Linked(s, roots, c) && ToCidV1(c) == d;
      assert c.hash == h;
    }
    if HashLinked(s, roots, h) {
      var c :| Linked(s, roots, c) && c.hash == h;
      assert ToCidV1(c).hash == h;
    }
  }

  lemma PinIsMarked(pins: seq<StreamedPin>, h: Hash)
    ensures h in MarkedHashes(Keys(pins)) <==> PinnedHash(pins, h)
  {
    if h in MarkedHashes(Keys(pins)) {
      var d :| d in Keys(pins) && d.hash == h;
      var p :| p in pins && p.Pin? && ToCidV1(p.key) == d;
      assert p == Pin(p.key) && p.key.hash == h;
    }
    if PinnedHash(pins, h) {
      var c :| Pin(c) in pins && c.hash == h;
      assert ToCidV1(c) in Keys(pins) && ToCidV1(c).hash == h;
    }
  }

  lemma HashesOfUnion(a: set<Cid>, b: set<Cid>)
    ensures MarkedHashes(a + b) == MarkedHashes(a) + MarkedHashes(b)
  {
  }

  lemma HashesMonotone(a: set<Cid>, b: set<Cid>)
    requires a <= b
    ensures MarkedHashes(a) <= MarkedHashes(b)
  {
  }

  /** Every block that is surely kept is marked, whatever form its CID has. */
  lemma WantedIsMarked(s: Store, r: Roots, h: Hash)
    requires Wanted(s, r, h)
    ensures h in MarkedHashes(MarkedSet(s, r))
  {
    SharedSetIsOneClosure(s, r);
    WalkedAreNormal(r);
    HashesByLinks(s, WalkedCids(r), h);
    PinIsMarked(r.direct, h);
    PinIsMarked(r.internals, h);
    var internals, stop := Keys(r.internals), AfterDirect(s, r);
    forall i | i in internals ensures i in MarkedSet(s, r) {
      if i !in stop { RootReached(s, internals, stop, i); }
    }
    HashesMonotone(Closure(s, WalkedRoots(r)), MarkedSet(s, r));
    HashesMonotone(Keys(r.direct), MarkedSet(s, r));
    HashesMonotone(internals, MarkedSet(s, r));
  }

  /** Nothing is marked without a reason. */
  lemma MarkedIsClaimed(s: Store, r: Roots, h: Hash)
    requires h in MarkedHashes(MarkedSet(s, r))
    ensures Claimed(s, r, h)
  {
    var internals := Keys(r.internals);
    MarkedAsDocumentedIffUnmasked(s, r);
    ClosureUnion(s, WalkedRoots(r), internals);
    WalkedAreNormal(r);
    KeysAreNormal(r.internals);
    HashesMonotone(MarkedSet(s, r), DocumentedSet(s, r));
    HashesOfUnion(Closure(s, WalkedRoots(r)) + Closure(s, internals), Keys(r.direct));
    HashesOfUnion(Closure(s, WalkedRoots(r)), Closure(s, internals));
    HashesByLinks(s, WalkedCids(r), h);
    HashesByLinks(s, PinnedCids(r.internals), h);
    PinIsMarked(r.direct, h);
  }

  /* ----- What makes marking fail ----- */

  /** Reading the links of `c` gives no error to a strict walk. */
  predicate FullyReadable(s: Store, c: Cid) {
    c.hash !in s.insecure && (c == V1(0x55, c.hash) || (c.hash in s.present && Decodes(s.decode, c)))
  }

  /** Reading the links of `c` gives no error to a best-effort walk: the block may be missing. */
  predicate ReadableOrMissing(s: Store, c: Cid) {
    c.hash !in s.insecure && (FullyReadable(s, c) || c.hash !in s.present)
  }

  lemma ReadableByCases(s: Store, c: Cid)
    ensures Readable(s, Strict, ToCidV1(c)) <==> FullyReadable(s, c)
    ensures Readable(s, BestEffort, ToCidV1(c)) <==> ReadableOrMissing(s, c)
  {
  }

  /** No node linked below a recursive pin is unreadable, and none below a best-effort root but for missing ones. */
  ghost predicate WalkedReadable(s: Store, r: Roots) {
    && (forall c :: Linked(s, PinnedCids(r.recursive), c) ==> FullyReadable(s, c))
    && (forall c :: Linked(s, ListedCids(r.bestEffort), c) ==> ReadableOrMissing(s, c))
  }

  /** A closure is readable exactly when all that chains lead to is. */
  lemma ClosureReadable(s: Store, roots: set<Cid>)
    ensures (forall d :: d in Closure(s, Normal(roots)) ==> Readable(s, Strict, d))
       <==> (forall c :: Linked(s, roots, c) ==> FullyReadable(s, c))
    ensures (forall d :: d in Closure(s, Normal(roots)) ==> Readable(s, BestEffort, d))
       <==> (forall c :: Linked(s, roots, c) ==> ReadableOrMissing(s, c))
  {
    ClosureByLinks(s, roots);
    forall c ensures Readable(s, Strict, ToCidV1(c)) <==> FullyReadable(s, c)
             ensures Readable(s, BestEffort, ToCidV1(c)) <==> ReadableOrMissing(s, c) {
      ReadableByCases(s, c);
    }
  }

  /** The first two phases meet no error exactly when the nodes below their roots are readable. */
  lemma WalkedCleanByLinks(s: Store, r: Roots)
    ensures WalkedClean(s, r) <==> NoStreamError(r.recursive) && WalkedReadable(s, r)
  {
    KeysAreNormal(r.recursive);
    ListedAreNormal(r.bestEffort);
    ClosureReadable(s, PinnedCids(r.recursive));
    ClosureReadable(s, ListedCids(r.bestEffort));
    var base, roots := AfterRecursive(s, r), Keys(AsPins(r.bestEffort));
    ReachedClosed(s, Keys(r.recursive), {});
    ClosedBaseLosesNothing(s, roots, base);
    ReachedInClosure(s, roots, base);
    assert NoStreamError(AsPins(r.bestEffort));
  }

  /** A stored block below a best-effort root that does not decode makes marking fail; a missing one does not. */
  lemma UndecodableFailsMarking(s: Store, r: Roots, c: Cid)
    requires Linked(s, ListedCids(r.bestEffort), c) && c.hash in s.present
    requires c != V1(0x55, c.hash) && !Decodes(s.decode, c)
    ensures !Markable(s, r)
  {
    WalkedCleanByLinks(s, r);
  }
}
