/**
 A blockstore holding Merkle DAG nodes, and reachability over the links that
 can be read from it.
 */
module DagStore {
  import opened Cids

  /**
   What the store holds and how its blocks decode.
   - `decode` gives the links of a block under a codec; it is keyed by CIDv1, so
     a CIDv0 and its CIDv1 form have the same links. A CID outside `decode`
     names a block that does not decode under that codec.
   - `insecure` are the multihashes rejected by the hash allowlist.
   - `present` are the multihashes of the blocks in the store.
   */
  datatype Store = Store(decode: map<Cid, seq<Cid>>, insecure: set<Hash>, present: set<Hash>)

  datatype LinkResult = Links(links: seq<Cid>) | NotFound | Failed

  /** Reading the links of a node offline. Raw nodes have none and are not fetched. */
  function GetLinks(s: Store, c: Cid): LinkResult {
    var k := ToCidV1(c);
    if k.codec == RAW then Links([])
    else if k.hash !in s.present then NotFound
    else if k in s.decode then Links(s.decode[k])
    else Failed
  }

  /** The children of a node that a walk goes on to, in CIDv1 form. */
  function Next(s: Store, c: Cid): set<Cid> {
    match GetLinks(s, c)
    case Links(links) => set l | l in links :: ToCidV1(l)
    case _ => {}
  }

  /** `p` is a walk along readable links. */
  ghost predicate IsWalk(s: Store, p: seq<Cid>) {
    && |p| > 0
    && forall i, j {:trigger p[i], p[j]} :: 0 <= i && j == i + 1 && j < |p| ==> p[j] in Next(s, p[i])
  }

  ghost predicate Connects(s: Store, p: seq<Cid>, roots: set<Cid>, base: set<Cid>, c: Cid) {
    && IsWalk(s, p)
    && p[0] in roots
    && p[|p| - 1] == c
    && forall i :: 0 <= i < |p| ==> p[i] !in base
  }

  /** `c` can be reached from `roots` by a walk that never touches `base`. */
  ghost predicate ReachesAvoiding(s: Store, roots: set<Cid>, base: set<Cid>, c: Cid) {
    exists p :: Connects(s, p, roots, base, c)
  }

  /** A finite set holding everything any walk from `roots` can meet. */
  ghost function Universe(s: Store, roots: set<Cid>): set<Cid> {
    roots + set k, l | k in s.decode && l in s.decode[k] :: ToCidV1(l)
  }

  ghost function Reached(s: Store, roots: set<Cid>, base: set<Cid>): set<Cid> {
    set c | c in Universe(s, roots) && ReachesAvoiding(s, roots, base, c)
  }

  /** Everything reachable from `roots`, the roots included. */
  ghost function Closure(s: Store, roots: set<Cid>): set<Cid> {
    Reached(s, roots, {})
  }

  ghost predicate ClosedUnder(s: Store, inner: set<Cid>, outer: set<Cid>) {
    forall c :: c in inner ==> Next(s, c) <= outer
  }

  lemma ReachedIff(s: Store, roots: set<Cid>, base: set<Cid>, c: Cid)
    ensures c in Reached(s, roots, base) <==> ReachesAvoiding(s, roots, base, c)
  {
    if ReachesAvoiding(s, roots, base, c) {
      var p :| Connects(s, p, roots, base, c);
      if |p| > 1 {
        assert p[|p| - 1] in Next(s, p[|p| - 2]);
      }
    }
  }

  lemma RootReached(s: Store, roots: set<Cid>, base: set<Cid>, c: Cid)
    requires c in roots && c !in base
    ensures c in Reached(s, roots, base)
  {
    assert Connects(s, [c], roots, base, c);
  }

  lemma StepReached(s: Store, roots: set<Cid>, base: set<Cid>, c: Cid, d: Cid)
    requires c in Reached(s, roots, base) && d in Next(s, c) && d !in base
    ensures d in Reached(s, roots, base)
  {
    var p :| Connects(s, p, roots, base, c);
    assert Connects(s, p + [d], roots, base, d);
    ReachedIff(s, roots, base, d);
  }

  /** Anything that holds the roots and is closed under links holds what they reach. */
  lemma {:induction false} WalkStaysInside(s: Store, p: seq<Cid>, inner: set<Cid>, base: set<Cid>)
    requires IsWalk(s, p) && p[0] in inner
    requires forall i :: 0 <= i < |p| ==> p[i] !in base
    requires ClosedUnder(s, inner - base, inner)
    ensures p[|p| - 1] in inner
    decreases |p|
  {
    if |p| > 1 {
      assert p[1] in Next(s, p[0]);
      WalkStaysInside(s, p[1..], inner, base);
    }
  }

  lemma ReachedWithin(s: Store, roots: set<Cid>, base: set<Cid>, inner: set<Cid>)
    requires roots <= inner
    requires ClosedUnder(s, inner - base, inner)
    ensures Reached(s, roots, base) <= inner
  {
    forall c | c in Reached(s, roots, base) ensures c in inner {
      var p :| Connects(s, p, roots, base, c);
      WalkStaysInside(s, p, inner, base);
    }
  }

  lemma ReachedClosed(s: Store, roots: set<Cid>, base: set<Cid>)
    ensures ClosedUnder(s, Reached(s, roots, base), Reached(s, roots, base) + base)
  {
    forall c, d | c in Reached(s, roots, base) && d in Next(s, c) && d !in base
      ensures d in Reached(s, roots, base)
    {
      StepReached(s, roots, base, c, d);
    }
  }

  lemma ClosureMonotone(s: Store, roots: set<Cid>, more: set<Cid>)
    requires roots <= more
    ensures Closure(s, roots) <= Closure(s, more)
  {
    forall c | c in Closure(s, roots) ensures c in Closure(s, more) {
      var p :| Connects(s, p, roots, {}, c);
      assert Connects(s, p, more, {}, c);
      ReachedIff(s, more, {}, c);
    }
  }

  lemma ReachedInClosure(s: Store, roots: set<Cid>, base: set<Cid>)
    ensures Reached(s, roots, base) <= Closure(s, roots)
  {
    forall c | c in Reached(s, roots, base) ensures c in Closure(s, roots) {
      var p :| Connects(s, p, roots, base, c);
      assert Connects(s, p, roots, {}, c);
    }
  }

  /**
   Stopping at a set that is itself closed loses nothing: a walk that skips
   already visited nodes finds the same closure as one that starts afresh.
   */
  lemma ClosedBaseLosesNothing(s: Store, roots: set<Cid>, base: set<Cid>)
    requires ClosedUnder(s, base, base)
    ensures base + Reached(s, roots, base) == base + Closure(s, roots)
  {
    ReachedInClosure(s, roots, base);
    forall c | c in Closure(s, roots) ensures c in base + Reached(s, roots, base) {
      var inner := roots + base + Reached(s, roots, base);
      forall r | r in roots && r !in base ensures r in Reached(s, roots, base) {
        RootReached(s, roots, base, r);
      }
      ReachedClosed(s, roots, base);
      assert inner == base + Reached(s, roots, base);
      ReachedWithin(s, roots, {}, inner);
    }
  }

  lemma ClosureUnion(s: Store, a: set<Cid>, b: set<Cid>)
    ensures Closure(s, a + b) == Closure(s, a) + Closure(s, b)
  {
    ClosureMonotone(s, a, a + b);
    ClosureMonotone(s, b, a + b);
    forall c | c in Closure(s, a + b) ensures c in Closure(s, a) + Closure(s, b) {
      var p :| Connects(s, p, a + b, {}, c);
      if p[0] in a {
        assert Connects(s, p, a, {}, c);
        ReachedIff(s, a, {}, c);
      } else {
        assert Connects(s, p, b, {}, c);
        ReachedIff(s, b, {}, c);
      }
    }
  }

  /** Two stores whose readable links agree on what one of them reaches, reach the same. */
  lemma ReachedAgree(s: Store, t: Store, roots: set<Cid>, base: set<Cid>)
    requires forall c :: c in Reached(s, roots, base) ==> Next(s, c) == Next(t, c)
    ensures Reached(s, roots, base) == Reached(t, roots, base)
  {
    var inner := Reached(s, roots, base);
    forall c | c in inner ensures c in Reached(t, roots, base) {
      var p :| Connects(s, p, roots, base, c);
      WalkAgree(s, t, p, roots, base);
      ReachedIff(t, roots, base, c);
    }
    forall r | r in roots && r !in base ensures r in inner { RootReached(s, roots, base, r); }
    assert ClosedUnder(t, (inner + base) - base, inner + base) by { ReachedClosed(s, roots, base); }
    forall c | c in Reached(t, roots, base) ensures c in inner {
      var p :| Connects(t, p, roots, base, c);
      WalkStaysInside(t, p, inner + base, base);
    }
  }

  lemma {:induction false} WalkAgree(s: Store, t: Store, p: seq<Cid>, roots: set<Cid>, base: set<Cid>)
    requires forall c :: c in Reached(s, roots, base) ==> Next(s, c) == Next(t, c)
    requires |p| > 0 && Connects(s, p, roots, base, p[|p| - 1])
    ensures Connects(t, p, roots, base, p[|p| - 1])
  {
    forall i, j | 0 <= i && j == i + 1 && j < |p| ensures p[j] in Next(t, p[i]) {
      assert Connects(s, p[..j], roots, base, p[i]);
      ReachedIff(s, roots, base, p[i]);
    }
  }
}
