/** Mark and sweep: the garbage collector as it updates its set, its reports and the blockstore. */
module Collector {
  import opened Cids
  import opened DagStore
  import opened LinkPaths
  import opened Marking
  import opened Sequences

  /** One item of the collector's output channel. */
  datatype Report =
    | KeyRemoved(key: Cid)
    | CannotFetchLinks(key: Cid)
    | InsecureHash(key: Cid)
    | StreamFailed
    | CannotFetchAllLinks
    | ListingFailed
    | ContextCancelled
    | DatastoreFailed
    | CannotDeleteBlock(key: Cid)
    | CannotDeleteSomeBlocks

  datatype Outcome = Done | Error(report: Report)

  /** The blockstore's listing of its keys, or the failure to start one. */
  datatype Listing = Listed(keys: seq<Cid>) | Unlistable

  /**
   What comes of a wait for something or the cancellation, once the context is
   cancelled: the other event wins, or the cancellation does, or what was being
   received ends early: a stream is closed without an error, a read fails.
   */
  datatype Fate = Unnoticed | Noticed | CutShort

  /**
   A context that is never cancelled, that will be at the `looks + 1`-th look at it, or that
   is cancelled. `fates` are what the looks at the cancelled context come to; then it is noticed.
   */
  datatype Context = Background | Expiring(looks: nat, fates: seq<Fate>) | Cancelled(fates: seq<Fate>)

  function Expired(ctx: Context): Context {
    match ctx
    case Expiring(0, fates) => Cancelled(fates)
    case Expiring(looks, fates) => Expiring(looks - 1, fates)
    case _ => ctx
  }

  /** The context after one more look at it, and what the look comes to. */
  function Looked(ctx: Context): (Context, Fate) {
    match Expired(ctx)
    case Cancelled(fates) =>
      if fates == [] then (Cancelled([]), Noticed) else (Cancelled(fates[1..]), fates[0])
    case live => (live, Unnoticed)
  }

  /** A cancelled context under which the four streams of roots are closed at once, without an error. */
  const QUIET := Cancelled([CutShort, CutShort, CutShort, CutShort])

  /** The datastore below the blockstore, which may collect garbage of its own, and fail to. */
  datatype Datastore = Passive | Collecting(fails: bool)

  /** The keys reported as removed, in order. */
  function RemovedKeys(out: seq<Report>): seq<Cid> {
    if out == [] then []
    else
      var last := out[|out| - 1];
      RemovedKeys(out[..|out| - 1]) + if last.KeyRemoved? then [last.key] else []
  }

  /** Nothing but errors was reported since. */
  ghost predicate ErrorsOnly(before: seq<Report>, after: seq<Report>) {
    before <= after && forall i :: |before| <= i < |after| ==> !after[i].KeyRemoved?
  }

  lemma {:induction false} ErrorsRemoveNothing(before: seq<Report>, after: seq<Report>)
    requires ErrorsOnly(before, after)
    ensures RemovedKeys(after) == RemovedKeys(before)
    decreases |after|
  {
    if before != after {
      ErrorsRemoveNothing(before, after[..|after| - 1]);
    }
  }

  /** The blockstore lists each stored block once, as a raw CIDv1. */
  ghost predicate Lists(keys: seq<Cid>, present: set<Hash>) {
    && Distinct(keys)
    && (forall k :: k in keys ==> k == V1(RAW, k.hash) && k.hash in present)
    && (forall h :: h in present ==> V1(RAW, h) in keys)
  }

  /** A key is to be deleted when it is not marked and not refused by the store. */
  function DoomedOf(k: Cid, marked: set<Cid>, failing: set<Hash>): seq<Cid> {
    if k !in marked && k.hash !in failing then [k] else []
  }

  /** The keys to delete. */
  function Doomed(keys: seq<Cid>, marked: set<Cid>, failing: set<Hash>): seq<Cid> {
    if keys == [] then []
    else Doomed(keys[..|keys| - 1], marked, failing) + DoomedOf(keys[|keys| - 1], marked, failing)
  }

  function Hashes(keys: seq<Cid>): set<Hash> {
    set k | k in keys :: k.hash
  }

  lemma {:induction false} DoomedHolds(keys: seq<Cid>, marked: set<Cid>, failing: set<Hash>)
    ensures forall k :: k in Doomed(keys, marked, failing) <==> k in keys && k !in marked && k.hash !in failing
    ensures Distinct(keys) ==> Distinct(Doomed(keys, marked, failing))
  {
    if keys != [] {
      DoomedHolds(keys[..|keys| - 1], marked, failing);
      assert keys == keys[..|keys| - 1] + [keys[|keys| - 1]];
    }
  }

  /** The report of the sweep on one key. */
  function ReportsOn(k: Cid, marked: set<Cid>, failing: set<Hash>): seq<Report> {
    if k in marked then [] else if k.hash in failing then [CannotDeleteBlock(k)] else [KeyRemoved(k)]
  }

  /** The reports of the sweep on the listed keys, in order. */
  function SweepReports(keys: seq<Cid>, marked: set<Cid>, failing: set<Hash>): seq<Report> {
    if keys == [] then []
    else SweepReports(keys[..|keys| - 1], marked, failing) + ReportsOn(keys[|keys| - 1], marked, failing)
  }

  /** The report that closes a sweep in which some block could not be deleted. */
  ghost function Closing(keys: seq<Cid>, marked: set<Cid>, failing: set<Hash>): seq<Report> {
    if Deletable(keys, marked, failing) then [] else [CannotDeleteSomeBlocks]
  }

  lemma {:induction false} RemovedKeysConcat(a: seq<Report>, b: seq<Report>)
    ensures RemovedKeys(a + b) == RemovedKeys(a) + RemovedKeys(b)
    decreases |b|
  {
    if b == [] {
      assert a + b == a;
    } else {
      RemovedKeysConcat(a, b[..|b| - 1]);
      assert (a + b)[..|a + b| - 1] == a + b[..|b| - 1];
    }
  }

  lemma {:induction false} SweepReportsRemovals(keys: seq<Cid>, marked: set<Cid>, failing: set<Hash>)
    ensures RemovedKeys(SweepReports(keys, marked, failing)) == Doomed(keys, marked, failing)
  {
    if keys != [] {
      var init, last := keys[..|keys| - 1], keys[|keys| - 1];
      SweepReportsRemovals(init, marked, failing);
      RemovedKeysConcat(SweepReports(init, marked, failing), ReportsOn(last, marked, failing));
    }
  }

  lemma SweepOutput(
    before: seq<Report>, after: seq<Report>, keys: seq<Cid>, reported: nat, marked: set<Cid>, failing: set<Hash>,
    closing: seq<Report>)
    requires reported <= |keys| && after == before + SweepReports(keys[..reported], marked, failing) + closing
    requires forall i :: 0 <= i < |closing| ==> closing[i] == CannotDeleteSomeBlocks
    ensures RemovedKeys(after) == RemovedKeys(before) + Doomed(keys[..reported], marked, failing)
  {
    SweepReportsRemovals(keys[..reported], marked, failing);
    RemovedKeysConcat(before, SweepReports(keys[..reported], marked, failing));
    ErrorsRemoveNothing(before + SweepReports(keys[..reported], marked, failing), after);
  }

  /** The report on a block that could not be deleted, and the one that closes the sweep, are among those sent. */
  predicate Complains(out: seq<Report>, k: Cid) {
    CannotDeleteBlock(k) in out && CannotDeleteSomeBlocks in out
  }

  lemma {:induction false} RefusedIsReported(keys: seq<Cid>, marked: set<Cid>, failing: set<Hash>, k: Cid)
    requires k in keys && k !in marked && k.hash in failing
    ensures CannotDeleteBlock(k) in SweepReports(keys, marked, failing)
  {
    var init := keys[..|keys| - 1];
    if k != keys[|keys| - 1] {
      assert keys == init + [keys[|keys| - 1]];
      RefusedIsReported(init, marked, failing, k);
    }
  }

  /** After a whole sweep every unmarked block that is left has its complaint. */
  ghost predicate AllExplained(out: seq<Report>, after: set<Hash>, marked: set<Cid>) {
    forall h :: h in after && h !in MarkedHashes(marked) ==> Complains(out, V1(RAW, h))
  }

  lemma StillExplained(out: seq<Report>, longer: seq<Report>, after: set<Hash>, marked: set<Cid>)
    requires out <= longer
    ensures AllExplained(out, after, marked) ==> AllExplained(longer, after, marked)
  {
    assert longer == out + longer[|out|..];
  }

  lemma SweepExplains(
    before: seq<Report>, keys: seq<Cid>, present: set<Hash>, marked: set<Cid>, failing: set<Hash>, out: seq<Report>)
    requires Lists(keys, present)
    requires out == before + SweepReports(keys, RawCids(marked), failing) + Closing(keys, RawCids(marked), failing)
    ensures AllExplained(out, present * (MarkedHashes(marked) + failing), marked)
  {
    RawIsByHash(marked);
    forall h | h in present && h in failing && h !in MarkedHashes(marked) ensures Complains(out, V1(RAW, h)) {
      var k := V1(RAW, h);
      RefusedIsReported(keys, RawCids(marked), failing, k);
      assert Closing(keys, RawCids(marked), failing) == [CannotDeleteSomeBlocks];
    }
  }

  lemma DoomedStep(keys: seq<Cid>, i: nat, marked: set<Cid>, failing: set<Hash>)
    requires i < |keys|
    ensures var before, now := Doomed(keys[..i], marked, failing), Doomed(keys[..i + 1], marked, failing);
            && now == before + DoomedOf(keys[i], marked, failing)
            && Hashes(now) == Hashes(before) + Hashes(DoomedOf(keys[i], marked, failing))
    ensures SweepReports(keys[..i + 1], marked, failing)
         == SweepReports(keys[..i], marked, failing) + ReportsOn(keys[i], marked, failing)
    ensures Deletable(keys[..i + 1], marked, failing) <==>
            Deletable(keys[..i], marked, failing) && (keys[i] in marked || keys[i].hash !in failing)
  {
    assert keys[..i + 1][..i] == keys[..i] && keys[..i + 1] == keys[..i] + [keys[i]];
  }

  /** The store refuses to delete none of the unmarked keys. */
  ghost predicate Deletable(keys: seq<Cid>, marked: set<Cid>, failing: set<Hash>) {
    forall k :: k in keys && k !in marked ==> k.hash !in failing
  }

  /** Everything marked since `base` was reached and, if `whole`, its children are marked or waiting. */
  ghost predicate Progress(
    s: Store, roots: set<Cid>, base: set<Cid>, marked: set<Cid>, waiting: set<Cid>, whole: bool)
  {
    && base <= marked
    && marked - base <= Reached(s, roots, base)
    && waiting <= Reached(s, roots, base) + base
    && (whole ==> ClosedUnder(s, marked - base, marked + waiting))
  }

  function AsCidV1(cids: seq<Cid>): set<Cid> {
    set c | c in cids :: ToCidV1(c)
  }

  lemma TakeOne(pending: seq<Cid>, i: nat)
    requires i < |pending|
    ensures AsCidV1(pending) == AsCidV1(pending[..i] + pending[i + 1..]) + {ToCidV1(pending[i])}
    ensures forall c :: c in pending ==> c == pending[i] || c in pending[..i] + pending[i + 1..]
  {
  }

  /** Visiting a waiting node for the first time puts its children in its place, unless they cannot be read now. */
  lemma VisitKeepsProgress(
    s: Store, roots: set<Cid>, base: set<Cid>, marked: set<Cid>, rest: set<Cid>, v: Cid, whole: bool)
    requires Progress(s, roots, base, marked, rest + {v}, whole) && v !in marked
    ensures v in Reached(s, roots, base) && v in Universe(s, roots)
    ensures Progress(s, roots, base, marked + {v}, rest + Next(s, v), whole)
    ensures Progress(s, roots, base, marked + {v}, rest, false)
  {
    ReachedClosed(s, roots, base);
  }

  /** What deleting the doomed among the first `deleted` keys leaves, seen by hash. */
  lemma SweptStore(keys: seq<Cid>, present: set<Hash>, raw: set<Cid>, failing: set<Hash>, deleted: nat, reported: nat)
    requires Lists(keys, present) && reported <= deleted <= |keys|
    ensures var gone := Hashes(Doomed(keys[..deleted], raw, failing));
            && (forall h :: h in gone ==> h in present && V1(RAW, h) !in raw && h !in failing)
            && (deleted == |keys| ==> forall h :: h in present && V1(RAW, h) !in raw && h !in failing ==> h in gone)
            && Distinct(Doomed(keys[..reported], raw, failing))
            && (forall k :: k in Doomed(keys[..reported], raw, failing) ==>
                  k == V1(RAW, k.hash) && k.hash in present && k.hash in gone)
            && (reported == deleted ==> forall h :: h in gone ==> V1(RAW, h) in Doomed(keys[..reported], raw, failing))
  {
    DoomedHolds(keys[..deleted], raw, failing);
    DoomedHolds(keys[..reported], raw, failing);
    if deleted == |keys| { assert keys[..deleted] == keys; }
    assert keys[..deleted][..reported] == keys[..reported];
    assert forall k :: k in keys[..reported] ==> k in keys[..deleted];
    assert forall k :: k in keys[..deleted] ==> k in keys;
  }

  /** The removed keys are of blocks that were stored and are gone, each once; of all of them, if `all`. */
  ghost predicate Truthful(removed: seq<Cid>, before: set<Hash>, after: set<Hash>, all: bool) {
    && Distinct(removed)
    && (forall k :: k in removed ==> k == V1(RAW, k.hash) && k.hash in before && k.hash !in after)
    && (all ==> forall h :: h in before && h !in after ==> V1(RAW, h) in removed)
  }

  /** What a sweep of the store `before`, with this set marked, may leave; all unmarked blocks are gone if `whole`. */
  ghost predicate Collected(before: set<Hash>, after: set<Hash>, marked: set<Cid>, failing: set<Hash>, whole: bool) {
    && before * MarkedHashes(marked) <= after <= before
    && (whole ==> after == before * (MarkedHashes(marked) + failing))
  }

  /** The same in terms of the marked set before it was stripped of codecs. */
  lemma CollectedStore(
    keys: seq<Cid>, before: set<Hash>, after: set<Hash>, marked: set<Cid>, failing: set<Hash>,
    deleted: nat, reported: nat)
    requires Lists(keys, before) && reported <= deleted <= |keys|
    requires after == before - Hashes(Doomed(keys[..deleted], RawCids(marked), failing))
    ensures Collected(before, after, marked, failing, deleted == |keys|)
    ensures deleted == 0 ==> after == before
    ensures Truthful(Doomed(keys[..reported], RawCids(marked), failing), before, after, reported == deleted)
  {
    RawIsByHash(marked);
    SweptStore(keys, before, RawCids(marked), failing, deleted, reported);
  }

  /** The marked multihashes, told by links. */
  lemma KeepsByLinks(s: Store, r: Roots)
    ensures forall h :: Wanted(s, r, h) ==> h in MarkedHashes(MarkedSet(s, r))
    ensures forall h :: h in MarkedHashes(MarkedSet(s, r)) ==> Claimed(s, r, h)
    ensures Markable(s, r) ==> WalkedReadable(s, r)
  {
    forall h | Wanted(s, r, h) ensures h in MarkedHashes(MarkedSet(s, r)) { WantedIsMarked(s, r, h); }
    forall h | h in MarkedHashes(MarkedSet(s, r)) ensures Claimed(s, r, h) { MarkedIsClaimed(s, r, h); }
    WalkedCleanByLinks(s, r);
  }

  /** The errors with which marking may fail. */
  predicate FailsWith(r: Roots, cancelled: bool, report: Report) {
    if NoStreamError(r.direct) then
      report == CannotFetchAllLinks || (cancelled && report == ContextCancelled)
    else
      report == StreamFailed || (cancelled && report in {ContextCancelled, CannotFetchAllLinks})
  }

  function RawCids(marked: set<Cid>): set<Cid> {
    set c | c in marked :: ToRawCid(c)
  }

  /** The raw set tells the marked multihashes. */
  lemma RawIsByHash(marked: set<Cid>)
    ensures forall h :: V1(RAW, h) in RawCids(marked) <==> h in MarkedHashes(marked)
  {
    forall h ensures V1(RAW, h) in RawCids(marked) <==> h in MarkedHashes(marked) {
      if V1(RAW, h) in RawCids(marked) {
        var c :| c in marked && ToRawCid(c) == V1(RAW, h);
        assert c.hash == h;
      }
      if c :| c in marked && c.hash == h {
        assert ToRawCid(c) in RawCids(marked);
      }
    }
  }

  class Collector {
    const decode: map<Cid, seq<Cid>>
    const insecure: set<Hash>
    var present: set<Hash>
    var gcs: set<Cid>
    var errors: bool
    var output: seq<Report>
    var ctx: Context
    /** The blocks deleted under the cancelled context. */
    ghost var late: nat

    constructor (s: Store, ctx: Context)
      ensures Source() == s && output == [] && gcs == {} && !errors && this.ctx == ctx && late == 0
    {
      decode, insecure, present := s.decode, s.insecure, s.present;
      gcs, errors, output := {}, false, [];
      this.ctx, late := ctx, 0;
    }

    function Source(): Store
      reads this`present
    {
      Store(decode, insecure, present)
    }

    predicate Live()
      reads this`ctx
    {
      !ctx.Cancelled?
    }

    /** A context that is never cancelled stays so, and so does a cancelled one. */
    twostate predicate Older()
      reads this`ctx
    {
      (old(ctx).Background? ==> ctx.Background?) && (old(ctx).Cancelled? ==> ctx.Cancelled?)
    }

    /** Waits for something or the cancellation of the context. */
    method Look() returns (fate: Fate)
      modifies this`ctx
      ensures (ctx, fate) == Looked(old(ctx))
      ensures fate.Unnoticed? || ctx.Cancelled?
      ensures Older()
    {
      var (after, what) := Looked(ctx);
      ctx, fate := after, what;
    }

    /** Sends an error report, unless the cancellation is noticed first. */
    method TrySend(report: Report) returns (sent: bool)
      requires !report.KeyRemoved?
      modifies this`output, this`ctx
      ensures sent || ctx.Cancelled?
      ensures output == if sent then old(output) + [report] else old(output)
      ensures ErrorsOnly(old(output), output)
      ensures Older()
    {
      var fate := Look();
      sent := !fate.Noticed?;
      if sent {
        output := output + [report];
      }
    }

    /** Unless an error was noted, everything marked since `base` is readable. */
    ghost predicate ErrorsNoted(mode: Mode, base: set<Cid>)
      reads this`present, this`gcs, this`errors
    {
      errors || forall c :: c in gcs - base ==> Readable(Source(), mode, c)
    }

    /** An error noted since there were `before` reports has been reported, unless the context is cancelled. */
    ghost predicate NewErrorReported(noted: bool, before: nat)
      reads this`errors, this`output, this`ctx
    {
      before <= |output| && (errors && !noted && Live() ==> before < |output|)
    }

    ghost predicate SomeUnreadable(mode: Mode, roots: set<Cid>, base: set<Cid>)
      reads this`present
    {
      exists c :: c in Reached(Source(), roots, base) && !Readable(Source(), mode, c)
    }

    /** A walk of the set around `base` has come so far; only a cancelled one may have lost children. */
    ghost predicate Walked(roots: set<Cid>, base: set<Cid>, waiting: set<Cid>)
      reads this`present, this`gcs, this`ctx
    {
      Progress(Source(), roots, base, gcs, waiting, Live())
    }

    /**
     The links a walk goes on to after visiting `c`. A fetch error is noted and
     reported but does not stop the walk; a rejected hash does, and so does a
     cancellation noticed instead of reporting. A cancelled read may fail for no other reason.
     */
    method FetchLinks(mode: Mode, c: Cid) returns (links: seq<Cid>, outcome: Outcome)
      modifies this`errors, this`output, this`ctx
      ensures Live() ==> (outcome.Done? <==> ToCidV1(c).hash !in insecure)
      ensures ToCidV1(c).hash in insecure ==> outcome == Error(InsecureHash(c)) && errors == old(errors)
      ensures outcome.Done? ==> AsCidV1(links) == Next(Source(), ToCidV1(c)) || (!Live() && links == [] && errors)
      ensures outcome.Done? && Live() ==> links == if c.hash in present then BlockLinks(decode, c) else []
      ensures old(errors) || !Readable(Source(), mode, ToCidV1(c)) ==> errors || outcome.Error?
      ensures outcome.Error? || errors ==> old(errors) || !Readable(Source(), mode, ToCidV1(c)) || !Live()
      ensures outcome.Error? ==> outcome.report == InsecureHash(c) || (errors && outcome.report == ContextCancelled)
      ensures old(errors) ==> errors
      ensures Live() ==>
                output == old(output)
                          + if outcome.Done? && !Readable(Source(), mode, ToCidV1(c)) then [CannotFetchLinks(c)] else []
      ensures ErrorsOnly(old(output), output)
      ensures Older()
    {
      links, outcome := [], Done;
      if c.hash in insecure {
        return [], Error(InsecureHash(c));
      }
      var fate := Look();
      match if fate.CutShort? then Failed else GetLinks(Source(), c) {
        case Links(found) => links := found;
        case failure =>
          if !(mode == BestEffort && failure.NotFound?) {
            errors := true;
            var sent := TrySend(CannotFetchLinks(c));
            outcome := if sent then Done else Error(ContextCancelled);
          }
      }
    }

    /** Marks one node; the links to go on to are those of a node not marked before. */
    method Visit(mode: Mode, c: Cid, ghost roots: set<Cid>, ghost base: set<Cid>, ghost rest: seq<Cid>)
      returns (links: seq<Cid>, outcome: Outcome)
      requires Walked(roots, base, AsCidV1(rest) + {ToCidV1(c)}) && ErrorsNoted(mode, base)
      modifies this`gcs, this`errors, this`output, this`ctx
      ensures gcs == old(gcs) + {if c.V0? then V1(0x70, c.hash) else c}
      ensures outcome.Done? ==> Walked(roots, base, AsCidV1(rest + links)) && ErrorsNoted(mode, base)
      ensures ToCidV1(c) in old(gcs) ==> links == []
      ensures ToCidV1(c) !in old(gcs) ==> ToCidV1(c) in Universe(Source(), roots)
      ensures errors || outcome.Error? ==> old(errors) || SomeUnreadable(mode, roots, base) || !Live()
      ensures old(errors) ==> errors
      ensures NewErrorReported(old(errors), |old(output)|)
      ensures outcome.Error? ==> !outcome.report.KeyRemoved?
      ensures ErrorsOnly(old(output), output)
      ensures Older()
    {
      links, outcome := [], Done;
      assert rest + [] == rest;
      assert AsCidV1(rest) + {ToCidV1(c)} <= gcs + AsCidV1(rest) + {ToCidV1(c)};
      if ToCidV1(c) !in gcs {
        VisitKeepsProgress(Source(), roots, base, gcs, AsCidV1(rest), ToCidV1(c), Live());
        gcs := gcs + {ToCidV1(c)};
        links, outcome := FetchLinks(mode, c);
        if outcome.Done? {
          assert AsCidV1(rest + links) == AsCidV1(rest) + AsCidV1(links);
        }
      }
    }

    /** Visits some waiting node, unless the cancellation is noticed; its children then wait in its place. */
    method VisitNext(mode: Mode, pending: seq<Cid>, ghost roots: set<Cid>, ghost base: set<Cid>)
      returns (pending': seq<Cid>, outcome: Outcome)
      requires pending != []
      requires Walked(roots, base, AsCidV1(pending)) && ErrorsNoted(mode, base)
      modifies this`gcs, this`errors, this`output, this`ctx
      ensures old(gcs) <= gcs
      ensures outcome.Done? ==> Walked(roots, base, AsCidV1(pending')) && ErrorsNoted(mode, base)
      ensures outcome.Done? ==> forall c :: c in pending ==> ToCidV1(c) in gcs || c in pending'
      ensures (Universe(Source(), roots) - gcs < Universe(Source(), roots) - old(gcs))
              || (gcs == old(gcs) && |pending'| < |pending|) || outcome.Error?
      ensures errors || outcome.Error? ==> old(errors) || SomeUnreadable(mode, roots, base) || !Live()
      ensures old(errors) ==> errors
      ensures NewErrorReported(old(errors), |old(output)|)
      ensures outcome.Error? ==> !outcome.report.KeyRemoved?
      ensures ErrorsOnly(old(output), output)
      ensures Older()
    {
      var fate := Look();
      if fate.Noticed? {
        return pending, Error(ContextCancelled);
      }
      var i :| 0 <= i < |pending|;
      var c, rest := pending[i], pending[..i] + pending[i + 1..];
      TakeOne(pending, i);
      var links: seq<Cid>;
      links, outcome := Visit(mode, c, roots, base, rest);
      pending' := rest + links;
    }

    /**
     Visits a root and, below every node visited for the first time, its children.
     The nodes waiting to be visited are taken in no particular order.
     */
    method Walk(mode: Mode, root: Cid, ghost roots: set<Cid>, ghost base: set<Cid>) returns (outcome: Outcome)
      requires ToCidV1(root) in roots
      requires Walked(roots, base, {}) && ErrorsNoted(mode, base)
      modifies this`gcs, this`errors, this`output, this`ctx
      ensures outcome.Done? ==> Walked(roots, base, {}) && ErrorsNoted(mode, base)
      ensures old(gcs) <= gcs
      ensures outcome.Done? ==> ToCidV1(root) in gcs
      ensures outcome.Error? ==> !outcome.report.KeyRemoved?
      ensures errors || outcome.Error? ==> old(errors) || SomeUnreadable(mode, roots, base) || !Live()
      ensures old(errors) ==> errors
      ensures NewErrorReported(old(errors), |old(output)|)
      ensures ErrorsOnly(old(output), output)
      ensures Older()
    {
      var pending := [root];
      if ToCidV1(root) !in base { RootReached(Source(), roots, base, ToCidV1(root)); }
      while pending != []
        invariant Older()
        invariant Walked(roots, base, AsCidV1(pending)) && ErrorsNoted(mode, base)
        invariant old(gcs) <= gcs
        invariant ToCidV1(root) in gcs || root in pending
        invariant errors ==> old(errors) || SomeUnreadable(mode, roots, base) || !Live()
        invariant old(errors) ==> errors
        invariant NewErrorReported(old(errors), |old(output)|)
        invariant ErrorsOnly(old(output), output)
        decreases Universe(Source(), roots) - gcs, |pending|
      {
        pending, outcome := VisitNext(mode, pending, roots, base);
        if outcome.Error? {
          return;
        }
      }
      outcome := Done;
    }

    /**
     Marks everything the streamed roots reach. Unless cancelled, it ends without any
     error exactly when the phase is clean, and has then marked exactly what can be
     reached around what was marked before. A stream closed by the cancellation ends
     it without an error as well.
     */
    method Descendants(mode: Mode, roots: seq<StreamedPin>) returns (outcome: Outcome)
      modifies this`gcs, this`errors, this`output, this`ctx
      ensures old(gcs) <= gcs
      ensures Live() ==> (errors || outcome.Error? <==> old(errors) || !PhaseClean(Source(), mode, roots, old(gcs)))
      ensures Live() && !errors && outcome.Done? ==> gcs == old(gcs) + Reached(Source(), Keys(roots), old(gcs))
      ensures Looked(old(ctx)).1.CutShort? ==>
                outcome.Done? && gcs == old(gcs) && errors == old(errors) && ctx == Looked(old(ctx)).0
      ensures outcome.Error? ==> !outcome.report.KeyRemoved?
      ensures NewErrorReported(old(errors), |old(output)|)
      ensures ErrorsOnly(old(output), output)
      ensures Older()
    {
      ghost var base := gcs;
      var i := 0;
      while true
        invariant Older() && 0 <= i <= |roots|
        invariant Walked(Keys(roots), base, {}) && ErrorsNoted(mode, base)
        invariant forall j :: 0 <= j < i ==> roots[j].Pin? && ToCidV1(roots[j].key) in gcs
        invariant errors ==> old(errors) || SomeUnreadable(mode, Keys(roots), base) || !Live()
        invariant old(errors) ==> errors
        invariant i == 0 ==> gcs == base && errors == old(errors) && ctx == old(ctx)
        invariant i > 0 ==> !Looked(old(ctx)).1.CutShort?
        invariant NewErrorReported(old(errors), |old(output)|)
        invariant ErrorsOnly(old(output), output)
        decreases |roots| - i
      {
        var fate := Look();
        if fate.Noticed? {
          return Error(ContextCancelled);
        }
        if fate.CutShort? {
          return Done;
        }
        if i == |roots| {
          break;
        }
        assert roots[i] in roots;
        if roots[i].StreamError? {
          return Error(StreamFailed);
        }
        outcome := Walk(mode, roots[i].key, Keys(roots), base);
        if outcome.Error? {
          return;
        }
        i := i + 1;
      }
      if Live() { ReachedWithin(Source(), Keys(roots), base, gcs); }
      outcome := Done;
    }

    /**
     One walking phase of the marking: an error that ends it is noted and reported.
     It stops the marking when the cancellation is noticed instead of reporting.
     */
    method Phase(mode: Mode, roots: seq<StreamedPin>) returns (stop: bool)
      modifies this`gcs, this`errors, this`output, this`ctx
      ensures Live() ==> !stop
      ensures Live() ==> (errors <==> old(errors) || !PhaseClean(Source(), mode, roots, old(gcs)))
      ensures Live() && !errors ==> gcs == old(gcs) + Reached(Source(), Keys(roots), old(gcs))
      ensures Looked(old(ctx)).1.CutShort? ==>
                !stop && gcs == old(gcs) && errors == old(errors) && ctx == Looked(old(ctx)).0
      ensures NewErrorReported(old(errors), |old(output)|)
      ensures ErrorsOnly(old(output), output)
      ensures Older()
    {
      stop := false;
      var outcome := Descendants(mode, roots);
      if outcome.Error? {
        errors := true;
        var sent := TrySend(outcome.report);
        stop := !sent;
      }
    }

    /** Adds the direct pins, which are not walked; an error in their stream is final. */
    method AddDirect(pins: seq<StreamedPin>) returns (outcome: Outcome)
      modifies this`gcs, this`ctx
      ensures Live() ==> (outcome.Done? <==> NoStreamError(pins))
      ensures Live() && outcome.Done? ==> gcs == old(gcs) + Keys(pins)
      ensures outcome.Error? ==>
                || (outcome.report == StreamFailed && !NoStreamError(pins))
                || (outcome.report == ContextCancelled && !Live())
      ensures Looked(old(ctx)).1.CutShort? ==> outcome.Done? && gcs == old(gcs) && ctx == Looked(old(ctx)).0
      ensures Older()
    {
      var i := 0;
      while true
        invariant Older() && 0 <= i <= |pins|
        invariant gcs == old(gcs) + Keys(pins[..i])
        invariant NoStreamError(pins[..i])
        invariant i == 0 ==> ctx == old(ctx)
        invariant i > 0 ==> !Looked(old(ctx)).1.CutShort?
        decreases |pins| - i
      {
        var fate := Look();
        if fate.Noticed? {
          return Error(ContextCancelled);
        }
        if fate.CutShort? || i == |pins| {
          break;
        }
        assert pins[..i + 1] == pins[..i] + [pins[i]];
        assert Keys(pins[..i + 1]) == Keys(pins[..i]) + Keys([pins[i]]);
        if pins[i].StreamError? {
          assert pins[i] in pins;
          return Error(StreamFailed);
        }
        gcs := gcs + {ToCidV1(pins[i].key)};
        i := i + 1;
      }
      assert pins[..|pins|] == pins;
      outcome := Done;
    }

    /** The first two phases, on a new set: the recursive pins and the best-effort roots. */
    method MarkWalked(r: Roots) returns (stop: bool)
      modifies this`gcs, this`errors, this`output, this`ctx
      ensures Live() ==> !stop
      ensures Live() ==> (errors <==> !WalkedClean(Source(), r))
      ensures Live() && !errors ==> gcs == AfterBestEffort(Source(), r)
      ensures old(ctx) == QUIET ==> !stop && !errors && gcs == {} && ctx == Cancelled([CutShort, CutShort])
      ensures NewErrorReported(false, |old(output)|)
      ensures ErrorsOnly(old(output), output)
      ensures Older()
    {
      errors, gcs := false, {};
      stop := Phase(Strict, r.recursive);
      if !stop {
        assert Live() && !errors ==> gcs == AfterRecursive(Source(), r);
        stop := Phase(BestEffort, AsPins(r.bestEffort));
      }
    }

    /**
     The set of nodes to keep. Unless cancelled, it succeeds exactly when no phase
     meets an error, and the set is then the marked set. Cancelled, it may fail, or
     succeed with too small a set.
     */
    method ColoredSet(r: Roots) returns (outcome: Outcome)
      modifies this`gcs, this`errors, this`output, this`ctx
      ensures Live() ==> (outcome.Done? <==> Markable(Source(), r))
      ensures Live() && outcome.Done? ==> gcs == MarkedSet(Source(), r)
      ensures Live() && outcome.Done? ==> forall h :: Wanted(Source(), r, h) ==> h in MarkedHashes(gcs)
      ensures Live() && outcome.Done? ==> forall h :: h in MarkedHashes(gcs) ==> Claimed(Source(), r, h)
      ensures outcome.Error? ==> FailsWith(r, !Live(), outcome.report)
      ensures Live() && outcome == Error(CannotFetchAllLinks) ==> |output| > |old(output)|
      ensures old(ctx) == QUIET ==> outcome.Done? && gcs == {}
      ensures ErrorsOnly(old(output), output)
      ensures Older()
    {
      KeepsByLinks(Source(), r);
      var stop := MarkWalked(r);
      if stop {
        return Error(ContextCancelled);
      }
      outcome := AddDirect(r.direct);
      if outcome.Error? {
        return;
      }
      assert Live() && !errors ==> gcs == AfterDirect(Source(), r);
      stop := Phase(Strict, r.internals);
      if stop {
        return Error(ContextCancelled);
      }
      outcome := if errors then Error(CannotFetchAllLinks) else Done;
    }

    /** Strips the codecs: the blockstore lists raw keys. */
    method ToRawCids()
      modifies this`gcs
      ensures gcs == RawCids(old(gcs))
    {
      var newSet, todo := {}, gcs;
      while todo != {}
        invariant todo <= gcs
        invariant newSet == RawCids(gcs - todo)
        decreases todo
      {
        var c :| c in todo;
        todo := todo - {c};
        assert gcs - todo == gcs - (todo + {c}) + {c};
        newSet := newSet + {ToRawCid(c)};
      }
      gcs := newSet;
    }

    /** Deletes one block and reports on it, unless the cancellation is noticed first. */
    method DeleteBlock(k: Cid, failing: set<Hash>) returns (err: bool, sent: bool)
      modifies this`present, this`output, this`ctx, this`late
      ensures err <==> k.hash in failing
      ensures late == old(late) + if old(ctx).Cancelled? && !err then 1 else 0
      ensures sent || ctx.Cancelled?
      ensures present == old(present) - if err then {} else {k.hash}
      ensures output == old(output) + if sent then [if err then CannotDeleteBlock(k) else KeyRemoved(k)] else []
      ensures Older()
    {
      err := k.hash in failing;
      if !err {
        present := present - {k.hash};
        late := late + if ctx.Cancelled? then 1 else 0;
      }
      var fate := Look();
      sent := !fate.Noticed?;
      if sent {
        output := output + [if err then CannotDeleteBlock(k) else KeyRemoved(k)];
      }
    }

    /** The sweep has deleted among the first `deleted` keys and reported on the first `reported`. */
    ghost predicate SweptTo(
      keys: seq<Cid>, failing: set<Hash>, deleted: nat, reported: nat, before: set<Hash>, sent: seq<Report>)
      requires deleted <= |keys| && reported <= |keys|
      reads this`present, this`output, this`gcs
    {
      && present == before - Hashes(Doomed(keys[..deleted], gcs, failing))
      && output == sent + SweepReports(keys[..reported], gcs, failing)
    }

    /** One turn of the sweep: takes the next key, if it gets one, and deletes its block if unmarked. */
    method SweepKey(keys: seq<Cid>, i: nat, failing: set<Hash>, ghost before: set<Hash>, ghost reports: seq<Report>)
      returns (taken: bool, err: bool, sent: bool)
      requires Live() && late == 0 && i < |keys| && SweptTo(keys, failing, i, i, before, reports)
      modifies this`present, this`output, this`ctx, this`late
      ensures err <==> taken && keys[i] !in gcs && keys[i].hash in failing
      ensures sent ==> taken
      ensures sent || ctx.Cancelled?
      ensures SweptTo(keys, failing, if taken then i + 1 else i, if sent then i + 1 else i, before, reports)
      ensures (if Live() then late == 0 else late <= 1) && Older()
    {
      DoomedStep(keys, i, gcs, failing);
      var k := keys[i];
      var fate := Look();
      taken, err, sent := fate.Unnoticed?, false, fate.Unnoticed?;
      if taken && k !in gcs {
        err, sent := DeleteBlock(k, failing);
      }
    }

    /**
     The loop over the listed keys: `deleted` of them are dealt with, and `reported`
     of them reported. It asks for the context's error at every turn, and so deals
     with no key under a context cancelled before, and with one at most under a
     context cancelled meanwhile.
     */
    method SweepKeys(keys: seq<Cid>, failing: set<Hash>)
      returns (failed: bool, ghost deleted: nat, ghost reported: nat)
      requires late == 0
      modifies this`present, this`output, this`ctx, this`late
      ensures reported <= deleted <= |keys| && deleted - reported <= 1
      ensures Live() ==> reported == |keys|
      ensures old(ctx).Cancelled? ==> deleted == 0 && ctx == old(ctx)
      ensures SweptTo(keys, failing, deleted, reported, old(present), old(output))
      ensures failed <==> !Deletable(keys[..deleted], gcs, failing)
      ensures late <= 1 && Older()
    {
      failed := false;
      for i := 0 to |keys|
        invariant old(ctx).Cancelled? ==> i == 0 && ctx == old(ctx)
        invariant (if Live() then late == 0 else late <= 1) && Older()
        invariant SweptTo(keys, failing, i, i, old(present), old(output))
        invariant failed <==> !Deletable(keys[..i], gcs, failing)
      {
        deleted, reported := i, i;
        if !Live() {
          return;
        }
        DoomedStep(keys, i, gcs, failing);
        var taken, err, sent := SweepKey(keys, i, failing, old(present), old(output));
        failed := failed || err;
        if !sent {
          deleted := if taken then i + 1 else i;
          return;
        }
      }
      deleted, reported := |keys|, |keys|;
    }

    /**
     Deletes every listed block whose key is not in the set. `failing` are the
     blocks the blockstore refuses to delete. All keys are dealt with and reported on
     unless the context is cancelled; then at most one deletion goes unreported.
     A failure is closed by an error of its own, if that still gets through.
     */
    method Sweep(keys: seq<Cid>, failing: set<Hash>)
      returns (goesOn: bool, ghost deleted: nat, ghost reported: nat)
      requires late == 0
      modifies this`present, this`output, this`ctx, this`late
      ensures reported <= deleted <= |keys| && deleted - reported <= 1
      ensures Live() ==> reported == |keys| && goesOn
      ensures old(ctx).Cancelled? ==> deleted == 0 && goesOn
      ensures present == old(present) - Hashes(Doomed(keys[..deleted], gcs, failing))
      ensures output == old(output) + SweepReports(keys[..reported], gcs, failing)
                        + if goesOn then Closing(keys[..deleted], gcs, failing) else []
      ensures !goesOn ==> !Deletable(keys[..deleted], gcs, failing)
      ensures late <= 1 && Older()
    {
      var failed;
      failed, deleted, reported := SweepKeys(keys, failing);
      goesOn := true;
      if failed {
        goesOn := TrySend(CannotDeleteSomeBlocks);
      }
    }

    /** A sweep of the whole listed store, in terms of the marked set before it was stripped of codecs. */
    method SweepListed(keys: seq<Cid>, failing: set<Hash>, ghost marked: set<Cid>) returns (goesOn: bool)
      requires gcs == RawCids(marked) && Lists(keys, present) && RemovedKeys(output) == [] && late == 0
      modifies this`present, this`output, this`ctx, this`late
      ensures Live() ==> goesOn
      ensures Collected(old(present), present, marked, failing, Live())
      ensures old(ctx).Cancelled? ==> present == old(present)
      ensures Truthful(RemovedKeys(output), old(present), present, Live())
      ensures Live() ==> AllExplained(output, present, marked)
      ensures late <= 1 && Older()
    {
      ghost var deleted, reported;
      goesOn, deleted, reported := Sweep(keys, failing);
      if Live() {
        assert keys[..|keys|] == keys;
        SweepExplains(old(output), keys, old(present), marked, failing, output);
      }
      SweepOutput(old(output), output, keys, reported, gcs, failing,
        if goesOn then Closing(keys[..deleted], gcs, failing) else []);
      CollectedStore(keys, old(present), present, marked, failing, deleted, reported);
    }

    /**
     Everything after a successful marking: exactly the blocks with an unmarked
     multihash go, unless cancelled and but for those that cannot be deleted. If the
     context is cancelled already, none goes, whatever is marked.
     */
    method Collect(listing: Listing, failing: set<Hash>, datastore: Datastore)
      requires RemovedKeys(output) == [] && late == 0
      requires listing.Listed? ==> Lists(listing.keys, present)
      modifies this`gcs, this`present, this`output, this`ctx, this`late
      ensures Collected(old(present), present, old(gcs), failing, listing.Listed? && Live())
      ensures listing.Unlistable? || old(ctx).Cancelled? ==> present == old(present)
      ensures Live() && listing.Unlistable? ==> output == old(output) + [ListingFailed]
      ensures Live() && listing.Listed? ==> AllExplained(output, present, old(gcs))
      ensures Live() && listing.Listed? && datastore == Collecting(true) ==>
                output != [] && output[|output| - 1] == DatastoreFailed
      ensures Truthful(RemovedKeys(output), old(present), present, Live())
      ensures late <= 1 && Older()
    {
      ghost var marked := gcs;
      ToRawCids();
      var sent;
      if listing.Unlistable? {
        sent := TrySend(ListingFailed);
        ErrorsRemoveNothing(old(output), output);
        return;
      }
      var goesOn := SweepListed(listing.keys, failing, marked);
      if goesOn && datastore == Collecting(true) {
        ghost var swept := output;
        sent := TrySend(DatastoreFailed);
        ErrorsRemoveNothing(swept, output);
        StillExplained(swept, output, present, marked);
      }
    }

    /**
     A whole collection; `marking` is how its marking ended, `cut` whether the context
     was cancelled by then. A block whose multihash is that of a marked CID, whatever
     its version or codec, is never deleted; an error or a cancellation while marking,
     or an error while listing, leaves the store as it was; and otherwise, unless
     cancelled, exactly the other blocks go, but for those that cannot be deleted.
     After a cancellation at most one more block goes.
     */
    method Run(r: Roots, listing: Listing, failing: set<Hash>, datastore: Datastore)
      returns (marking: Outcome, ghost cut: bool)
      requires output == [] && late == 0
      requires listing.Listed? ==> Lists(listing.keys, present)
      modifies this
      ensures old(present) * MarkedHashes(MarkedSet(old(Source()), r)) <= present <= old(present)
      ensures !Markable(old(Source()), r) || cut || listing.Unlistable? ==> present == old(present)
      ensures old(ctx).Cancelled? ==> cut
      ensures cut ==> !Live()
      ensures !cut ==> (marking.Done? <==> Markable(old(Source()), r))
      ensures marking.Error? ==> FailsWith(r, cut, marking.report)
      ensures marking.Error? && Live() ==> output != [] && output[|output| - 1] == marking.report
      ensures marking == Error(CannotFetchAllLinks) && Live() ==> |output| > 1
      ensures Markable(old(Source()), r) && Live() && listing.Listed? ==>
                && present == old(present) * (MarkedHashes(MarkedSet(old(Source()), r)) + failing)
                && (datastore == Collecting(true) ==> output != [] && output[|output| - 1] == DatastoreFailed)
                && AllExplained(output, present, MarkedSet(old(Source()), r))
      ensures forall h :: h in old(present) && Wanted(old(Source()), r, h) ==> h in present
      ensures !WalkedReadable(old(Source()), r) ==> present == old(present)
      ensures marking.Done? && Live() && listing.Listed? ==>
                forall h :: h in present ==> h in failing || Claimed(old(Source()), r, h)
      ensures Truthful(RemovedKeys(output), old(present), present, Live())
      ensures late <= 1 && Older()
    {
      KeepsByLinks(Source(), r);
      marking := ColoredSet(r);
      cut := !Live();
      ErrorsRemoveNothing([], output);
      if marking.Done? {
        Collect(listing, failing, datastore);
      } else {
        var sent := TrySend(marking.report);
        ErrorsRemoveNothing([], output);
      }
    }
  }

  /**
   The context is cancelled and the streams of roots are closed: marking succeeds
   without having marked the pinned block. Only that the sweep asks for the context's error
   keeps the block.
   */
  method TruncatedMarkingExample()
    returns (s: Store, r: Roots, outcome: Outcome, marked: set<Cid>, left: set<Hash>)
    ensures Markable(s, r) && outcome.Done? && V1(RAW, 1) in MarkedSet(s, r) - marked
    ensures left == s.present == {1}
  {
    var c := V1(RAW, 1);
    s, r := Store(map[], {}, {1}), Roots([], [c], [], []);
    assert AsPins(r.bestEffort)[0] == Pin(c) && Keys(AsPins(r.bestEffort)) == {c} && Keys(r.recursive) == {};
    RootReached(s, {c}, {}, c);
    assert AfterRecursive(s, r) == {};
    var collector := new Collector(s, QUIET);
    outcome := collector.ColoredSet(r);
    ErrorsRemoveNothing([], collector.output);
    marked := collector.gcs;
    collector.Collect(Listed([c]), {}, Passive);
    left := collector.present;
  }
}
