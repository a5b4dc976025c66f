/** The list of bootstrap peers: adding to it and removing from it. */
module Bootstrap {
  import opened Sequences
  import opened Wrappers

  type Peer = nat
  type Addr = nat

  /** The way an address is written back, or another text for the same address. */
  datatype Spelling = Canonical | Variant(text: string)

  /**
   An entry of the list: its text, told by what it means and how that is spelled or,
   where it means no peer, by the text itself.
   */
  datatype Entry =
    | Auto
    | At(peer: Peer, addr: Addr, spelling: Spelling)
    | Bare(peer: Peer, spelling: Spelling)
    | NotAPeer(text: string)
    | Garbage(text: string)

  /** A peer with the transport addresses it is listed under. */
  datatype AddrInfo = AddrInfo(id: Peer, addrs: seq<Addr>)

  type Pair = (Peer, Addr)

  datatype Failure = AutoManaged | BadEntry

  /* ----- Adding ----- */

  /** Appends the entries not found in the map, and puts them in it. `done` are those looked at before. */
  method AppendNew(list: seq<Entry>, addedMap: set<Entry>, more: seq<Entry>, ghost done: seq<Entry>)
    returns (list': seq<Entry>, addedMap': set<Entry>)
    requires list == FirstOccurrences(done) && forall e :: e in addedMap <==> e in list
    ensures list' == FirstOccurrences(done + more) && forall e :: e in addedMap' <==> e in list'
  {
    list', addedMap' := list, addedMap;
    ghost var all := done + more;
    assert all[..|done|] == done;
    for i := 0 to |more|
      invariant list' == FirstOccurrences(all[..|done| + i])
      invariant forall e :: e in addedMap' <==> e in list'
    {
      FirstOccurrencesStep(all, |done| + i);
      if more[i] !in addedMap' {
        list' := list' + [more[i]];
        addedMap' := addedMap' + {more[i]};
      }
    }
    assert all[..|all|] == all;
  }

  /* ----- Grouping by peer ----- */

  predicate Names(e: Entry, p: Peer) {
    (e.At? || e.Bare?) && e.peer == p
  }

  /** The transport addresses listed for a peer, in order. */
  function Transports(entries: seq<Entry>, p: Peer): seq<Addr> {
    if entries == [] then []
    else
      var init, last := entries[..|entries| - 1], entries[|entries| - 1];
      Transports(init, p) + if last.At? && last.peer == p then [last.addr] else []
  }

  /** Every entry is the address of a peer; "auto" is not. */
  predicate Parses(entries: seq<Entry>) {
    forall e :: e in entries ==> e.At? || e.Bare?
  }

  /** `infos` are the entries grouped by peer, the peers in any order. */
  ghost predicate Groups(infos: seq<AddrInfo>, entries: seq<Entry>) {
    && (forall i, j :: 0 <= i < j < |infos| ==> infos[i].id != infos[j].id)
    && (forall i :: 0 <= i < |infos| ==> infos[i].addrs == Transports(entries, infos[i].id))
    && (forall p: Peer :: Named(entries, p) <==> Listed(infos, p))
  }

  ghost predicate Named(entries: seq<Entry>, p: Peer) {
    exists e :: e in entries && Names(e, p)
  }

  ghost predicate Listed(infos: seq<AddrInfo>, p: Peer) {
    exists i :: 0 <= i < |infos| && infos[i].id == p
  }

  /** The text entries for grouped peers. */
  function Strings(infos: seq<AddrInfo>): seq<Entry> {
    if infos == [] then []
    else Strings(infos[..|infos| - 1]) + InfoStrings(infos[|infos| - 1])
  }

  function InfoStrings(info: AddrInfo): seq<Entry> {
    if info.addrs == [] then [Bare(info.id, Canonical)]
    else seq(|info.addrs|, i requires 0 <= i < |info.addrs| => At(info.id, info.addrs[i], Canonical))
  }

  /* ----- How often a pair of peer and address is listed ----- */

  function Times(addrs: seq<Addr>, a: Addr): nat {
    multiset(addrs)[a]
  }

  function InfoCount(info: AddrInfo, pair: Pair): nat {
    if info.id == pair.0 then Times(info.addrs, pair.1) else 0
  }

  function Count(infos: seq<AddrInfo>, pair: Pair): nat {
    if infos == [] then 0 else Count(infos[..|infos| - 1], pair) + InfoCount(infos[|infos| - 1], pair)
  }

  function EntryCount(entries: seq<Entry>, pair: Pair): nat {
    if entries == [] then 0
    else EntryCount(entries[..|entries| - 1], pair) + if Lists(entries[|entries| - 1], pair) then 1 else 0
  }

  /** The entry lists the pair, in whatever spelling. */
  predicate Lists(e: Entry, pair: Pair) {
    e.At? && (e.peer, e.addr) == pair
  }

  lemma {:induction false} EntryCountIsTransports(entries: seq<Entry>, pair: Pair)
    ensures EntryCount(entries, pair) == Times(Transports(entries, pair.0), pair.1)
  {
    if entries != [] {
      EntryCountIsTransports(entries[..|entries| - 1], pair);
    }
  }

  lemma {:induction false} CountIsTransports(infos: seq<AddrInfo>, entries: seq<Entry>, pair: Pair)
    requires forall i, j :: 0 <= i < j < |infos| ==> infos[i].id != infos[j].id
    requires forall i :: 0 <= i < |infos| ==> infos[i].addrs == Transports(entries, infos[i].id)
    ensures Count(infos, pair) == if Listed(infos, pair.0) then Times(Transports(entries, pair.0), pair.1) else 0
  {
    if infos != [] {
      var init, last := infos[..|infos| - 1], infos[|infos| - 1];
      CountIsTransports(init, entries, pair);
      if last.id == pair.0 {
        assert infos[|infos| - 1].id == pair.0;
        assert !Listed(init, pair.0);
      } else {
        assert Listed(infos, pair.0) <==> Listed(init, pair.0) by {
          if i :| 0 <= i < |infos| && infos[i].id == pair.0 { assert init[i].id == pair.0; }
          if i :| 0 <= i < |init| && init[i].id == pair.0 { assert infos[i].id == pair.0; }
        }
      }
    }
  }

  lemma {:induction false} UnlistedHasNoTransports(entries: seq<Entry>, p: Peer)
    requires forall e :: e in entries ==> !Names(e, p)
    ensures Transports(entries, p) == []
  {
    if entries != [] {
      assert entries[|entries| - 1] in entries;
      UnlistedHasNoTransports(entries[..|entries| - 1], p);
    }
  }

  /** Grouping by peer keeps every pair as often as it is listed. */
  lemma GroupingConserves(infos: seq<AddrInfo>, entries: seq<Entry>, pair: Pair)
    requires Groups(infos, entries)
    ensures Count(infos, pair) == EntryCount(entries, pair)
  {
    CountIsTransports(infos, entries, pair);
    EntryCountIsTransports(entries, pair);
    if !Listed(infos, pair.0) { UnlistedHasNoTransports(entries, pair.0); }
  }

  lemma {:induction false} EntryCountConcat(a: seq<Entry>, b: seq<Entry>, pair: Pair)
    ensures EntryCount(a + b, pair) == EntryCount(a, pair) + EntryCount(b, pair)
    decreases |b|
  {
    if b == [] {
      assert a + b == a;
    } else {
      EntryCountConcat(a, b[..|b| - 1], pair);
      assert (a + b)[..|a + b| - 1] == a + b[..|b| - 1];
    }
  }

  lemma {:induction false} InfoStringsCount(p: Peer, addrs: seq<Addr>, pair: Pair)
    ensures EntryCount(InfoStrings(AddrInfo(p, addrs)), pair) == InfoCount(AddrInfo(p, addrs), pair)
    decreases |addrs|
  {
    var entries := InfoStrings(AddrInfo(p, addrs));
    if |addrs| <= 1 {
      assert entries[..|entries| - 1] == [];
      if |addrs| == 1 { assert addrs == [addrs[0]]; }
    } else {
      var init := addrs[..|addrs| - 1];
      InfoStringsCount(p, init, pair);
      assert entries[..|entries| - 1] == InfoStrings(AddrInfo(p, init));
      assert addrs == init + [addrs[|addrs| - 1]];
    }
  }

  /** Writing grouped peers back as text keeps every pair. */
  lemma {:induction false} StringsConserve(infos: seq<AddrInfo>, pair: Pair)
    ensures EntryCount(Strings(infos), pair) == Count(infos, pair)
  {
    if infos != [] {
      var init, last := infos[..|infos| - 1], infos[|infos| - 1];
      StringsConserve(init, pair);
      InfoStringsCount(last.id, last.addrs, pair);
      EntryCountConcat(Strings(init), InfoStrings(last), pair);
    }
  }

  lemma {:induction false} CountConcat(a: seq<AddrInfo>, b: seq<AddrInfo>, pair: Pair)
    ensures Count(a + b, pair) == Count(a, pair) + Count(b, pair)
    decreases |b|
  {
    if b == [] {
      assert a + b == a;
    } else {
      CountConcat(a, b[..|b| - 1], pair);
      assert (a + b)[..|a + b| - 1] == a + b[..|b| - 1];
    }
  }

  /* ----- Removing ----- */

  type Request = map<Peer, seq<Addr>>

  /** The pair is asked for: its peer is named alone, or with this address. */
  predicate Asked(request: Request, pair: Pair) {
    pair.0 in request && (request[pair.0] == [] || pair.1 in request[pair.0])
  }

  /** All listings of the pair go to one side, as asked. */
  ghost predicate SplitsPair(
    peers: seq<AddrInfo>, request: Request, keep: seq<AddrInfo>, removed: seq<AddrInfo>, pair: Pair)
  {
    && Count(removed, pair) == (if Asked(request, pair) then Count(peers, pair) else 0)
    && Count(keep, pair) == (if Asked(request, pair) then 0 else Count(peers, pair))
  }

  ghost predicate Splits(peers: seq<AddrInfo>, request: Request, keep: seq<AddrInfo>, removed: seq<AddrInfo>) {
    forall pair: Pair :: SplitsPair(peers, request, keep, removed, pair)
  }

  /** Splits the addresses of one peer by those asked for. */
  method SplitAddrs(addrs: seq<Addr>, asked: seq<Addr>) returns (kept: seq<Addr>, removed: seq<Addr>)
    ensures forall a :: Times(kept, a) == if a in asked then 0 else Times(addrs, a)
    ensures forall a :: Times(removed, a) == if a in asked then Times(addrs, a) else 0
    ensures kept == [] && removed == [] <==> addrs == []
  {
    kept, removed := [], [];
    for i := 0 to |addrs|
      invariant forall a :: Times(kept, a) == if a in asked then 0 else Times(addrs[..i], a)
      invariant forall a :: Times(removed, a) == if a in asked then Times(addrs[..i], a) else 0
      invariant kept == [] && removed == [] <==> i == 0
    {
      var addr := addrs[i];
      assert addrs[..i + 1] == addrs[..i] + [addr];
      var j := 0;
      while j < |asked| && addr != asked[j]
        invariant j <= |asked| && addr !in asked[..j]
      {
        j := j + 1;
      }
      if j < |asked| {
        removed := removed + [addr];
      } else {
        assert asked[..j] == asked;
        kept := kept + [addr];
      }
    }
    assert addrs[..|addrs|] == addrs;
  }

  function Ids(infos: seq<AddrInfo>): set<Peer> {
    set info | info in infos :: info.id
  }

  /** A listed peer is lost from both sides: it has no address, and some addresses of it are asked for. */
  predicate Lost(info: AddrInfo, request: Request) {
    info.addrs == [] && info.id in request && request[info.id] != []
  }

  /** What happens to one peer: at most one entry for each side. */
  method RemovePeer(p: AddrInfo, request: Request) returns (keep: seq<AddrInfo>, removed: seq<AddrInfo>)
    ensures Splits([p], request, keep, removed)
    ensures Ids(keep) + Ids(removed) == if Lost(p, request) then {} else {p.id}
  {
    keep, removed := [], [];
    OnePeer(p);
    if p.id !in request {
      return [p], [];
    }
    if request[p.id] == [] {
      return [], [p];
    }
    var keptAddrs, removedAddrs := SplitAddrs(p.addrs, request[p.id]);
    OnePeer(AddrInfo(p.id, keptAddrs));
    OnePeer(AddrInfo(p.id, removedAddrs));
    if |removedAddrs| > 0 {
      removed := [AddrInfo(p.id, removedAddrs)];
    }
    if |keptAddrs| > 0 {
      keep := [AddrInfo(p.id, keptAddrs)];
    }
  }

  lemma OnePeer(p: AddrInfo)
    ensures forall pair: Pair :: Count([p], pair) == InfoCount(p, pair)
    ensures Ids([p]) == {p.id}
  {
  }

  lemma SplitsConcat(a: seq<AddrInfo>, p: AddrInfo, request: Request,
                     keep: seq<AddrInfo>, removed: seq<AddrInfo>, k: seq<AddrInfo>, r: seq<AddrInfo>)
    requires Splits(a, request, keep, removed) && Splits([p], request, k, r)
    ensures Splits(a + [p], request, keep + k, removed + r)
  {
    forall pair: Pair ensures SplitsPair(a + [p], request, keep + k, removed + r, pair) {
      assert SplitsPair(a, request, keep, removed, pair) && SplitsPair([p], request, k, r, pair);
      CountConcat(a, [p], pair);
      CountConcat(keep, k, pair);
      CountConcat(removed, r, pair);
    }
  }

  ghost function Surviving(peers: seq<AddrInfo>, request: Request): set<Peer> {
    set info | info in peers && !Lost(info, request) :: info.id
  }

  lemma SurvivingConcat(a: seq<AddrInfo>, p: AddrInfo, request: Request)
    ensures Surviving(a + [p], request) == Surviving(a, request) + if Lost(p, request) then {} else {p.id}
  {
  }

  /**
   Splits the peers into those to keep and those removed. No pair is lost or
   doubled, and a peer disappears from both lists exactly when it is listed without
   any address and asked for with some.
   */
  method RemovePeers(peers: seq<AddrInfo>, request: Request) returns (keep: seq<AddrInfo>, removed: seq<AddrInfo>)
    ensures Splits(peers, request, keep, removed)
    ensures Ids(keep) + Ids(removed) == Surviving(peers, request)
  {
    keep, removed := [], [];
    for i := 0 to |peers|
      invariant Splits(peers[..i], request, keep, removed)
      invariant Ids(keep) + Ids(removed) == Surviving(peers[..i], request)
    {
      var k, r := RemovePeer(peers[i], request);
      SplitsConcat(peers[..i], peers[i], request, keep, removed, k, r);
      assert peers[..i + 1] == peers[..i] + [peers[i]];
      assert Ids(keep + k) == Ids(keep) + Ids(k) && Ids(removed + r) == Ids(removed) + Ids(r);
      SurvivingConcat(peers[..i], peers[i], request);
      keep, removed := keep + k, removed + r;
    }
    assert peers[..|peers|] == peers;
  }

  ghost predicate RequestIs(infos: seq<AddrInfo>, request: Request) {
    && (forall i :: 0 <= i < |infos| ==> infos[i].id in request && request[infos[i].id] == infos[i].addrs)
    && (forall p :: p in request ==> Listed(infos, p))
  }

  /** The addresses asked for, by peer. */
  method RequestOf(infos: seq<AddrInfo>) returns (request: Request)
    requires forall i, j :: 0 <= i < j < |infos| ==> infos[i].id != infos[j].id
    ensures RequestIs(infos, request)
  {
    request := map[];
    for i := 0 to |infos|
      invariant forall j :: 0 <= j < i ==> infos[j].id in request && request[infos[j].id] == infos[j].addrs
      invariant forall p :: p in request ==> Listed(infos, p)
    {
      request := request[infos[i].id := infos[i].addrs];
    }
  }

  /** The pair is asked for by the text entries: its peer is named without any address, or with this one. */
  ghost predicate AskedBy(entries: seq<Entry>, pair: Pair) {
    && Named(entries, pair.0)
    && (Transports(entries, pair.0) == [] || pair.1 in Transports(entries, pair.0))
  }

  lemma AskedIffAskedBy(toRemove: seq<Entry>, asked: seq<AddrInfo>, request: Request, pair: Pair)
    requires Groups(asked, toRemove) && RequestIs(asked, request)
    ensures Asked(request, pair) <==> AskedBy(toRemove, pair)
  {
    if Listed(asked, pair.0) {
      var i :| 0 <= i < |asked| && asked[i].id == pair.0;
    }
  }

  /** A peer listed without any address, while some address of it is asked for, is lost from sight. */
  ghost predicate Vanishes(entries: seq<Entry>, toRemove: seq<Entry>, p: Peer) {
    Transports(entries, p) == [] && Transports(toRemove, p) != []
  }

  lemma SurvivingIffNotVanishing(entries: seq<Entry>, toRemove: seq<Entry>,
                                 listed: seq<AddrInfo>, asked: seq<AddrInfo>, request: Request, p: Peer)
    requires Groups(listed, entries) && Groups(asked, toRemove) && RequestIs(asked, request)
    ensures p in Surviving(listed, request) <==> Named(entries, p) && !Vanishes(entries, toRemove, p)
  {
    if !Listed(asked, p) { UnlistedHasNoTransports(toRemove, p); }
    if i :| 0 <= i < |asked| && asked[i].id == p {
      assert request[p] == Transports(toRemove, p);
    }
    if i :| 0 <= i < |listed| && listed[i].id == p {
      assert listed[i] in listed && listed[i].addrs == Transports(entries, p);
    }
  }

  /** The text entries for grouped peers name exactly those peers. */
  lemma {:induction false} StringsNames(infos: seq<AddrInfo>, p: Peer)
    ensures Named(Strings(infos), p) <==> p in Ids(infos)
  {
    if infos != [] {
      var init, last := infos[..|infos| - 1], infos[|infos| - 1];
      StringsNames(init, p);
      assert infos == init + [last];
      var more := InfoStrings(last);
      assert Names(more[0], last.id) && forall e :: e in more ==> (Names(e, p) <==> last.id == p);
      assert more[0] in Strings(init) + more;
    }
  }

  lemma {:induction false} TransportsConcat(a: seq<Entry>, b: seq<Entry>, p: Peer)
    ensures Transports(a + b, p) == Transports(a, p) + Transports(b, p)
    decreases |b|
  {
    if b == [] {
      assert a + b == a;
    } else {
      TransportsConcat(a, b[..|b| - 1], p);
      assert (a + b)[..|a + b| - 1] == a + b[..|b| - 1];
    }
  }

  lemma {:induction false} InfoTransports(id: Peer, addrs: seq<Addr>, p: Peer)
    ensures Transports(InfoStrings(AddrInfo(id, addrs)), p) == if p == id then addrs else []
    decreases |addrs|
  {
    var entries := InfoStrings(AddrInfo(id, addrs));
    var init := entries[..|entries| - 1];
    if |addrs| <= 1 {
      assert init == [];
    } else {
      InfoTransports(id, addrs[..|addrs| - 1], p);
      assert init == InfoStrings(AddrInfo(id, addrs[..|addrs| - 1]));
    }
  }

  /** The addresses of `p` in all the entries, and in those for all the peers but the last. */
  lemma LastInfo(infos: seq<AddrInfo>, p: Peer)
    requires infos != []
    ensures var init, last := infos[..|infos| - 1], infos[|infos| - 1];
            && (p == last.id ==> Transports(Strings(infos), p) == Transports(Strings(init), p) + last.addrs)
            && (p != last.id ==> Transports(Strings(infos), p) == Transports(Strings(init), p))
  {
    var init, last := infos[..|infos| - 1], infos[|infos| - 1];
    TransportsConcat(Strings(init), InfoStrings(last), p);
    InfoTransports(last.id, last.addrs, p);
  }

  lemma {:induction false} NoTransports(infos: seq<AddrInfo>, p: Peer)
    requires forall i :: 0 <= i < |infos| ==> infos[i].id != p
    ensures Transports(Strings(infos), p) == []
  {
    if infos != [] {
      LastInfo(infos, p);
      NoTransports(infos[..|infos| - 1], p);
    }
  }

  /** Each peer's addresses are read back in order. */
  lemma {:induction false} StringsTransports(infos: seq<AddrInfo>, i: nat)
    requires forall i, j :: 0 <= i < j < |infos| ==> infos[i].id != infos[j].id
    requires i < |infos|
    ensures Transports(Strings(infos), infos[i].id) == infos[i].addrs
  {
    LastInfo(infos, infos[i].id);
    if i < |infos| - 1 {
      StringsTransports(infos[..|infos| - 1], i);
    } else {
      NoTransports(infos[..|infos| - 1], infos[i].id);
    }
  }

  /** Writing grouped peers and grouping them again gives them back, each with its addresses in order. */
  lemma StringsGroupBack(infos: seq<AddrInfo>)
    requires forall i, j :: 0 <= i < j < |infos| ==> infos[i].id != infos[j].id
    ensures Groups(infos, Strings(infos))
  {
    forall i | 0 <= i < |infos| ensures infos[i].addrs == Transports(Strings(infos), infos[i].id) {
      StringsTransports(infos, i);
    }
    forall p: Peer ensures Named(Strings(infos), p) <==> Listed(infos, p) {
      StringsNames(infos, p);
      if p in Ids(infos) {
        var info :| info in infos && info.id == p;
        var i :| 0 <= i < |infos| && infos[i] == info;
      }
    }
  }

  /** The listings of a pair before are now all removed, if asked for, or else all kept. */
  ghost predicate Moved(before: seq<Entry>, toRemove: seq<Entry>, kept: seq<Entry>, removed: seq<Entry>, pair: Pair) {
    && EntryCount(removed, pair) == (if AskedBy(toRemove, pair) then EntryCount(before, pair) else 0)
    && EntryCount(kept, pair) == (if AskedBy(toRemove, pair) then 0 else EntryCount(before, pair))
  }

  /** Every entry gives a peer, in the spelling in which it is written back. */
  predicate Respelled(entries: seq<Entry>) {
    forall e :: e in entries ==> (e.At? || e.Bare?) && e.spelling.Canonical?
  }

  /** Grouping and writing back forgets how entries were spelled. */
  lemma {:induction false} StringsRespell(infos: seq<AddrInfo>)
    ensures Respelled(Strings(infos))
  {
    if infos != [] {
      StringsRespell(infos[..|infos| - 1]);
    }
  }

  class Config {
    var bootstrap: seq<Entry>
    var autoConf: bool

    constructor (bootstrap: seq<Entry>, autoConf: bool)
      ensures this.bootstrap == bootstrap && this.autoConf == autoConf
    {
      this.bootstrap, this.autoConf := bootstrap, autoConf;
    }

    /**
     Puts the new entries first and the old ones behind them, each entry once, and
     returns the entries added; or refuses them all and changes nothing. New entries must
     be "auto" or give a peer under a transport address.
     */
    method Add(peers: seq<Entry>) returns (r: Result<seq<Entry>, Failure>)
      modifies this`bootstrap
      ensures r.Ok? <==> forall e :: e in peers ==> e.Auto? || e.At?
      ensures r.Ok? ==> r.value == FirstOccurrences(peers)
      ensures r.Ok? ==> r.value <= bootstrap && Distinct(bootstrap)
      ensures r.Ok? ==> forall e :: e in bootstrap <==> e in peers || e in old(bootstrap)
      ensures r.Err? ==> r.error == BadEntry
      ensures bootstrap == if r.Ok? then FirstOccurrences(peers + old(bootstrap)) else old(bootstrap)
    {
      for i := 0 to |peers|
        invariant forall e :: e in peers[..i] ==> e.Auto? || e.At?
      {
        assert peers[..i + 1] == peers[..i] + [peers[i]];
        if !peers[i].Auto? && !peers[i].At? {
          assert peers[i] in peers;
          return Err(BadEntry);
        }
      }
      assert peers[..|peers|] == peers;
      var list, addedMap := AppendNew([], {}, peers, []);
      assert [] + peers == peers;
      var added := list;
      list, addedMap := AppendNew(list, addedMap, bootstrap, peers);
      ghost var all := peers + bootstrap;
      FirstOccurrencesAreDistinct(all);
      FirstOccurrencesPrefix(all, |peers|);
      assert all[..|peers|] == peers;
      bootstrap := list;
      r := Ok(added);
    }

    /**
     Removes peers or single addresses. `listed` and `asked` are the two lists
     grouped by peer. On success every pair of peer and address that was listed is
     now either still listed or returned, as asked, and all that is still listed is
     spelled anew; on an error nothing changes.
     */
    method Remove(toRemove: seq<Entry>, listed: seq<AddrInfo>, asked: seq<AddrInfo>)
      returns (r: Result<seq<Entry>, Failure>)
      requires Groups(listed, bootstrap) && Groups(asked, toRemove)
      modifies this`bootstrap
      ensures r.Ok? <==> forall e :: e in old(bootstrap) || e in toRemove ==> e.At? || e.Bare?
      ensures r.Err? ==> (r.error == AutoManaged <==> Auto in old(bootstrap) && autoConf)
      ensures r.Err? ==> bootstrap == old(bootstrap)
      ensures r.Ok? ==> forall pair: Pair :: Moved(old(bootstrap), toRemove, bootstrap, r.value, pair)
      ensures r.Ok? ==> forall p: Peer ::
                Named(bootstrap, p) || Named(r.value, p) <==>
                Named(old(bootstrap), p) && !Vanishes(old(bootstrap), toRemove, p)
      ensures r.Ok? ==> Respelled(bootstrap) && Respelled(r.value)
    {
      if Auto in bootstrap && autoConf {
        return Err(AutoManaged);
      }
      if !Parses(toRemove) || !Parses(bootstrap) {
        return Err(BadEntry);
      }
      var request := RequestOf(asked);
      var keep, removed := RemovePeers(listed, request);
      forall pair: Pair ensures Moved(bootstrap, toRemove, Strings(keep), Strings(removed), pair) {
        AskedIffAskedBy(toRemove, asked, request, pair);
        GroupingConserves(listed, bootstrap, pair);
        StringsConserve(keep, pair);
        StringsConserve(removed, pair);
        assert SplitsPair(listed, request, keep, removed, pair);
      }
      forall p: Peer ensures Named(Strings(keep), p) || Named(Strings(removed), p) <==>
                               Named(bootstrap, p) && !Vanishes(bootstrap, toRemove, p) {
        StringsNames(keep, p);
        StringsNames(removed, p);
        SurvivingIffNotVanishing(bootstrap, toRemove, listed, asked, request, p);
      }
      StringsRespell(keep);
      StringsRespell(removed);
      bootstrap := Strings(keep);
      r := Ok(Strings(removed));
    }
  }

  /** Adding an address that is listed in another spelling lists it twice. */
  method SpelledTwiceExample() returns (list: seq<Entry>)
    ensures EntryCount(list, (1, 7)) == 2
  {
    var listed, more := At(1, 7, Variant("/ip4/1.2.3.4/tcp/4001/ipfs/QmPeer")), At(1, 7, Canonical);
    var config := new Config([listed], false);
    var r := config.Add([more]);
    list := config.bootstrap;
    assert [more] + [listed] == [more, listed] && [more, listed][..1] == [more] && [more][..0] == [];
    assert FirstOccurrences([more]) == [more];
    assert list == [more, listed];
    assert EntryCount([more], (1, 7)) == 1;
  }

  /** A peer listed bare and asked for under an address is in neither list afterwards. */
  method VanishingPeerExample() returns (kept: seq<Entry>, removed: seq<Entry>)
    ensures !Named(kept, 1) && !Named(removed, 1)
  {
    var listed, toRemove := [Bare(1, Canonical)], [At(1, 7, Canonical)];
    var config := new Config(listed, false);
    assert Names(listed[0], 1) && listed[0] in listed && Names(toRemove[0], 1) && toRemove[0] in toRemove;
    assert listed[..0] == [] && toRemove[..0] == [];
    assert Transports(listed, 1) == [] && Transports(toRemove, 1) == [7];
    assert [AddrInfo(1, [])][0].id == 1 && [AddrInfo(1, [7])][0].id == 1;
    var r := config.Remove(toRemove, [AddrInfo(1, [])], [AddrInfo(1, [7])]);
    assert Vanishes(listed, toRemove, 1);
    kept, removed := config.bootstrap, r.value;
  }
}
